/**
 Expansion of `${NAME}` placeholders.  The loop replaces the leftmost placeholder and scans the whole string
 again, so it also expands what it has just inserted.  This module says when it ends and when it equals one
 pass from left to right that never looks inside an inserted value.
 */
module Expansion {
  import opened Base
  import opened Rewriting

  /** What a name stands for, if anything. */
  type Resolver = string -> Option<string>

  /** The leftmost `${` that some `}` follows, up to the first such `}`. */
  datatype Hole = Hole(pre: string, name: string, post: string)

  predicate Opens(s: string) {
    |s| >= 2 && s[0] == '$' && s[1] == '{'
  }

  /** Position of the first `${`, or the length if there is none. */
  function OpenIndex(s: string): (i: nat)
    ensures i <= |s|
    ensures i < |s| ==> i + 2 <= |s| && s[i] == '$' && s[i + 1] == '{'
  {
    if s == [] || Opens(s) then 0 else 1 + OpenIndex(s[1..])
  }

  /** Position of the first `}`, or the length if there is none. */
  function CloseIndex(s: string): (i: nat)
    ensures i <= |s|
    ensures i < |s| ==> s[i] == '}'
    ensures forall j | 0 <= j < i :: s[j] != '}'
  {
    if s == [] || s[0] == '}' then 0 else 1 + CloseIndex(s[1..])
  }

  function NextHole(s: string): Option<Hole> {
    var i := OpenIndex(s);
    if i == |s| then None else HoleAt(s[..i], s[i + 2..])
  }

  function HoleAt(pre: string, rest: string): (h: Option<Hole>)
    ensures h.Some? ==> |h.value.post| < |rest| && h.value.pre == pre && '}' !in h.value.name
  {
    var j := CloseIndex(rest);
    if j == |rest| then None else Some(Hole(pre, rest[..j], rest[j + 1..]))
  }

  /** Where the parts of the leftmost placeholder lie in the string. */
  lemma HoleParts(s: string) returns (i: nat, j: nat)
    requires NextHole(s).Some?
    ensures i + 2 <= j < |s| && s[i] == '$' && s[i + 1] == '{' && s[j] == '}'
    ensures NextHole(s).value == Hole(s[..i], s[i + 2..j], s[j + 1..])
    ensures i == OpenIndex(s)
  {
    i := OpenIndex(s);
    var rest := s[i + 2..];
    j := i + 2 + CloseIndex(rest);
    assert s[j] == rest[j - i - 2];
    assert rest[..j - i - 2] == s[i + 2..j] && rest[j - i - 1..] == s[j + 1..];
  }

  // ----- the loop -----

  function Rewrite(s: string, r: Resolver): Step {
    match NextHole(s)
    case None => Done
    case Some(h) =>
      match r(h.name)
      case None => Missing(h.name)
      case Some(v) => Continue(h.pre + (v + h.post))
  }

  /** The loop leaves by its guard, its `break` or its error return after at most `n` replacements. */
  ghost predicate HaltsIn(s: string, r: Resolver, n: nat)
    decreases n
  {
    Rewrite(s, r).Continue? ==> n > 0 && HaltsIn(Rewrite(s, r).next, r, n - 1)
  }

  ghost function ExpandIn(s: string, r: Resolver, n: nat): Result<string, string>
    requires HaltsIn(s, r, n)
    decreases n
  {
    match Rewrite(s, r)
    case Done => Ok(s)
    case Missing(name) => Err(name)
    case Continue(next) => ExpandIn(next, r, n - 1)
  }

  ghost predicate Halts(s: string, r: Resolver) {
    exists n: nat :: HaltsIn(s, r, n)
  }

  ghost predicate ExpandsTo(s: string, r: Resolver, result: Result<string, string>) {
    exists n: nat :: HaltsIn(s, r, n) && ExpandIn(s, r, n) == result
  }

  lemma {:induction false} ExpansionIsUnique(s: string, r: Resolver, m: nat, n: nat)
    requires HaltsIn(s, r, m) && HaltsIn(s, r, n)
    ensures ExpandIn(s, r, m) == ExpandIn(s, r, n)
    decreases m
  {
    if Rewrite(s, r).Continue? {
      ExpansionIsUnique(Rewrite(s, r).next, r, m - 1, n - 1);
    }
  }

  lemma OneResult(s: string, r: Resolver, a: Result<string, string>, b: Result<string, string>)
    requires ExpandsTo(s, r, a) && ExpandsTo(s, r, b)
    ensures a == b
  {
    var m: nat :| HaltsIn(s, r, m) && ExpandIn(s, r, m) == a;
    var n: nat :| HaltsIn(s, r, n) && ExpandIn(s, r, n) == b;
    ExpansionIsUnique(s, r, m, n);
  }

  /** The rescanning loop, on every input on which the source's loop ends. */
  method Expand(input: string, r: Resolver) returns (result: Result<string, string>)
    requires Halts(input, r)
    ensures ExpandsTo(input, r, result)
  {
    var s := input;
    ghost var n: nat :| HaltsIn(input, r, n);
    ghost var n0 := n;
    while true
      invariant HaltsIn(s, r, n) && ExpandIn(s, r, n) == ExpandIn(input, r, n0)
      decreases n
    {
      var hole := NextHole(s);
      if hole.None? {
        break;
      }
      var v := r(hole.value.name);
      if v.None? {
        return Err(hole.value.name);
      }
      s := hole.value.pre + (v.value + hole.value.post);
      n := n - 1;
    }
    result := Ok(s);
  }

  // ----- where it ends -----

  function Dollars(s: string): nat {
    if s == [] then 0 else (if s[0] == '$' then 1 else 0) + Dollars(s[1..])
  }

  lemma {:induction false} DollarsConcat(a: string, b: string)
    ensures Dollars(a + b) == Dollars(a) + Dollars(b)
  {
    if a == [] {
      assert a + b == b;
    } else {
      DollarsConcat(a[1..], b);
      assert (a + b)[1..] == a[1..] + b;
    }
  }

  lemma DollarsSplit(s: string, k: nat)
    requires k <= |s|
    ensures Dollars(s) == Dollars(s[..k]) + Dollars(s[k..])
  {
    assert s == s[..k] + s[k..];
    DollarsConcat(s[..k], s[k..]);
  }

  lemma {:induction false} NoDollars(s: string)
    requires '$' !in s
    ensures Dollars(s) == 0
  {
    if s != [] {
      NoDollars(s[1..]);
    }
  }

  lemma DollarsAround(s: string, i: nat, j: nat)
    requires i < j < |s| && s[i] == '$'
    ensures Dollars(s) > Dollars(s[..i]) + Dollars(s[j + 1..])
  {
    DollarsSplit(s, j + 1);
    DollarsSplit(s[..j + 1], i);
    assert s[..j + 1][..i] == s[..i] && s[..j + 1][i..][0] == '$';
  }

  lemma ReplacementDropsDollar(s: string, v: string)
    requires NextHole(s).Some? && '$' !in v
    ensures Dollars(NextHole(s).value.pre + (v + NextHole(s).value.post)) < Dollars(s)
  {
    var i, j := HoleParts(s);
    DollarsAround(s, i, j);
    DollarsConcat(s[..i], v + s[j + 1..]);
    DollarsConcat(v, s[j + 1..]);
    NoDollars(v);
  }

  /** If no value contains `$`, every replacement removes a `$` for good, whatever the template. */
  lemma {:induction false} HaltsByDollars(s: string, r: Resolver)
    requires forall name | r(name).Some? :: '$' !in r(name).value
    ensures HaltsIn(s, r, Dollars(s))
    decreases Dollars(s)
  {
    if Rewrite(s, r).Continue? {
      var next := Rewrite(s, r).next;
      ReplacementDropsDollar(s, r(NextHole(s).value.name).value);
      HaltsByDollars(next, r);
      HaltsLonger(next, r, Dollars(next), Dollars(s) - 1);
    }
  }

  lemma {:induction false} HaltsLonger(s: string, r: Resolver, m: nat, n: nat)
    requires HaltsIn(s, r, m) && m <= n
    ensures HaltsIn(s, r, n)
    decreases m
  {
    if Rewrite(s, r).Continue? {
      HaltsLonger(Rewrite(s, r).next, r, m - 1, n - 1);
    }
  }

  // ----- one pass -----

  function OnePass(s: string, r: Resolver): Result<string, string>
    decreases |s|
  {
    match NextHole(s)
    case None => Ok(s)
    case Some(h) =>
      match r(h.name)
      case None => Err(h.name)
      case Some(v) => Prepend(h.pre + v, OnePass(h.post, r))
  }

  function Prepend(p: string, result: Result<string, string>): Result<string, string> {
    if result.Ok? then Ok(p + result.value) else result
  }

  predicate EndsWithDollar(s: string) {
    s != [] && s[|s| - 1] == '$'
  }

  /** No placeholder can begin in `p`, whatever follows it. */
  predicate Inert(p: string) {
    OpenIndex(p) == |p| && !EndsWithDollar(p)
  }

  lemma {:induction false} OpenIndexAfterInert(p: string, t: string)
    requires Inert(p)
    ensures OpenIndex(p + t) == |p| + OpenIndex(t)
  {
    if p == [] {
      assert p + t == t;
    } else {
      var s := p + t;
      assert s[1..] == p[1..] + t && s[0] == p[0] && (|p| > 1 ==> s[1] == p[1]);
      OpenIndexAfterInert(p[1..], t);
    }
  }

  lemma NextHoleCut(s: string, i: nat, pre: string, rest: string)
    requires OpenIndex(s) == i && i + 2 <= |s| && s[..i] == pre && s[i + 2..] == rest
    ensures NextHole(s) == HoleAt(pre, rest)
  {
  }

  lemma HoleAtLongerPre(p: string, pre: string, rest: string)
    ensures HoleAt(p + pre, rest) ==
            if HoleAt(pre, rest).Some? then Some(HoleAt(pre, rest).value.(pre := p + pre)) else None
  {
  }

  lemma NextHoleBehind(p: string, t: string)
    requires OpenIndex(p + t) == |p| + OpenIndex(t) && OpenIndex(t) < |t|
    ensures NextHole(p + t) == HoleAt(p + t[..OpenIndex(t)], t[OpenIndex(t) + 2..])
  {
    var i := OpenIndex(t);
    TakeBehind(p, t, i);
    DropBehind(p, t, i + 2);
    NextHoleCut(p + t, |p| + i, p + t[..i], t[i + 2..]);
  }

  lemma NextHoleAfterInert(p: string, t: string)
    requires Inert(p)
    ensures NextHole(p + t) ==
            if NextHole(t).Some? then Some(NextHole(t).value.(pre := p + NextHole(t).value.pre)) else None
  {
    OpenIndexAfterInert(p, t);
    if OpenIndex(t) < |t| {
      NextHoleBehind(p, t);
      HoleAtLongerPre(p, t[..OpenIndex(t)], t[OpenIndex(t) + 2..]);
    }
  }

  lemma RewriteAfterInert(p: string, t: string, r: Resolver)
    requires Inert(p)
    ensures Rewrite(p + t, r) == match Rewrite(t, r)
                                 case Done => Done
                                 case Missing(name) => Missing(name)
                                 case Continue(next) => Continue(p + next)
  {
    NextHoleAfterInert(p, t);
    if NextHole(t).Some? && r(NextHole(t).value.name).Some? {
      Assoc(p, NextHole(t).value.pre, r(NextHole(t).value.name).value + NextHole(t).value.post);
    }
  }

  /** An inert prefix does not take part in the expansion. */
  lemma {:induction false} InertPrefixStays(p: string, t: string, r: Resolver, n: nat)
    requires Inert(p)
    ensures HaltsIn(p + t, r, n) <==> HaltsIn(t, r, n)
    ensures HaltsIn(t, r, n) ==> ExpandIn(p + t, r, n) == Prepend(p, ExpandIn(t, r, n))
    decreases n
  {
    RewriteAfterInert(p, t, r);
    if Rewrite(t, r).Continue? && n > 0 {
      InertPrefixStays(p, Rewrite(t, r).next, r, n - 1);
    }
  }

  lemma InertPrefixHalts(p: string, t: string, r: Resolver, n: nat)
    requires Inert(p)
    ensures HaltsIn(p + t, r, n) <==> HaltsIn(t, r, n)
  {
    InertPrefixStays(p, t, r, n);
  }

  /** In the reading of `s` from left to right, no placeholder has a `$` directly before it. */
  predicate Clean(s: string)
    decreases |s|
  {
    match NextHole(s)
    case None => true
    case Some(h) => !EndsWithDollar(h.pre) && Clean(h.post)
  }

  /** No `$${` anywhere. */
  predicate NoDoubleDollar(s: string) {
    s == [] || (!(s[0] == '$' && Opens(s[1..])) && NoDoubleDollar(s[1..]))
  }

  lemma {:induction false} NoDoubleDollarAt(s: string, k: nat)
    requires NoDoubleDollar(s) && k < |s|
    ensures NoDoubleDollar(s[k..]) && !(s[k] == '$' && Opens(s[k + 1..]))
  {
    if k > 0 {
      NoDoubleDollarAt(s[1..], k - 1);
      assert s[1..][k - 1..] == s[k..] && s[1..][k..] == s[k + 1..];
    }
  }

  lemma NoDollarBefore(s: string, i: nat)
    requires NoDoubleDollar(s) && 0 < i <= |s| && Opens(s[i..])
    ensures !EndsWithDollar(s[..i])
  {
    NoDoubleDollarAt(s, i - 1);
  }

  /** Without `$${` a template is clean. */
  lemma {:induction false} NoDoubleDollarIsClean(s: string)
    requires NoDoubleDollar(s)
    ensures Clean(s)
    decreases |s|
  {
    if NextHole(s).Some? {
      var i, j := HoleParts(s);
      NoDoubleDollarAt(s, j);
      NoDoubleDollarIsClean(s[j + 1..]);
      if i > 0 {
        NoDollarBefore(s, i);
      }
    }
  }

  /** A name that a placeholder can have. */
  predicate Nameable(name: string) {
    '}' !in name
  }

  ghost predicate ValuesInert(r: Resolver) {
    forall name | Nameable(name) && r(name).Some? :: Inert(r(name).value)
  }

  lemma {:induction false} OpenIndexOfPre(s: string)
    ensures OpenIndex(s[..OpenIndex(s)]) == OpenIndex(s)
  {
    if OpenIndex(s) > 0 {
      OpenIndexOfPre(s[1..]);
      var p := s[..OpenIndex(s)];
      assert p[1..] == s[1..][..OpenIndex(s) - 1];
    }
  }

  /** What stands before the leftmost placeholder is inert unless it ends with `$`. */
  lemma PreIsInert(s: string)
    requires NextHole(s).Some? && !EndsWithDollar(NextHole(s).value.pre)
    ensures Inert(NextHole(s).value.pre)
  {
    OpenIndexOfPre(s);
  }

  lemma InertPlusInert(p: string, v: string)
    requires Inert(p) && Inert(v)
    ensures Inert(p + v)
  {
    OpenIndexAfterInert(p, v);
  }

  /** One replacement in a clean template leaves an inert prefix and a shorter clean template. */
  lemma OnePassStep(s: string, r: Resolver) returns (p: string, post: string)
    requires ValuesInert(r) && Clean(s) && Rewrite(s, r).Continue?
    ensures Inert(p) && Clean(post) && |post| < |s|
    ensures Rewrite(s, r) == Continue(p + post)
    ensures OnePass(s, r) == Prepend(p, OnePass(post, r))
  {
    var h := NextHole(s).value;
    PreIsInert(s);
    InertPlusInert(h.pre, r(h.name).value);
    p, post := h.pre + r(h.name).value, h.post;
    Assoc(h.pre, r(h.name).value, h.post);
  }

  lemma NoReplacementIsOnePass(s: string, r: Resolver, n: nat)
    requires !Rewrite(s, r).Continue?
    ensures HaltsIn(s, r, n) && ExpandIn(s, r, n) == OnePass(s, r)
  {
  }

  lemma OneReplacement(s: string, r: Resolver, n: nat)
    requires Rewrite(s, r).Continue? && HaltsIn(Rewrite(s, r).next, r, n)
    ensures HaltsIn(s, r, n + 1) && ExpandIn(s, r, n + 1) == ExpandIn(Rewrite(s, r).next, r, n)
  {
  }

  lemma {:induction false} InertValuesGiveOnePass(s: string, r: Resolver, n: nat)
    requires ValuesInert(r) && Clean(s) && n >= |s|
    ensures HaltsIn(s, r, n) && ExpandIn(s, r, n) == OnePass(s, r)
    decreases |s|
  {
    if Rewrite(s, r).Continue? {
      var p, post := OnePassStep(s, r);
      InertValuesGiveOnePass(post, r, n - 1);
      InertPrefixStays(p, post, r, n - 1);
      OneReplacement(s, r, n - 1);
    } else {
      NoReplacementIsOnePass(s, r, n);
    }
  }

  // The converse: a value that is not inert is looked into by some template, and a template that is not clean
  // looks into some inert value.

  lemma {:induction false} ResultHasNoHole(s: string, r: Resolver, n: nat)
    requires HaltsIn(s, r, n) && ExpandIn(s, r, n).Ok?
    ensures NextHole(ExpandIn(s, r, n).value).None?
    decreases n
  {
    if Rewrite(s, r).Continue? {
      ResultHasNoHole(Rewrite(s, r).next, r, n - 1);
    }
  }

  lemma NotTheResult(s: string, r: Resolver, text: string)
    requires NextHole(text).Some?
    ensures !ExpandsTo(s, r, Ok(text))
  {
    forall n: nat | HaltsIn(s, r, n) && ExpandIn(s, r, n) == Ok(text) ensures false {
      ResultHasNoHole(s, r, n);
    }
  }

  lemma {:induction false} OpenIndexIsLeftmost(s: string, i: nat)
    requires i + 2 <= |s| && s[i] == '$' && s[i + 1] == '{'
    ensures OpenIndex(s) <= i
  {
    if i > 0 && !Opens(s) {
      OpenIndexIsLeftmost(s[1..], i - 1);
    }
  }

  lemma HasHole(s: string, i: nat, j: nat)
    requires i + 2 <= j < |s| && s[i] == '$' && s[i + 1] == '{' && s[j] == '}'
    ensures NextHole(s).Some?
  {
    OpenIndexIsLeftmost(s, i);
    var k := OpenIndex(s);
    assert s[k + 2..][j - k - 2] == '}';
  }

  lemma {:induction false} CloseIndexAfterName(name: string, t: string)
    requires Nameable(name)
    ensures CloseIndex(name + (['}'] + t)) == |name|
  {
    if name != [] {
      assert (name + (['}'] + t))[1..] == name[1..] + (['}'] + t);
      CloseIndexAfterName(name[1..], t);
    }
  }

  /** `${name}` */
  function Placeholder(name: string): string {
    ['$', '{'] + (name + ['}'])
  }

  lemma HoleAtName(name: string, t: string)
    requires Nameable(name)
    ensures HoleAt([], name + (['}'] + t)) == Some(Hole([], name, t))
  {
    var rest := name + (['}'] + t);
    CloseIndexAfterName(name, t);
    assert rest[..|name|] == name && rest[|name| + 1..] == t;
  }

  lemma PlaceholderParts(name: string, t: string)
    ensures Placeholder(name) + t == ['$', '{'] + (name + (['}'] + t))
  {
    Assoc(['$', '{'], name + ['}'], t);
    Assoc(name, ['}'], t);
  }

  lemma NextHoleOfPlaceholder(name: string, t: string)
    requires Nameable(name)
    ensures NextHole(Placeholder(name) + t) == Some(Hole([], name, t))
  {
    PlaceholderParts(name, t);
    HoleAtName(name, t);
    OpensAtOnce(name + (['}'] + t));
  }

  lemma OpensAtOnce(rest: string)
    ensures NextHole(['$', '{'] + rest) == HoleAt([], rest)
  {
    var s := ['$', '{'] + rest;
    assert OpenIndex(s) == 0 && s[..0] == [] && s[2..] == rest;
  }

  /** `${name}` followed by text without a placeholder. */
  lemma OnePassOfOneHole(name: string, v: string, t: string, r: Resolver)
    requires Nameable(name) && r(name) == Some(v) && NextHole(t).None?
    ensures Clean(Placeholder(name) + t) && OnePass(Placeholder(name) + t, r) == Ok(v + t)
  {
    NextHoleOfPlaceholder(name, t);
    assert [] + v == v;
  }

  /** What can follow a value that is not inert, so that the value becomes part of a placeholder. */
  function Lure(v: string): string {
    if OpenIndex(v) < |v| then ['}'] else ['{', '}']
  }

  lemma LureMakesHole(v: string)
    requires !Inert(v)
    ensures NextHole(v + Lure(v)).Some? && NextHole(Lure(v)).None?
  {
    var i := if OpenIndex(v) < |v| then OpenIndex(v) else |v| - 1;
    var s := v + Lure(v);
    HasHole(s, i, |s| - 1);
  }

  /** A clean template on which the loop does not do what one pass does. */
  lemma ValueIsLookedInto(name: string, v: string, r: Resolver) returns (s: string)
    requires Nameable(name) && r(name) == Some(v) && !Inert(v)
    ensures Clean(s) && !ExpandsTo(s, r, OnePass(s, r))
  {
    s := Placeholder(name) + Lure(v);
    LureMakesHole(v);
    OnePassOfOneHole(name, v, Lure(v), r);
    NotTheResult(s, r, v + Lure(v));
  }

  /** On every clean template the loop ends and equals one pass from left to right, down to the name that is
      reported missing, if and only if every value is inert. */
  lemma ExpansionIsOnePass(r: Resolver)
    ensures ValuesInert(r) <==> forall s | Clean(s) :: ExpandsTo(s, r, OnePass(s, r))
  {
    if ValuesInert(r) {
      forall s | Clean(s) ensures ExpandsTo(s, r, OnePass(s, r)) {
        InertValuesGiveOnePass(s, r, |s|);
      }
    } else {
      var name :| Nameable(name) && r(name).Some? && !Inert(r(name).value);
      var s := ValueIsLookedInto(name, r(name).value, r);
    }
  }

  lemma HoleSurvivesPrefix(p: string, t: string)
    requires NextHole(t).Some?
    ensures NextHole(p + t).Some?
  {
    var i, j := HoleParts(t);
    var s := p + t;
    assert s[|p| + i] == t[i] && s[|p| + i + 1] == t[i + 1] && s[|p| + j] == t[j];
    HasHole(s, |p| + i, |p| + j);
  }

  /** The resolver that knows every name, as `{}`. */
  function Braces(): Resolver {
    (name: string) => Some(['{', '}'])
  }

  lemma BracesAreInert()
    ensures ValuesInert(Braces())
  {
  }

  lemma {:induction false} BracesAreLookedInto(s: string)
    ensures OnePass(s, Braces()).Ok?
    ensures !Clean(s) ==> NextHole(OnePass(s, Braces()).value).Some?
    decreases |s|
  {
    if NextHole(s).Some? {
      var h := NextHole(s).value;
      BracesAreLookedInto(h.post);
      var p, rest := h.pre + ['{', '}'], OnePass(h.post, Braces()).value;
      if EndsWithDollar(h.pre) {
        var text := p + rest;
        assert text[|h.pre| - 1] == '$' && text[|h.pre|] == '{' && text[|h.pre| + 1] == '}';
        HasHole(text, |h.pre| - 1, |h.pre| + 1);
      } else if !Clean(s) {
        HoleSurvivesPrefix(p, rest);
      }
    }
  }

  /** Template by template: expansion is one pass for all inert values if and only if no placeholder of the
      template has a `$` directly before it. */
  lemma TemplateIsOnePassExactlyIfClean(s: string)
    ensures (forall r: Resolver | ValuesInert(r) :: ExpandsTo(s, r, OnePass(s, r))) <==> Clean(s)
  {
    if Clean(s) {
      forall r: Resolver | ValuesInert(r) ensures ExpandsTo(s, r, OnePass(s, r)) {
        InertValuesGiveOnePass(s, r, |s|);
      }
    } else {
      BracesAreLookedInto(s);
      NotTheResult(s, Braces(), OnePass(s, Braces()).value);
      BracesAreInert();
    }
  }

  // ----- the two resolvers -----

  datatype GenContext = GenContext(jwtSub: string, jwtScope: string, toolName: string, timestamp: string, jwtToken: string)

  function LookupKey(keyring: map<string, string>, name: string): Option<string> {
    if name in keyring then Some(keyring[name]) else None
  }

  /** The five context variables come first; any other name is looked up in the keyring. */
  function LookupVariable(ctx: GenContext, keyring: map<string, string>, name: string): Option<string> {
    if name == "JWT_SUB" then Some(ctx.jwtSub)
    else if name == "JWT_SCOPE" then Some(ctx.jwtScope)
    else if name == "TOOL_NAME" then Some(ctx.toolName)
    else if name == "TIMESTAMP" then Some(ctx.timestamp)
    else if name == "JWT_TOKEN" then Some(ctx.jwtToken)
    else LookupKey(keyring, name)
  }

  function Variables(ctx: GenContext, keyring: map<string, string>): Resolver {
    name => LookupVariable(ctx, keyring, name)
  }

  function Keys(keyring: map<string, string>): Resolver {
    name => LookupKey(keyring, name)
  }

  method ExpandVariables(input: string, ctx: GenContext, keyring: map<string, string>) returns (result: Result<string, string>)
    requires Halts(input, Variables(ctx, keyring))
    ensures ExpandsTo(input, Variables(ctx, keyring), result)
  {
    result := Expand(input, Variables(ctx, keyring));
  }

  method ResolveEnvValue(value: string, keyring: map<string, string>) returns (result: Result<string, string>)
    requires Halts(value, Keys(keyring))
    ensures ExpandsTo(value, Keys(keyring), result)
  {
    result := Expand(value, Keys(keyring));
  }

  /** Context and keyring values without `$`: expansion always ends, and on clean templates it is one pass. */
  lemma PlainValuesExpandInOnePass(ctx: GenContext, keyring: map<string, string>, input: string)
    requires '$' !in ctx.jwtSub + ctx.jwtScope + ctx.toolName + ctx.timestamp + ctx.jwtToken
    requires forall k | k in keyring :: '$' !in keyring[k]
    ensures Halts(input, Variables(ctx, keyring))
    ensures Clean(input) ==> ExpandsTo(input, Variables(ctx, keyring), OnePass(input, Variables(ctx, keyring)))
  {
    var r := Variables(ctx, keyring);
    forall name | r(name).Some? ensures '$' !in r(name).value {
      VariableIsPlain(ctx, keyring, name);
    }
    HaltsByDollars(input, r);
    if Clean(input) {
      forall name | Nameable(name) && r(name).Some? ensures Inert(r(name).value) {
        NoDollarIsInert(r(name).value);
      }
      InertValuesGiveOnePass(input, r, |input|);
    }
  }

  lemma VariableIsPlain(ctx: GenContext, keyring: map<string, string>, name: string)
    requires '$' !in ctx.jwtSub + ctx.jwtScope + ctx.toolName + ctx.timestamp + ctx.jwtToken
    requires forall k | k in keyring :: '$' !in keyring[k]
    ensures LookupVariable(ctx, keyring, name).Some? ==> '$' !in LookupVariable(ctx, keyring, name).value
  {
  }

  lemma {:induction false} NoDollarIsInert(s: string)
    requires '$' !in s
    ensures Inert(s)
  {
    if s != [] {
      NoDollarIsInert(s[1..]);
      assert s[0] != '$';
    }
  }

  // ----- what stands in the place of a name -----

  lemma NoDollarIsDone(s: string, r: Resolver)
    requires '$' !in s
    ensures Rewrite(s, r) == Done && ExpandsTo(s, r, Ok(s))
  {
    NoDollarIsInert(s);
    assert HaltsIn(s, r, 0) && ExpandIn(s, r, 0) == Ok(s);
  }

  lemma OneName(name: string, post: string, r: Resolver)
    requires Nameable(name) && '$' !in post
    ensures r(name).None? ==> ExpandsTo(Placeholder(name) + post, r, Err(name))
    ensures r(name).Some? && '$' !in r(name).value ==> ExpandsTo(Placeholder(name) + post, r, Ok(r(name).value + post))
  {
    var s := Placeholder(name) + post;
    NextHoleOfPlaceholder(name, post);
    if r(name).None? {
      assert HaltsIn(s, r, 0) && ExpandIn(s, r, 0) == Err(name);
    } else if '$' !in r(name).value {
      var next := r(name).value + post;
      NoDollarIsDone(next, r);
      assert [] + next == next;
      assert Rewrite(s, r) == Continue(next);
      assert HaltsIn(s, r, 1) && ExpandIn(s, r, 1) == Ok(next);
    }
  }

  lemma BehindText(pre: string, t: string, r: Resolver, result: Result<string, string>)
    requires '$' !in pre && ExpandsTo(t, r, result)
    ensures ExpandsTo(pre + t, r, Prepend(pre, result))
  {
    var n: nat :| HaltsIn(t, r, n) && ExpandIn(t, r, n) == result;
    NoDollarIsInert(pre);
    InertPrefixStays(pre, t, r, n);
  }

  /** A name between dollar-free texts is replaced by its value, or is the error if it has none. */
  lemma NameIsReplaced(pre: string, name: string, post: string, r: Resolver)
    requires '$' !in pre && '}' !in name && '$' !in post
    requires r(name).Some? ==> '$' !in r(name).value
    ensures ExpandsTo(pre + ("${" + (name + "}") + post), r,
                      if r(name).Some? then Ok(pre + (r(name).value + post)) else Err(name))
  {
    OneName(name, post, r);
    assert "${" + (name + "}") == Placeholder(name);
    BehindText(pre, Placeholder(name) + post, r, if r(name).Some? then Ok(r(name).value + post) else Err(name));
  }

  /** Each of the five context variables stands for its own field, whatever the keyring holds. */
  lemma ContextIsInserted(ctx: GenContext, keyring: map<string, string>, pre: string, post: string)
    requires '$' !in pre && '$' !in post
    requires '$' !in ctx.jwtSub + ctx.jwtScope + ctx.toolName + ctx.timestamp + ctx.jwtToken
    ensures ExpandsTo(pre + ("${JWT_SUB}" + post), Variables(ctx, keyring), Ok(pre + (ctx.jwtSub + post)))
    ensures ExpandsTo(pre + ("${JWT_SCOPE}" + post), Variables(ctx, keyring), Ok(pre + (ctx.jwtScope + post)))
    ensures ExpandsTo(pre + ("${TOOL_NAME}" + post), Variables(ctx, keyring), Ok(pre + (ctx.toolName + post)))
    ensures ExpandsTo(pre + ("${TIMESTAMP}" + post), Variables(ctx, keyring), Ok(pre + (ctx.timestamp + post)))
    ensures ExpandsTo(pre + ("${JWT_TOKEN}" + post), Variables(ctx, keyring), Ok(pre + (ctx.jwtToken + post)))
  {
    var r := Variables(ctx, keyring);
    ContextValues(ctx, keyring);
    ContextPlaceholders();
    NameIsReplaced(pre, "JWT_SUB", post, r);
    NameIsReplaced(pre, "JWT_SCOPE", post, r);
    NameIsReplaced(pre, "TOOL_NAME", post, r);
    NameIsReplaced(pre, "TIMESTAMP", post, r);
    NameIsReplaced(pre, "JWT_TOKEN", post, r);
  }

  /** Every other name stands for its keyring value, or is missing. */
  lemma KeyIsInserted(ctx: GenContext, keyring: map<string, string>, pre: string, name: string, post: string)
    requires '$' !in pre && '}' !in name && '$' !in post && (name in keyring ==> '$' !in keyring[name])
    requires name != "JWT_SUB" && name != "JWT_SCOPE" && name != "TOOL_NAME" && name != "TIMESTAMP" && name != "JWT_TOKEN"
    ensures ExpandsTo(pre + ("${" + (name + "}") + post), Variables(ctx, keyring),
                      if name in keyring then Ok(pre + (keyring[name] + post)) else Err(name))
  {
    NameIsReplaced(pre, name, post, Variables(ctx, keyring));
  }

  /** The keyring alone: the five names mean nothing special. */
  lemma KeyAloneIsInserted(keyring: map<string, string>, pre: string, name: string, post: string)
    requires '$' !in pre && '}' !in name && '$' !in post && (name in keyring ==> '$' !in keyring[name])
    ensures ExpandsTo(pre + ("${" + (name + "}") + post), Keys(keyring),
                      if name in keyring then Ok(pre + (keyring[name] + post)) else Err(name))
  {
    NameIsReplaced(pre, name, post, Keys(keyring));
  }

  lemma ContextValues(ctx: GenContext, keyring: map<string, string>)
    ensures LookupVariable(ctx, keyring, "JWT_SUB") == Some(ctx.jwtSub)
    ensures LookupVariable(ctx, keyring, "JWT_SCOPE") == Some(ctx.jwtScope)
    ensures LookupVariable(ctx, keyring, "TOOL_NAME") == Some(ctx.toolName)
    ensures LookupVariable(ctx, keyring, "TIMESTAMP") == Some(ctx.timestamp)
    ensures LookupVariable(ctx, keyring, "JWT_TOKEN") == Some(ctx.jwtToken)
  {
    assert |"JWT_SUB"| == 7 && |"JWT_SCOPE"| == |"TOOL_NAME"| == |"TIMESTAMP"| == |"JWT_TOKEN"| == 9;
    assert "JWT_SCOPE"[4] == 'S' && "JWT_TOKEN"[4] == 'T' && "TOOL_NAME"[4] == '_' && "TIMESTAMP"[4] == 'S';
    assert "TIMESTAMP"[0] == 'T' && "JWT_SCOPE"[0] == 'J';
  }

  lemma ContextPlaceholders()
    ensures "${JWT_SUB}" == "${" + ("JWT_SUB" + "}") && "${JWT_SCOPE}" == "${" + ("JWT_SCOPE" + "}")
    ensures "${TOOL_NAME}" == "${" + ("TOOL_NAME" + "}") && "${TIMESTAMP}" == "${" + ("TIMESTAMP" + "}")
    ensures "${JWT_TOKEN}" == "${" + ("JWT_TOKEN" + "}")
  {
  }

  /** A text in which no `${` has a `}` behind it is left as it is. */
  lemma NoPlaceholderIsUnchanged(s: string, r: Resolver)
    requires forall i, j | 0 <= i && i + 2 <= j < |s| :: !(s[i] == '$' && s[i + 1] == '{' && s[j] == '}')
    ensures ExpandsTo(s, r, Ok(s))
  {
    if NextHole(s).Some? {
      var i, j := HoleParts(s);
    }
    assert HaltsIn(s, r, 0) && ExpandIn(s, r, 0) == Ok(s);
  }
}
