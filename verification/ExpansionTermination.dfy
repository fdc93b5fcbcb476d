/**
 When the rescanning expansion ends.  A name that is reached from its own value keeps the loop going for ever;
 for values that are well-formed templates there is no other way not to end.
 */
module ExpansionTermination {
  import opened Base
  import opened Expansion
  import opened References
  import opened Rewriting

  /** A value that names itself behind an inert text: no number of replacements is enough, whatever follows. */
  lemma {:induction false} SelfReferenceDiverges(name: string, a: string, b: string, t: string, r: Resolver, n: nat)
    requires Nameable(name) && Inert(a) && r(name) == Some(a + (Placeholder(name) + b))
    ensures !HaltsIn(Placeholder(name) + t, r, n)
    decreases n
  {
    var s, next := Placeholder(name) + t, Placeholder(name) + (b + t);
    NextHoleOfPlaceholder(name, t);
    Assoc(a, Placeholder(name) + b, t);
    Assoc(Placeholder(name), b, t);
    assert [] + (a + next) == a + next;
    assert Rewrite(s, r) == Continue(a + next);
    if n > 0 {
      SelfReferenceDiverges(name, a, b, b + t, r, n - 1);
      InertPrefixHalts(a, next, r, n - 1);
    }
  }

  // ----- well-formed values -----

  /** Every `${` is closed and has no `$` directly before it, and there is no `$` at the end. */
  predicate WellFormed(v: string)
    decreases |v|
  {
    match NextHole(v)
    case None => Inert(v)
    case Some(h) => Inert(h.pre) && WellFormed(h.post)
  }

  ghost predicate ValuesWellFormed(r: Resolver) {
    forall name | Nameable(name) && r(name).Some? :: WellFormed(r(name).value)
  }

  lemma {:induction false} WellFormedIsClean(v: string)
    requires WellFormed(v)
    ensures Clean(v)
    decreases |v|
  {
    if NextHole(v).Some? {
      WellFormedIsClean(NextHole(v).value.post);
    }
  }

  lemma {:induction false} OpenIndexExtends(w: string, t: string)
    requires OpenIndex(w) < |w|
    ensures OpenIndex(w + t) == OpenIndex(w)
  {
    if !Opens(w) {
      assert (w + t)[1..] == w[1..] + t;
      OpenIndexExtends(w[1..], t);
    }
  }

  lemma {:induction false} CloseIndexExtends(w: string, t: string)
    requires CloseIndex(w) < |w|
    ensures CloseIndex(w + t) == CloseIndex(w)
  {
    if w[0] != '}' {
      assert (w + t)[1..] == w[1..] + t;
      CloseIndexExtends(w[1..], t);
    }
  }

  lemma HoleAtExtends(pre: string, rest: string, t: string)
    requires HoleAt(pre, rest).Some?
    ensures HoleAt(pre, rest + t) == Some(HoleAt(pre, rest).value.(post := HoleAt(pre, rest).value.post + t))
  {
    CloseIndexExtends(rest, t);
    var j := CloseIndex(rest);
    TakeInside(rest, t, j);
    DropInside(rest, t, j + 1);
  }

  lemma CutAt(w: string, t: string, i: nat)
    requires i + 2 <= |w| && OpenIndex(w + t) == i
    ensures NextHole(w + t) == HoleAt(w[..i], w[i + 2..] + t)
  {
    TakeInside(w, t, i);
    DropInside(w, t, i + 2);
    NextHoleCut(w + t, i, w[..i], w[i + 2..] + t);
  }

  /** Text behind a placeholder does not change it. */
  lemma NextHoleExtends(w: string, t: string)
    requires NextHole(w).Some?
    ensures NextHole(w + t) == Some(NextHole(w).value.(post := NextHole(w).value.post + t))
  {
    var i := OpenIndex(w);
    OpenIndexExtends(w, t);
    CutAt(w, t, i);
    HoleAtExtends(w[..i], w[i + 2..], t);
  }

  lemma RewriteExtends(w: string, t: string, r: Resolver)
    requires NextHole(w).Some?
    ensures Rewrite(w + t, r) == match Rewrite(w, r)
                                 case Done => Done
                                 case Missing(name) => Missing(name)
                                 case Continue(next) => Continue(next + t)
  {
    NextHoleExtends(w, t);
    var h := NextHole(w).value;
    if r(h.name).Some? {
      Assoc(r(h.name).value, h.post, t);
      Assoc(h.pre, r(h.name).value + h.post, t);
    }
  }

  lemma WellFormedAfterInert(p: string, t: string)
    requires Inert(p) && WellFormed(t)
    ensures WellFormed(p + t)
  {
    NextHoleAfterInert(p, t);
    InertPlusInert(p, if NextHole(t).Some? then NextHole(t).value.pre else t);
  }

  lemma {:induction false} WellFormedConcat(a: string, b: string)
    requires WellFormed(a) && WellFormed(b)
    ensures WellFormed(a + b)
    decreases |a|
  {
    if NextHole(a).Some? {
      NextHoleExtends(a, b);
      WellFormedConcat(NextHole(a).value.post, b);
    } else {
      WellFormedAfterInert(a, b);
    }
  }

  lemma WellFormedNext(w: string, r: Resolver)
    requires WellFormed(w) && ValuesWellFormed(r) && Rewrite(w, r).Continue?
    ensures WellFormed(Rewrite(w, r).next)
  {
    var h := NextHole(w).value;
    WellFormedConcat(r(h.name).value, h.post);
    WellFormedAfterInert(h.pre, r(h.name).value + h.post);
  }

  // ----- the loop as a rewriting -----

  function Rewriter(r: Resolver): Stepper {
    s => Rewrite(s, r)
  }

  lemma RewriterExtends(r: Resolver)
    ensures Extends(Rewriter(r))
  {
    forall w, t ensures ExtendsTo(Rewriter(r), w, t) {
      if NextHole(w).Some? {
        RewriteExtends(w, t, r);
      }
    }
  }

  lemma InertPasses(p: string, r: Resolver)
    requires Inert(p)
    ensures Passes(Rewriter(r), p)
  {
    forall t ensures PassesTo(Rewriter(r), p, t) {
      RewriteAfterInert(p, t, r);
    }
  }

  lemma WellFormedStep(w: string, r: Resolver)
    requires ValuesWellFormed(r)
    ensures GoodStep(Rewriter(r), WellFormed, w)
  {
    if WellFormed(w) {
      if Rewrite(w, r).Continue? {
        WellFormedNext(w, r);
      } else if Rewrite(w, r).Done? {
        InertPasses(w, r);
      }
    }
  }

  lemma WellFormedIsClosed(r: Resolver)
    requires ValuesWellFormed(r)
    ensures Closed(Rewriter(r), WellFormed)
  {
    forall w ensures GoodStep(Rewriter(r), WellFormed, w) {
      WellFormedStep(w, r);
    }
  }

  ghost predicate ExpandsOk(s: string, r: Resolver) {
    exists n: nat :: HaltsIn(s, r, n) && ExpandIn(s, r, n).Ok?
  }

  /** The loop halts exactly if its rewriting ends one way or the other. */
  lemma {:induction false} EndsIsResult(s: string, r: Resolver, n: nat)
    ensures HaltsIn(s, r, n) <==> EndsAs(s, Rewriter(r), n, true) || EndsAs(s, Rewriter(r), n, false)
    ensures HaltsIn(s, r, n) ==> EndsAs(s, Rewriter(r), n, ExpandIn(s, r, n).Ok?) && !EndsAs(s, Rewriter(r), n, ExpandIn(s, r, n).Err?)
    decreases n
  {
    if Rewrite(s, r).Continue? && n > 0 {
      EndsIsResult(Rewrite(s, r).next, r, n - 1);
    }
  }

  // ----- the names in a text -----

  function HolesOf(s: string): Names
    decreases |s|
  {
    match NextHole(s)
    case None => Nil
    case Some(h) => Cons(h.name, HolesOf(h.post))
  }

  lemma {:induction false} HolesAreNameable(s: string, b: string)
    requires Occurs(HolesOf(s), b)
    ensures Nameable(b)
    decreases |s|
  {
    var h := NextHole(s).value;
    if h.name != b {
      HolesAreNameable(h.post, b);
    }
  }

  /** What the values of a resolver refer to. */
  function UsesOf(r: Resolver): Uses {
    name => if r(name).Some? then Some(HolesOf(r(name).value)) else None
  }

  /** Everything the proofs below need to know about the first placeholder of a text. */
  ghost predicate FirstHole(s: string, r: Resolver, step: Stepper, pre: string, name: string, post: string) {
    && HolesOf(s) == Cons(name, HolesOf(post)) && |post| < |s| && Clean(post) && Passes(step, pre)
    && if r(name).None? then step(s) == Missing(name)
       else Inserts(step, s, pre, r(name).value, post) && WellFormed(r(name).value) && Clean(r(name).value)
  }

  ghost predicate Understood(s: string, r: Resolver, step: Stepper) {
    Clean(s) ==>
      (HolesOf(s) == Nil && step(s) == Done) || exists pre, name, post :: FirstHole(s, r, step, pre, name, post)
  }

  ghost predicate Understands(r: Resolver, step: Stepper) {
    forall s :: Understood(s, r, step)
  }

  lemma FindHole(s: string, r: Resolver) returns (pre: string, name: string, post: string)
    requires Clean(s) && ValuesWellFormed(r) && NextHole(s).Some?
    ensures FirstHole(s, r, Rewriter(r), pre, name, post)
  {
    var h := NextHole(s).value;
    pre, name, post := h.pre, h.name, h.post;
    PreIsInert(s);
    InertPasses(pre, r);
    if r(name).Some? {
      WellFormedIsClean(r(name).value);
    }
  }

  lemma RewriterUnderstands(r: Resolver)
    requires ValuesWellFormed(r)
    ensures Understands(r, Rewriter(r))
  {
    forall s ensures Understood(s, r, Rewriter(r)) {
      if Clean(s) && NextHole(s).Some? {
        var pre, name, post := FindHole(s, r);
      }
    }
  }

  /** A verdict that is not `TooDeep`, as the way the loop ends. */
  predicate Nests(s: string, uses: Uses, n: nat, ok: bool) {
    Nesting(HolesOf(s), uses, n) == if ok then Complete else Lacking
  }

  lemma NestsByParts(s: string, r: Resolver, uses: Uses, n: nat, ok: bool, name: string, post: string) returns (first: bool)
    requires uses == UsesOf(r) && HolesOf(s) == Cons(name, HolesOf(post)) && Nests(s, uses, n, ok)
    ensures r(name).None? ==> !ok
    ensures r(name).Some? ==> n > 0 && Nests(r(name).value, uses, n - 1, first)
    ensures r(name).Some? ==> if first then Nests(post, uses, n, ok) else !ok
  {
    first := r(name).Some? && n > 0 && Nesting(HolesOf(r(name).value), uses, n - 1) == Complete;
  }

  /** Where the nesting is bounded, the loop ends, with a result exactly if no name is lacking. */
  lemma {:induction false} NestingEnds(s: string, r: Resolver, step: Stepper, uses: Uses, n: nat, ok: bool) returns (k: nat)
    requires Understands(r, step) && uses == UsesOf(r) && Clean(s)
    requires Extends(step) && Closed(step, WellFormed) && Nests(s, uses, n, ok)
    ensures EndsAs(s, step, k, ok)
    decreases n, |s|, 1
  {
    k := 0;
    assert Understood(s, r, step);
    if HolesOf(s).Cons? {
      var pre, name, post :| FirstHole(s, r, step, pre, name, post);
      var first := NestsByParts(s, r, uses, n, ok, name, post);
      if r(name).Some? {
        k := HoleEnds(s, r, step, uses, n, ok, pre, r(name).value, post, first);
      }
    }
  }

  lemma {:induction false} HoleEnds(s: string, r: Resolver, step: Stepper, uses: Uses, n: nat, ok: bool,
                                    pre: string, v: string, post: string, first: bool) returns (k: nat)
    requires Understands(r, step) && uses == UsesOf(r) && Extends(step) && Closed(step, WellFormed)
    requires Inserts(step, s, pre, v, post) && Passes(step, pre) && WellFormed(v) && Clean(v) && Clean(post) && |post| < |s|
    requires n > 0 && Nests(v, uses, n - 1, first) && if first then Nests(post, uses, n, ok) else !ok
    ensures EndsAs(s, step, k, ok)
    decreases n, |s|, 0
  {
    var m := NestingEnds(v, r, step, uses, n - 1, first);
    var j := 0;
    if first {
      j := NestingEnds(post, r, step, uses, n, ok);
    }
    k := EndsByParts(s, pre, v, post, step, WellFormed, m, j, first, ok);
  }

  /** And where the loop ends, the nesting is no deeper than the number of its replacements. */
  lemma {:induction false} EndsNested(s: string, r: Resolver, step: Stepper, uses: Uses, k: nat, ok: bool)
    requires Understands(r, step) && uses == UsesOf(r) && Clean(s)
    requires Extends(step) && Closed(step, WellFormed) && EndsAs(s, step, k, ok)
    ensures Nests(s, uses, k, ok)
    decreases k, |s|
  {
    assert Understood(s, r, step);
    if HolesOf(s).Cons? {
      var pre, name, post :| FirstHole(s, r, step, pre, name, post);
      if r(name).Some? {
        var v := r(name).value;
        var first := InsertedEnds(s, pre, v, post, step, WellFormed, k, ok);
        EndsNested(v, r, step, uses, k - 1, first);
        if first {
          EndsNested(post, r, step, uses, k, ok);
        }
      }
    }
  }

  /** Template by template, for finitely many well-formed values: the loop ends if and only if the nesting is no deeper
      than the number of names, and it ends with a result if and only if moreover no name is lacking. */
  lemma TemplateEndsExactlyIfNotTooDeep(s: string, r: Resolver, names: set<string>)
    requires Clean(s) && ValuesWellFormed(r) && NamesWithin(UsesOf(r), names)
    ensures Halts(s, r) <==> Nesting(HolesOf(s), UsesOf(r), |names|) != TooDeep
    ensures ExpandsOk(s, r) <==> Nesting(HolesOf(s), UsesOf(r), |names|) == Complete
  {
    RewriterExtends(r);
    WellFormedIsClosed(r);
    RewriterUnderstands(r);
    if Nesting(HolesOf(s), UsesOf(r), |names|) != TooDeep {
      var k := NestingEnds(s, r, Rewriter(r), UsesOf(r), |names|, Nesting(HolesOf(s), UsesOf(r), |names|) == Complete);
      EndsIsResult(s, r, k);
    }
    forall n: nat | HaltsIn(s, r, n)
      ensures Nesting(HolesOf(s), UsesOf(r), |names|) == if ExpandIn(s, r, n).Ok? then Complete else Lacking
    {
      EndsIsResult(s, r, n);
      EndsNested(s, r, Rewriter(r), UsesOf(r), n, ExpandIn(s, r, n).Ok?);
      NamesAreDepthEnough(HolesOf(s), UsesOf(r), n, names, {});
      assert names - {} == names;
    }
  }

  lemma HolesOfPlaceholder(name: string)
    requires Nameable(name)
    ensures Clean(Placeholder(name)) && HolesOf(Placeholder(name)) == Cons(name, Nil)
  {
    NextHoleOfPlaceholder(name, []);
    assert Placeholder(name) + [] == Placeholder(name);
    assert NextHole([]) == None;
  }

  /** A name that reaches itself, over however many others, has a template on which the loop does not end: its own
      placeholder. */
  lemma CycleHasTemplate(p: seq<string>, r: Resolver, names: set<string>)
    requires ValuesWellFormed(r) && NamesWithin(UsesOf(r), names) && IsCycle(p, UsesOf(r), |names|)
    ensures Clean(Placeholder(p[0])) && !Halts(Placeholder(p[0]), r)
  {
    var a := CycleOccurs(p, UsesOf(r), |names|);
    HolesAreNameable(r(a).value, p[0]);
    HolesOfPlaceholder(p[0]);
    CycleHeadIsTooDeep(p, UsesOf(r), |names|, |names|);
    TemplateEndsExactlyIfNotTooDeep(Placeholder(p[0]), r, names);
  }

  /** If the values are well-formed templates and finitely many, the loop ends on every clean template if and
      only if no name reaches itself, over however many other names. */
  lemma LoopEndsExactlyIfAcyclic(r: Resolver, names: set<string>)
    requires ValuesWellFormed(r) && NamesWithin(UsesOf(r), names)
    ensures (forall s | Clean(s) :: Halts(s, r)) <==> Acyclic(UsesOf(r), |names|)
  {
    if Acyclic(UsesOf(r), |names|) {
      forall s | Clean(s) ensures Halts(s, r) {
        NestingIsBoundedExactlyIfAcyclic(UsesOf(r), names);
        TemplateEndsExactlyIfNotTooDeep(s, r, names);
      }
    } else {
      var p: seq<string> :| IsCycle(p, UsesOf(r), |names|);
      CycleHasTemplate(p, r, names);
    }
  }

  const CONTEXT_NAMES := {"JWT_SUB", "JWT_SCOPE", "TOOL_NAME", "TIMESTAMP", "JWT_TOKEN"}

  lemma VariablesWithin(ctx: GenContext, keyring: map<string, string>)
    ensures NamesWithin(UsesOf(Variables(ctx, keyring)), keyring.Keys + CONTEXT_NAMES)
    ensures NamesWithin(UsesOf(Keys(keyring)), keyring.Keys)
  {
  }

  /** Both expansions of the source, over a context and a keyring of any size. */
  lemma KeyringExpansionEndsExactlyIfAcyclic(ctx: GenContext, keyring: map<string, string>)
    ensures var r, names := Variables(ctx, keyring), keyring.Keys + CONTEXT_NAMES;
            ValuesWellFormed(r) ==> ((forall s | Clean(s) :: Halts(s, r)) <==> Acyclic(UsesOf(r), |names|))
    ensures var r := Keys(keyring);
            ValuesWellFormed(r) ==> ((forall s | Clean(s) :: Halts(s, r)) <==> Acyclic(UsesOf(r), |keyring.Keys|))
  {
    VariablesWithin(ctx, keyring);
    if ValuesWellFormed(Variables(ctx, keyring)) {
      LoopEndsExactlyIfAcyclic(Variables(ctx, keyring), keyring.Keys + CONTEXT_NAMES);
    }
    if ValuesWellFormed(Keys(keyring)) {
      LoopEndsExactlyIfAcyclic(Keys(keyring), keyring.Keys);
    }
  }
}
