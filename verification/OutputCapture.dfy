/**
 Output capture of CLI providers: the paths an agent passes for output are swapped for temp paths.  A named
 flag captures its value (`--flag value` or `--flag=value`); a positional rule captures one of the remaining
 arguments.
 */
module OutputCapture {
  import opened Base

  function LowerAscii(c: char): char {
    if 'A' <= c <= 'Z' then c - 'A' + 'a' else c
  }

  predicate EqIgnoreAsciiCase(a: string, b: string) {
    |a| == |b| && forall i | 0 <= i < |a| :: LowerAscii(a[i]) == LowerAscii(b[i])
  }

  /** Only the case of ASCII letters is ignored. */
  lemma CaseIsIgnored(a: string, b: string)
    ensures EqIgnoreAsciiCase(a, b) <==>
              && |a| == |b|
              && forall i | 0 <= i < |a| ::
                   || a[i] == b[i] || ('A' <= a[i] <= 'Z' && b[i] as int == a[i] as int + 32)
                   || ('A' <= b[i] <= 'Z' && a[i] as int == b[i] as int + 32)
  {
  }

  predicate IsFlag(flags: seq<string>, s: string) {
    exists i | 0 <= i < |flags| :: EqIgnoreAsciiCase(flags[i], s)
  }

  /** The position of the first `=`, or the length if there is none. */
  function EqIndex(s: string): (n: nat)
    ensures n <= |s|
    ensures n < |s| ==> s[n] == '='
    ensures forall i | 0 <= i < n :: s[i] != '='
  {
    if s == [] || s[0] == '=' then 0 else 1 + EqIndex(s[1..])
  }

  predicate InlineFlag(flags: seq<string>, s: string) {
    EqIndex(s) < |s| && IsFlag(flags, s[..EqIndex(s)])
  }

  /** How an argument reads to the scan for named flags: as a flag whose value is the next argument, as
      `flag=value`, or as neither. */
  datatype Kind = Plain | Flag | FlagWithValue(flag: string)

  function KindOf(flags: seq<string>, arg: string): Kind {
    if InlineFlag(flags, arg) then FlagWithValue(arg[..EqIndex(arg)]) else if IsFlag(flags, arg) then Flag else Plain
  }

  /** The three readings, in terms of the configured flags alone. */
  lemma KindInWords(flags: seq<string>, arg: string, eq: nat)
    requires eq < |arg| && arg[eq] == '=' && forall i | 0 <= i < eq :: arg[i] != '='
    ensures KindOf(flags, arg).FlagWithValue? <==> exists f | f in flags :: EqIgnoreAsciiCase(f, arg[..eq])
    ensures KindOf(flags, arg).FlagWithValue? ==> KindOf(flags, arg).flag == arg[..eq]
    ensures KindOf(flags, arg).Flag? <==>
              !KindOf(flags, arg).FlagWithValue? && exists f | f in flags :: EqIgnoreAsciiCase(f, arg)
  {
    assert EqIndex(arg) == eq;
    FlagIsListed(flags, arg[..eq]);
    FlagIsListed(flags, arg);
  }

  lemma KindWithoutEquals(flags: seq<string>, arg: string)
    requires '=' !in arg
    ensures !KindOf(flags, arg).FlagWithValue?
    ensures KindOf(flags, arg).Flag? <==> exists f | f in flags :: EqIgnoreAsciiCase(f, arg)
  {
    FlagIsListed(flags, arg);
  }

  lemma FlagIsListed(flags: seq<string>, s: string)
    ensures IsFlag(flags, s) <==> exists f | f in flags :: EqIgnoreAsciiCase(f, s)
  {
    if f :| f in flags && EqIgnoreAsciiCase(f, s) {
      var i :| 0 <= i < |flags| && flags[i] == f;
      assert EqIgnoreAsciiCase(flags[i], s);
    }
  }

  function Kinds(flags: seq<string>, args: seq<string>): (kinds: seq<Kind>)
    ensures |kinds| == |args|
  {
    if args == [] then [] else Kinds(flags, args[..|args| - 1]) + [KindOf(flags, args[|args| - 1])]
  }

  lemma {:induction false} KindsAt(flags: seq<string>, args: seq<string>, j: nat)
    requires j < |args|
    ensures Kinds(flags, args)[j] == KindOf(flags, args[j])
  {
    if j < |args| - 1 {
      KindsAt(flags, args[..|args| - 1], j);
    }
  }

  // ----- which arguments a named flag claims, decided at the argument itself -----

  /** Argument `j` is the value of a flag just before it; a value is not itself read as a flag. */
  predicate Taken(kinds: seq<Kind>, j: nat)
    requires j <= |kinds|
  {
    j > 0 && !Taken(kinds, j - 1) && kinds[j - 1].Flag?
  }

  /** The arguments from `i` up to `j` are all flags, and the one before them is none. */
  predicate FlagRow(kinds: seq<Kind>, i: nat, j: nat) {
    i <= j <= |kinds| && (i > 0 ==> !kinds[i - 1].Flag?) && forall k | i <= k < j :: kinds[k].Flag?
  }

  /** Of a row of flags every second is the value of the one before it, and so is what stands behind an odd row. */
  lemma {:induction false} TakenBehindOddRow(kinds: seq<Kind>, i: nat, j: nat)
    requires FlagRow(kinds, i, j)
    ensures Taken(kinds, j) <==> (j - i) % 2 == 1
    decreases j
  {
    if i < j {
      TakenBehindOddRow(kinds, i, j - 1);
    }
  }

  /** Argument `j` holds a captured value, all of it or what follows `flag=`. */
  predicate HoldsValue(kinds: seq<Kind>, j: nat)
    requires j < |kinds|
  {
    Taken(kinds, j) || kinds[j].FlagWithValue?
  }

  /** Argument `j` holds a captured value or is the flag before one. */
  predicate Claimed(kinds: seq<Kind>, j: nat)
    requires j < |kinds|
  {
    HoldsValue(kinds, j) || (j + 1 < |kinds| && Taken(kinds, j + 1))
  }

  /** A slot of the argument list that holds an output path: all of an argument, or what follows `flag=`. */
  datatype Slot = Whole(index: nat) | Inline(index: nat, flag: string)

  datatype Captured = Captured(original: string, temp: string)

  predicate Fits(slot: Slot, args: seq<string>) {
    && slot.index < |args|
    && (slot.Inline? ==> slot.flag + "=" <= args[slot.index])
  }

  function Original(slot: Slot, args: seq<string>): string
    requires Fits(slot, args)
  {
    if slot.Whole? then args[slot.index] else args[slot.index][|slot.flag| + 1..]
  }

  function Written(slot: Slot, path: string): string {
    if slot.Whole? then path else slot.flag + "=" + path
  }

  predicate AllFit(slots: seq<Slot>, args: seq<string>) {
    slots == [] || (AllFit(slots[..|slots| - 1], args) && Fits(slots[|slots| - 1], args))
  }

  predicate InSlots(slots: seq<Slot>, j: nat) {
    slots != [] && (slots[|slots| - 1].index == j || InSlots(slots[..|slots| - 1], j))
  }

  /** No argument has two slots. */
  predicate Separate(slots: seq<Slot>) {
    slots == [] || (Separate(slots[..|slots| - 1]) && !InSlots(slots[..|slots| - 1], slots[|slots| - 1].index))
  }

  lemma SlotsSnoc(slots: seq<Slot>, slot: Slot, args: seq<string>)
    ensures (slots + [slot])[..|slots|] == slots
    ensures AllFit(slots + [slot], args) <==> AllFit(slots, args) && Fits(slot, args)
    ensures Separate(slots + [slot]) <==> Separate(slots) && !InSlots(slots, slot.index)
  {
    assert (slots + [slot])[..|slots|] == slots;
  }

  lemma InSlotsSnoc(slots: seq<Slot>, slot: Slot, j: nat)
    ensures InSlots(slots + [slot], j) <==> InSlots(slots, j) || slot.index == j
  {
    assert (slots + [slot])[..|slots|] == slots;
  }

  /** The slots that named flags claim among the first `n` arguments, from left to right. */
  function NamedSlots(kinds: seq<Kind>, n: nat): seq<Slot>
    requires n <= |kinds|
  {
    if n == 0 then []
    else if Taken(kinds, n - 1) then NamedSlots(kinds, n - 1) + [Whole(n - 1)]
    else if kinds[n - 1].FlagWithValue? then NamedSlots(kinds, n - 1) + [Inline(n - 1, kinds[n - 1].flag)]
    else NamedSlots(kinds, n - 1)
  }

  // ----- positional rules -----

  function WordLength(s: string): (n: nat)
    ensures n <= |s|
    ensures s != [] && !IsSpace(s[0]) ==> n > 0
  {
    if s == [] || IsSpace(s[0]) then 0 else 1 + WordLength(s[1..])
  }

  /** `s.split_whitespace()` */
  function SplitWhitespace(s: string): seq<string>
    decreases |s|
  {
    if s == [] then []
    else if IsSpace(s[0]) then SplitWhitespace(s[1..])
    else [s[..WordLength(s)]] + SplitWhitespace(s[WordLength(s)..])
  }

  predicate Word(w: string) {
    w != "" && forall c | c in w :: !IsSpace(c)
  }

  lemma {:induction false} WordLengthOf(w: string, rest: string)
    requires (forall c | c in w :: !IsSpace(c)) && (rest == [] || IsSpace(rest[0]))
    ensures WordLength(w + rest) == |w|
  {
    if w == [] {
      assert w + rest == rest;
    } else {
      assert (w + rest)[1..] == w[1..] + rest;
      WordLengthOf(w[1..], rest);
    }
  }

  /** How a prefix is split: white space separates, and any amount of it counts as one separator. */
  lemma SplitsAtSpace(w: string, space: char, rest: string)
    requires Word(w) && IsSpace(space)
    ensures SplitWhitespace("") == [] && SplitWhitespace(w) == [w]
    ensures SplitWhitespace([space] + rest) == SplitWhitespace(rest)
    ensures SplitWhitespace(w + ([space] + rest)) == [w] + SplitWhitespace([space] + rest)
  {
    assert ([space] + rest)[1..] == rest;
    WordLengthOf(w, []);
    assert w + [] == w && w[..|w|] == w && w[|w|..] == [];
    var s := w + ([space] + rest);
    WordLengthOf(w, [space] + rest);
    assert w[0] in w && s[0] == w[0];
    TakeBehind(w, [space] + rest, 0);
    DropBehind(w, [space] + rest, 0);
    assert s[..|w|] == w && s[|w|..] == [space] + rest;
  }

  /** A configured subcommand prefix and the index, after it, of the argument to capture. */
  datatype Rule = Rule(prefix: string, index: nat)

  function Tokens(rule: Rule): seq<string> {
    SplitWhitespace(rule.prefix)
  }

  predicate Matches(rule: Rule, words: seq<string>) {
    Tokens(rule) != [] && |words| >= |Tokens(rule)| + rule.index + 1 && Tokens(rule) <= words
  }

  /** A rule matches if its words come first and there is an argument at its index behind them. */
  lemma MatchesInWords(rule: Rule, words: seq<string>)
    ensures var tokens := SplitWhitespace(rule.prefix);
            Matches(rule, words) <==>
              && tokens != [] && |words| > |tokens| + rule.index
              && forall i | 0 <= i < |tokens| :: words[i] == tokens[i]
  {
    var tokens := SplitWhitespace(rule.prefix);
    if tokens != [] && |words| > |tokens| + rule.index {
      assert tokens <= words <==> words[..|tokens|] == tokens;
    }
  }

  /** The target that the rules choose, tried in the given order: token count of the prefix and its index. */
  datatype Target = Target(count: nat, index: nat)

  function Best(rules: seq<Rule>, words: seq<string>): Option<Target> {
    if rules == [] then None
    else
      var best, rule := Best(rules[..|rules| - 1], words), rules[|rules| - 1];
      if Matches(rule, words) && (best.None? || |Tokens(rule)| > best.value.count)
      then Some(Target(|Tokens(rule)|, rule.index)) else best
  }

  /** Rule `k` matches, no matching rule has a longer prefix, and no earlier one has a prefix as long. */
  ghost predicate Wins(rules: seq<Rule>, words: seq<string>, k: nat) {
    && k < |rules| && Matches(rules[k], words)
    && (forall j | 0 <= j < |rules| && Matches(rules[j], words) :: |Tokens(rules[j])| <= |Tokens(rules[k])|)
    && (forall j | 0 <= j < k && Matches(rules[j], words) :: |Tokens(rules[j])| < |Tokens(rules[k])|)
  }

  /** The chosen target is that of the longest matching prefix, the first one tried among equals. */
  lemma {:induction false} BestWins(rules: seq<Rule>, words: seq<string>) returns (k: nat)
    ensures Best(rules, words).None? ==> forall j | 0 <= j < |rules| :: !Matches(rules[j], words)
    ensures Best(rules, words).Some? ==>
              && Wins(rules, words, k)
              && Best(rules, words).value == Target(|Tokens(rules[k])|, rules[k].index)
              && Best(rules, words).value.count + rules[k].index < |words|
  {
    k := 0;
    if rules != [] {
      var n := |rules| - 1;
      k := BestWins(rules[..n], words);
      if Matches(rules[n], words) && (Best(rules[..n], words).None? || |Tokens(rules[n])| > Best(rules[..n], words).value.count) {
        k := n;
      }
      forall j | 0 <= j < n ensures rules[..n][j] == rules[j] {}
    }
  }

  predicate IsLongest(rules: seq<Rule>, words: seq<string>, rule: Rule) {
    && rule in rules && Matches(rule, words)
    && forall r | r in rules && Matches(r, words) :: |Tokens(r)| <= |Tokens(rule)|
  }

  /** All rules with the longest matching prefix capture the same argument. */
  ghost predicate LongestAgree(rules: seq<Rule>, words: seq<string>) {
    forall a, b | IsLongest(rules, words, a) && IsLongest(rules, words, b) :: a.index == b.index
  }

  lemma BestIsLongest(rules: seq<Rule>, words: seq<string>) returns (rule: Rule)
    ensures Best(rules, words).None? <==> forall r | r in rules :: !Matches(r, words)
    ensures Best(rules, words).Some? ==>
              IsLongest(rules, words, rule) && Best(rules, words).value == Target(|Tokens(rule)|, rule.index)
  {
    var k := BestWins(rules, words);
    rule := if Best(rules, words).Some? then rules[k] else Rule("", 0);
  }

  lemma SameElements<T>(a: seq<T>, b: seq<T>)
    requires multiset(a) == multiset(b)
    ensures forall x :: x in a <==> x in b
  {
    forall x ensures x in a <==> x in b {
      assert x in multiset(a) <==> x in multiset(b);
    }
  }

  /** If the longest matches agree, the choice does not depend on the order in which the rules come. */
  lemma OrderIrrelevant(rules: seq<Rule>, other: seq<Rule>, words: seq<string>)
    requires multiset(rules) == multiset(other) && LongestAgree(rules, words)
    ensures Best(rules, words) == Best(other, words)
  {
    SameElements(rules, other);
    SameBest(rules, other, words);
  }

  lemma SameBest(rules: seq<Rule>, other: seq<Rule>, words: seq<string>)
    requires (forall r :: r in rules <==> r in other) && LongestAgree(rules, words)
    ensures Best(rules, words) == Best(other, words)
  {
    var a := BestIsLongest(rules, words);
    var b := BestIsLongest(other, words);
    if Best(rules, words).Some? {
      assert IsLongest(rules, words, b);
    }
  }

  /** If they disagree, two orders choose differently. */
  lemma OrderMatters(rules: seq<Rule>, words: seq<string>) returns (one: seq<Rule>, two: seq<Rule>)
    requires !LongestAgree(rules, words)
    ensures multiset(one) == multiset(rules) == multiset(two)
    ensures Best(one, words) != Best(two, words)
  {
    var a, b :| IsLongest(rules, words, a) && IsLongest(rules, words, b) && a.index != b.index;
    one := MoveFirst(rules, a);
    two := MoveFirst(rules, b);
    LongestFirstWins(rules, one, words, a);
    LongestFirstWins(rules, two, words, b);
  }

  lemma MoveFirst(rules: seq<Rule>, rule: Rule) returns (moved: seq<Rule>)
    requires rule in rules
    ensures multiset(moved) == multiset(rules) && moved != [] && moved[0] == rule
  {
    var k :| 0 <= k < |rules| && rules[k] == rule;
    moved := [rule] + rules[..k] + rules[k + 1..];
    assert rules == rules[..k] + [rule] + rules[k + 1..];
  }

  lemma LongestFirstWins(rules: seq<Rule>, moved: seq<Rule>, words: seq<string>, rule: Rule)
    requires multiset(moved) == multiset(rules) && moved != [] && moved[0] == rule && IsLongest(rules, words, rule)
    ensures Best(moved, words) == Some(Target(|Tokens(rule)|, rule.index))
  {
    forall r ensures r in rules <==> r in moved {
      assert r in multiset(rules) <==> r in multiset(moved);
    }
    var k := BestWins(moved, words);
    assert Matches(moved[0], words);
  }

  /** Rules whose prefixes split into different tokens never disagree, whatever the arguments. */
  lemma DistinctPrefixesAgree(rules: seq<Rule>, words: seq<string>)
    requires forall a, b | a in rules && b in rules && Tokens(a) == Tokens(b) :: a.index == b.index
    ensures LongestAgree(rules, words)
  {
    forall a, b | IsLongest(rules, words, a) && IsLongest(rules, words, b)
      ensures a.index == b.index
    {
      assert Tokens(a) == words[..|Tokens(a)|] == Tokens(b);
    }
  }

  // ----- the rewriting -----

  /** The arguments a positional rule counts: not claimed by a named flag and not starting with `-`. */
  predicate Counts(kinds: seq<Kind>, args: seq<string>, j: nat)
    requires |kinds| == |args| && j < |args|
  {
    !Claimed(kinds, j) && !("-" <= args[j])
  }

  function Positionals(kinds: seq<Kind>, args: seq<string>, n: nat): (js: seq<nat>)
    requires |kinds| == |args| && n <= |args|
    ensures forall k | 0 <= k < |js| :: js[k] < n && Counts(kinds, args, js[k])
  {
    if n == 0 then []
    else Positionals(kinds, args, n - 1) + if Counts(kinds, args, n - 1) then [n - 1] else []
  }

  function Words(args: seq<string>, js: seq<nat>): (words: seq<string>)
    requires forall k | 0 <= k < |js| :: js[k] < |args|
    ensures |words| == |js| && forall k | 0 <= k < |js| :: words[k] == args[js[k]]
  {
    if js == [] then [] else Words(args, js[..|js| - 1]) + [args[js[|js| - 1]]]
  }

  /** The argument that the positional rules choose to capture, if any. */
  function PositionalTarget(kinds: seq<Kind>, rules: seq<Rule>, args: seq<string>): (j: Option<nat>)
    requires |kinds| == |args|
    ensures j.Some? ==> j.value < |args| && Counts(kinds, args, j.value)
  {
    var js := Positionals(kinds, args, |args|);
    var best := Best(rules, Words(args, js));
    if best.Some? && best.value.count + best.value.index < |js|
    then Some(js[best.value.count + best.value.index]) else None
  }

  /** The arguments before `n` that a positional rule counts. */
  function Counted(kinds: seq<Kind>, args: seq<string>, n: nat): set<nat>
    requires |kinds| == |args| && n <= |args|
  {
    set j: nat | 0 <= j < n && Counts(kinds, args, j)
  }

  lemma CountedNext(kinds: seq<Kind>, args: seq<string>, n: nat)
    requires |kinds| == |args| && n < |args|
    ensures |Counted(kinds, args, n + 1)| == |Counted(kinds, args, n)| + if Counts(kinds, args, n) then 1 else 0
  {
    assert Counted(kinds, args, n + 1) == Counted(kinds, args, n) + if Counts(kinds, args, n) then {n} else {};
  }

  /** The k-th positional is the counted argument with k others before it. */
  lemma {:induction false} PositionalAt(kinds: seq<Kind>, args: seq<string>, n: nat, j: nat)
    requires |kinds| == |args| && n <= |args|
    ensures |Positionals(kinds, args, n)| == |Counted(kinds, args, n)|
    ensures j < n && Counts(kinds, args, j) ==>
              |Counted(kinds, args, j)| < |Positionals(kinds, args, n)| && Positionals(kinds, args, n)[|Counted(kinds, args, j)|] == j
  {
    if n > 0 {
      PositionalAt(kinds, args, n - 1, j);
      CountedNext(kinds, args, n - 1);
    }
  }

  lemma {:induction false} CountedBefore(kinds: seq<Kind>, args: seq<string>, n: nat, k: nat)
    requires |kinds| == |args| && n <= |args| && k < |Positionals(kinds, args, n)|
    ensures |Counted(kinds, args, Positionals(kinds, args, n)[k])| == k
  {
    PositionalAt(kinds, args, n - 1, 0);
    CountedNext(kinds, args, n - 1);
    if k < |Positionals(kinds, args, n - 1)| {
      CountedBefore(kinds, args, n - 1, k);
    }
  }

  lemma IsPositional(kinds: seq<Kind>, args: seq<string>, j: nat, k: nat)
    requires |kinds| == |args| && k < |Positionals(kinds, args, |args|)|
    ensures Positionals(kinds, args, |args|)[k] == j <==>
              && j < |args| && !HoldsValue(kinds, j) && (j + 1 < |args| ==> !Taken(kinds, j + 1))
              && (args[j] == "" || args[j][0] != '-') && |Counted(kinds, args, j)| == k
  {
    CountedBefore(kinds, args, |args|, k);
    if j < |args| {
      PositionalAt(kinds, args, |args|, j);
      assert Counts(kinds, args, j) <==> !Claimed(kinds, j) && (args[j] == "" || args[j][0] != '-');
    }
  }

  /** The positional target is the argument that the winning rule points at: so many counted arguments stand before
      it as the rule has words, and its index more. */
  lemma TargetExactly(kinds: seq<Kind>, rules: seq<Rule>, args: seq<string>, j: nat) returns (k: nat)
    requires |kinds| == |args|
    ensures var words := Words(args, Positionals(kinds, args, |args|));
            && (PositionalTarget(kinds, rules, args).None? <==> forall r | r in rules :: !Matches(r, words))
            && (PositionalTarget(kinds, rules, args).Some? ==> Wins(rules, words, k))
            && (PositionalTarget(kinds, rules, args) == Some(j) <==>
                  && PositionalTarget(kinds, rules, args).Some? && j < |args|
                  && !HoldsValue(kinds, j) && (j + 1 < |args| ==> !Taken(kinds, j + 1)) && (args[j] == "" || args[j][0] != '-')
                  && |Counted(kinds, args, j)| == |Tokens(rules[k])| + rules[k].index)
  {
    var words := Words(args, Positionals(kinds, args, |args|));
    k := BestWins(rules, words);
    var rule := BestIsLongest(rules, words);
    if Best(rules, words).Some? {
      IsPositional(kinds, args, j, |Tokens(rules[k])| + rules[k].index);
    }
  }

  /** Every slot to rewrite: those of the named flags, then at most one positional. */
  function SlotsOf(kinds: seq<Kind>, rules: seq<Rule>, args: seq<string>): seq<Slot>
    requires |kinds| == |args|
  {
    var j := PositionalTarget(kinds, rules, args);
    if j.Some? then NamedSlots(kinds, |args|) + [Whole(j.value)] else NamedSlots(kinds, |args|)
  }

  function Slots(flags: seq<string>, rules: seq<Rule>, args: seq<string>): seq<Slot> {
    SlotsOf(Kinds(flags, args), rules, args)
  }

  lemma {:induction false} NamedSlotsClaim(kinds: seq<Kind>, n: nat, j: nat)
    requires n <= |kinds|
    ensures InSlots(NamedSlots(kinds, n), j) <==> j < n && HoldsValue(kinds, j)
  {
    if n > 0 {
      NamedSlotsClaim(kinds, n - 1, j);
      var front := NamedSlots(kinds, n - 1);
      if Taken(kinds, n - 1) {
        InSlotsSnoc(front, Whole(n - 1), j);
      } else if kinds[n - 1].FlagWithValue? {
        InSlotsSnoc(front, Inline(n - 1, kinds[n - 1].flag), j);
      }
    }
  }

  /** An argument read as `flag=value` does start with that flag and `=`. */
  predicate Reads(kinds: seq<Kind>, args: seq<string>) {
    |kinds| == |args| && forall j | 0 <= j < |args| && kinds[j].FlagWithValue? :: Fits(Inline(j, kinds[j].flag), args)
  }

  lemma KindReads(flags: seq<string>, args: seq<string>, j: nat)
    requires j < |args|
    ensures Kinds(flags, args)[j].FlagWithValue? <==> InlineFlag(flags, args[j])
    ensures Kinds(flags, args)[j].Flag? <==> !InlineFlag(flags, args[j]) && IsFlag(flags, args[j])
    ensures InlineFlag(flags, args[j]) ==>
              var flag := args[j][..EqIndex(args[j])];
              Kinds(flags, args)[j].flag == flag && Fits(Inline(j, flag), args)
  {
    KindsAt(flags, args, j);
    if InlineFlag(flags, args[j]) {
      var eq := EqIndex(args[j]);
      assert args[j][..eq] + "=" == args[j][..eq + 1];
    }
  }

  lemma KindsRead(flags: seq<string>, args: seq<string>)
    ensures Reads(Kinds(flags, args), args)
  {
    forall j | 0 <= j < |args| {
      KindReads(flags, args, j);
    }
  }

  lemma {:induction false} NamedSlotsFit(kinds: seq<Kind>, args: seq<string>, n: nat)
    requires Reads(kinds, args) && n <= |args|
    ensures AllFit(NamedSlots(kinds, n), args) && Separate(NamedSlots(kinds, n))
  {
    if n > 0 {
      NamedSlotsFit(kinds, args, n - 1);
      NamedSlotsClaim(kinds, n - 1, n - 1);
      var front := NamedSlots(kinds, n - 1);
      if Taken(kinds, n - 1) {
        SlotsSnoc(front, Whole(n - 1), args);
      } else if kinds[n - 1].FlagWithValue? {
        SlotsSnoc(front, Inline(n - 1, kinds[n - 1].flag), args);
      }
    }
  }

  /** No argument has two slots; those of the named flags are exactly the values that flags claim; the
      positional target is claimed by no flag and is not itself a flag. */
  lemma SlotsAreSound(flags: seq<string>, rules: seq<Rule>, args: seq<string>)
    ensures AllFit(Slots(flags, rules, args), args) && Separate(Slots(flags, rules, args))
    ensures var kinds := Kinds(flags, args);
            forall j | 0 <= j < |args| ::
              InSlots(Slots(flags, rules, args), j) <==>
                HoldsValue(kinds, j) || PositionalTarget(kinds, rules, args) == Some(j)
    ensures var kinds := Kinds(flags, args);
            forall j | 0 <= j < |args| && PositionalTarget(kinds, rules, args) == Some(j) ::
              !Claimed(kinds, j) && !("-" <= args[j])
  {
    var kinds := Kinds(flags, args);
    KindsRead(flags, args);
    NamedSlotsFit(kinds, args, |args|);
    var target := PositionalTarget(kinds, rules, args);
    if target.Some? {
      NamedSlotsClaim(kinds, |args|, target.value);
      SlotsSnoc(NamedSlots(kinds, |args|), Whole(target.value), args);
    }
    forall j | 0 <= j < |args|
      ensures InSlots(SlotsOf(kinds, rules, args), j) <==> HoldsValue(kinds, j) || target == Some(j)
    {
      NamedSlotsClaim(kinds, |args|, j);
      if target.Some? {
        InSlotsSnoc(NamedSlots(kinds, |args|), Whole(target.value), j);
      }
    }
  }

  /** The k-th slot is captured with the k-th temp path that is made, `temp(k, path)`. */
  function CapturesOf(slots: seq<Slot>, args: seq<string>, temp: (nat, string) -> string): (captures: seq<Captured>)
    requires AllFit(slots, args)
    ensures |captures| == |slots|
  {
    if slots == [] then []
    else
      var n := |slots| - 1;
      CapturesOf(slots[..n], args, temp) + [Captured(Original(slots[n], args), temp(n, Original(slots[n], args)))]
  }

  function Rewrite(args: seq<string>, slots: seq<Slot>, captures: seq<Captured>): (out: seq<string>)
    requires |slots| == |captures| && AllFit(slots, args)
    ensures |out| == |args|
  {
    if slots == [] then args
    else
      var n := |slots| - 1;
      Rewrite(args, slots[..n], captures[..n])[slots[n].index := Written(slots[n], captures[n].temp)]
  }

  lemma {:induction false} UnslottedIsUnchanged(args: seq<string>, slots: seq<Slot>, captures: seq<Captured>, j: nat)
    requires |slots| == |captures| && AllFit(slots, args) && j < |args| && !InSlots(slots, j)
    ensures Rewrite(args, slots, captures)[j] == args[j]
  {
    if slots != [] {
      UnslottedIsUnchanged(args, slots[..|slots| - 1], captures[..|slots| - 1], j);
    }
  }

  lemma {:induction false} SlotIsIn(slots: seq<Slot>, k: nat)
    requires k < |slots|
    ensures InSlots(slots, slots[k].index)
  {
    if k < |slots| - 1 {
      SlotIsIn(slots[..|slots| - 1], k);
    }
  }

  /** The k-th capture belongs to the k-th slot: it has the original path of that slot and the k-th temp path,
      which the rewritten argument holds. */
  lemma {:induction false} CaptureMatchesSlot(args: seq<string>, slots: seq<Slot>, temp: (nat, string) -> string, k: nat)
    requires AllFit(slots, args) && Separate(slots) && k < |slots|
    ensures slots[k].index < |args| && Fits(slots[k], args)
    ensures var captures := CapturesOf(slots, args, temp);
            && captures[k] == Captured(Original(slots[k], args), temp(k, Original(slots[k], args)))
            && Rewrite(args, slots, captures)[slots[k].index] == Written(slots[k], captures[k].temp)
  {
    var n := |slots| - 1;
    if k < n {
      CaptureMatchesSlot(args, slots[..n], temp, k);
      SlotIsIn(slots[..n], k);
      var captures := CapturesOf(slots, args, temp);
      assert captures[..n] == CapturesOf(slots[..n], args, temp);
    }
  }

  lemma {:induction false} NamedSlotAt(kinds: seq<Kind>, n: nat, j: nat) returns (k: nat)
    requires j < n <= |kinds| && HoldsValue(kinds, j)
    ensures k < |NamedSlots(kinds, n)|
    ensures NamedSlots(kinds, n)[k] == if Taken(kinds, j) then Whole(j) else Inline(j, kinds[j].flag)
  {
    if j == n - 1 {
      k := |NamedSlots(kinds, n - 1)|;
    } else {
      k := NamedSlotAt(kinds, n - 1, j);
    }
  }

  lemma NamedSlotIsCaptured(flags: seq<string>, rules: seq<Rule>, args: seq<string>, temp: (nat, string) -> string, j: nat,
                            slot: Slot) returns (k: nat)
    requires j < |args| && HoldsValue(Kinds(flags, args), j)
    requires slot == if Taken(Kinds(flags, args), j) then Whole(j) else Inline(j, Kinds(flags, args)[j].flag)
    ensures AllFit(Slots(flags, rules, args), args) && Fits(slot, args)
    ensures var captures := CapturesOf(Slots(flags, rules, args), args, temp);
            && k < |captures| && captures[k] == Captured(Original(slot, args), temp(k, Original(slot, args)))
            && Rewrite(args, Slots(flags, rules, args), captures)[j] == Written(slot, temp(k, Original(slot, args)))
  {
    SlotsAreSound(flags, rules, args);
    k := NamedSlotAt(Kinds(flags, args), |args|, j);
    assert Slots(flags, rules, args)[k] == slot;
    CaptureMatchesSlot(args, Slots(flags, rules, args), temp, k);
  }

  /** The argument behind a flag is captured, and gives way to its temp path. */
  lemma NextArgumentIsCaptured(flags: seq<string>, rules: seq<Rule>, args: seq<string>, temp: (nat, string) -> string, j: nat)
    returns (k: nat)
    requires j < |args| && Taken(Kinds(flags, args), j)
    ensures AllFit(Slots(flags, rules, args), args)
    ensures var captures := CapturesOf(Slots(flags, rules, args), args, temp);
            && k < |captures| && captures[k] == Captured(args[j], temp(k, args[j]))
            && Rewrite(args, Slots(flags, rules, args), captures)[j] == temp(k, args[j])
  {
    k := NamedSlotIsCaptured(flags, rules, args, temp, j, Whole(j));
  }

  /** Of `flag=value` the value is captured, and gives way to its temp path behind `flag=`. */
  lemma InlineValueIsCaptured(flags: seq<string>, rules: seq<Rule>, args: seq<string>, temp: (nat, string) -> string, j: nat,
                              flag: string, value: string) returns (k: nat)
    requires j < |args| && !Taken(Kinds(flags, args), j) && KindOf(flags, args[j]) == FlagWithValue(flag)
    requires args[j] == flag + ("=" + value)
    ensures AllFit(Slots(flags, rules, args), args)
    ensures var captures := CapturesOf(Slots(flags, rules, args), args, temp);
            && k < |captures| && captures[k] == Captured(value, temp(k, value))
            && Rewrite(args, Slots(flags, rules, args), captures)[j] == flag + "=" + temp(k, value)
  {
    KindsAt(flags, args, j);
    DropBehind(flag, "=" + value, 1);
    k := NamedSlotIsCaptured(flags, rules, args, temp, j, Inline(j, flag));
  }

  /** Puts the original paths back where they came from, the last capture first. */
  function Restore(out: seq<string>, slots: seq<Slot>, captures: seq<Captured>): seq<string>
    decreases |slots|
  {
    if slots == [] || |slots| != |captures| || slots[|slots| - 1].index >= |out| then out
    else
      var n := |slots| - 1;
      Restore(out[slots[n].index := Written(slots[n], captures[n].original)], slots[..n], captures[..n])
  }

  lemma CapturesOfFront(slots: seq<Slot>, args: seq<string>, temp: (nat, string) -> string)
    requires slots != [] && AllFit(slots, args)
    ensures var n := |slots| - 1; CapturesOf(slots, args, temp)[..n] == CapturesOf(slots[..n], args, temp)
  {
  }

  lemma LastIsUndone(args: seq<string>, slots: seq<Slot>, captures: seq<Captured>)
    requires slots != [] && |slots| == |captures| && AllFit(slots, args) && Separate(slots)
    ensures var n := |slots| - 1;
            Rewrite(args, slots, captures)[slots[n].index := args[slots[n].index]] == Rewrite(args, slots[..n], captures[..n])
  {
    var n := |slots| - 1;
    UnslottedIsUnchanged(args, slots[..n], captures[..n], slots[n].index);
  }

  lemma WrittenOriginal(slot: Slot, args: seq<string>)
    requires Fits(slot, args)
    ensures Written(slot, Original(slot, args)) == args[slot.index]
  {
  }

  /** Restoring undoes rewriting, whatever the temp paths are. */
  lemma {:induction false} RestoreUndoesRewrite(args: seq<string>, slots: seq<Slot>, temp: (nat, string) -> string)
    requires AllFit(slots, args) && Separate(slots)
    ensures var captures := CapturesOf(slots, args, temp);
            Restore(Rewrite(args, slots, captures), slots, captures) == args
  {
    if slots != [] {
      var n := |slots| - 1;
      RestoreUndoesRewrite(args, slots[..n], temp);
      CapturesOfFront(slots, args, temp);
      LastIsUndone(args, slots, CapturesOf(slots, args, temp));
      WrittenOriginal(slots[n], args);
    }
  }

  lemma RewriteSnoc(args: seq<string>, slots: seq<Slot>, slot: Slot, temp: (nat, string) -> string)
    requires AllFit(slots, args) && Fits(slot, args)
    ensures AllFit(slots + [slot], args)
    ensures var captures := CapturesOf(slots, args, temp);
            var c := Captured(Original(slot, args), temp(|slots|, Original(slot, args)));
            && CapturesOf(slots + [slot], args, temp) == captures + [c]
            && Rewrite(args, slots + [slot], captures + [c])
               == Rewrite(args, slots, captures)[slot.index := Written(slot, c.temp)]
  {
    SlotsSnoc(slots, slot, args);
    var captures := CapturesOf(slots, args, temp);
    var c := Captured(Original(slot, args), temp(|slots|, Original(slot, args)));
    assert (captures + [c])[..|slots|] == captures;
  }

  // ----- the scan -----

  function ClaimedBelow(kinds: seq<Kind>, n: nat): set<nat>
    requires n <= |kinds|
  {
    if n == 0 then {}
    else ClaimedBelow(kinds, n - 1) + if Claimed(kinds, n - 1) then {n - 1} else {}
  }

  lemma {:induction false} ClaimedBelowMember(kinds: seq<Kind>, n: nat, j: nat)
    requires n <= |kinds|
    ensures j in ClaimedBelow(kinds, n) <==> j < n && Claimed(kinds, j)
  {
    if n > 0 {
      ClaimedBelowMember(kinds, n - 1, j);
    }
  }

  /** What the scan has produced so far. */
  datatype Scan = Scan(rewritten: seq<string>, captures: seq<Captured>, consumed: set<nat>)

  /** The state of the scan at position `i`, which is not a flag's value. */
  ghost predicate Scanned(kinds: seq<Kind>, args: seq<string>, temp: (nat, string) -> string, i: nat, scan: Scan) {
    && i <= |args| && |kinds| == |args|
    && !(i < |args| && Taken(kinds, i))
    && AllFit(NamedSlots(kinds, i), args)
    && scan.captures == CapturesOf(NamedSlots(kinds, i), args, temp)
    && scan.rewritten == Rewrite(args, NamedSlots(kinds, i), scan.captures)
    && scan.consumed == ClaimedBelow(kinds, i)
  }

  lemma ScannedInline(kinds: seq<Kind>, args: seq<string>, temp: (nat, string) -> string, i: nat, scan: Scan,
                      flag: string, original: string)
    requires Scanned(kinds, args, temp, i, scan) && i < |args|
    requires kinds[i] == FlagWithValue(flag) && Fits(Inline(i, flag), args) && original == args[i][|flag| + 1..]
    ensures var path := temp(|scan.captures|, original);
            Scanned(kinds, args, temp, i + 1,
                    Scan(scan.rewritten[i := flag + "=" + path], scan.captures + [Captured(original, path)], scan.consumed + {i}))
  {
    RewriteSnoc(args, NamedSlots(kinds, i), Inline(i, flag), temp);
  }

  lemma ScannedValue(kinds: seq<Kind>, args: seq<string>, temp: (nat, string) -> string, i: nat, scan: Scan)
    requires Scanned(kinds, args, temp, i, scan) && i + 1 < |args| && kinds[i].Flag?
    ensures var path := temp(|scan.captures|, args[i + 1]);
            Scanned(kinds, args, temp, i + 2,
                    Scan(scan.rewritten[i + 1 := path], scan.captures + [Captured(args[i + 1], path)], scan.consumed + {i, i + 1}))
  {
    assert Taken(kinds, i + 1) && NamedSlots(kinds, i + 1) == NamedSlots(kinds, i);
    RewriteSnoc(args, NamedSlots(kinds, i), Whole(i + 1), temp);
    assert scan.consumed + {i, i + 1} == scan.consumed + {i} + {i + 1};
  }

  lemma ScannedOther(kinds: seq<Kind>, args: seq<string>, temp: (nat, string) -> string, i: nat, scan: Scan)
    requires Scanned(kinds, args, temp, i, scan) && i < |args|
    requires kinds[i].Plain? || (kinds[i].Flag? && i + 1 == |args|)
    ensures Scanned(kinds, args, temp, i + 1, scan)
  {
    assert !Claimed(kinds, i);
  }

  lemma UnscannedIsUnchanged(kinds: seq<Kind>, args: seq<string>, temp: (nat, string) -> string, i: nat, scan: Scan)
    requires Scanned(kinds, args, temp, i, scan)
    ensures |scan.rewritten| == |args|
    ensures forall j | 0 <= j < |args| && (i <= j || j !in scan.consumed) :: scan.rewritten[j] == args[j]
  {
    forall j | 0 <= j < |args| && (i <= j || j !in scan.consumed) ensures scan.rewritten[j] == args[j] {
      ClaimedBelowMember(kinds, i, j);
      NamedSlotsClaim(kinds, i, j);
      UnslottedIsUnchanged(args, NamedSlots(kinds, i), scan.captures, j);
    }
  }

  /** One iteration of the scan: `temp(k, path)` is the k-th temp path that is made. */
  method ScanArgument(flags: seq<string>, ghost args: seq<string>, temp: (nat, string) -> string, i: nat, scan: Scan)
    returns (scan': Scan, i': nat)
    requires Scanned(Kinds(flags, args), args, temp, i, scan) && i < |args|
    ensures Scanned(Kinds(flags, args), args, temp, i', scan') && i < i'
  {
    UnscannedIsUnchanged(Kinds(flags, args), args, temp, i, scan);
    KindReads(flags, args, i);
    var arg := scan.rewritten[i];
    var eq := EqIndex(arg);
    if eq < |arg| && IsFlag(flags, arg[..eq]) {
      var original := arg[eq + 1..];
      var path := temp(|scan.captures|, original);
      scan' := Scan(scan.rewritten[i := arg[..eq] + "=" + path], scan.captures + [Captured(original, path)],
                    scan.consumed + {i});
      i' := i + 1;
      ScannedInline(Kinds(flags, args), args, temp, i, scan, arg[..eq], original);
    } else if IsFlag(flags, arg) && i + 1 < |scan.rewritten| {
      var original := scan.rewritten[i + 1];
      var path := temp(|scan.captures|, original);
      scan' := Scan(scan.rewritten[i + 1 := path], scan.captures + [Captured(original, path)], scan.consumed + {i, i + 1});
      i' := i + 2;
      ScannedValue(Kinds(flags, args), args, temp, i, scan);
    } else {
      scan', i' := scan, i + 1;
      ScannedOther(Kinds(flags, args), args, temp, i, scan);
    }
  }

  /** The scan over the arguments for named flags. */
  method RewriteNamedFlags(flags: seq<string>, args: seq<string>, temp: (nat, string) -> string) returns (scan: Scan)
    ensures Scanned(Kinds(flags, args), args, temp, |args|, scan)
  {
    scan := Scan(args, [], {});
    var i: nat := 0;
    while i < |args|
      invariant i <= |args|
      invariant Scanned(Kinds(flags, args), args, temp, i, scan)
    {
      scan, i := ScanArgument(flags, args, temp, i, scan);
    }
  }

  lemma PositionalsNext(kinds: seq<Kind>, args: seq<string>, j: nat)
    requires |kinds| == |args| && j < |args|
    ensures var js := Positionals(kinds, args, j);
            Positionals(kinds, args, j + 1) == if Counts(kinds, args, j) then js + [j] else js
  {
  }

  lemma WordsNext(args: seq<string>, js: seq<nat>, j: nat)
    requires j < |args| && forall k | 0 <= k < |js| :: js[k] < |args|
    ensures Words(args, js + [j]) == Words(args, js) + [args[j]]
  {
    assert (js + [j])[..|js|] == js;
  }

  lemma CountsInRewritten(kinds: seq<Kind>, args: seq<string>, rewritten: seq<string>, consumed: set<nat>, j: nat)
    requires |rewritten| == |args| == |kinds| && consumed == ClaimedBelow(kinds, |kinds|) && j < |args|
    requires j !in consumed ==> rewritten[j] == args[j]
    ensures Counts(kinds, args, j) <==> j !in consumed && !("-" <= rewritten[j])
  {
    ClaimedBelowMember(kinds, |kinds|, j);
  }

  /** The non-flag arguments that no named flag claimed, in the rewritten list. */
  method CollectPositionals(ghost kinds: seq<Kind>, ghost args: seq<string>, rewritten: seq<string>, consumed: set<nat>)
    returns (js: seq<nat>, words: seq<string>)
    requires |rewritten| == |args| == |kinds| && consumed == ClaimedBelow(kinds, |kinds|)
    requires forall j | 0 <= j < |args| && j !in consumed :: rewritten[j] == args[j]
    ensures js == Positionals(kinds, args, |args|) && words == Words(args, js)
  {
    js, words := [], [];
    for j := 0 to |rewritten|
      invariant js == Positionals(kinds, args, j) && words == Words(args, js)
    {
      CountsInRewritten(kinds, args, rewritten, consumed, j);
      PositionalsNext(kinds, args, j);
      if j !in consumed && !("-" <= rewritten[j]) {
        WordsNext(args, js, j);
        js, words := js + [j], words + [rewritten[j]];
      }
    }
  }

  method ChooseTarget(rules: seq<Rule>, words: seq<string>) returns (best: Option<Target>)
    ensures best == Best(rules, words)
  {
    best := None;
    for n := 0 to |rules|
      invariant best == Best(rules[..n], words)
    {
      var tokens := SplitWhitespace(rules[n].prefix);
      assert rules[..n + 1][..n] == rules[..n];
      if tokens == [] || |words| < |tokens| + rules[n].index + 1 {
        continue;
      }
      if !(tokens <= words) {
        continue;
      }
      if best.None? || |tokens| > best.value.count {
        best := Some(Target(|tokens|, rules[n].index));
      }
    }
    assert rules[..|rules|] == rules;
  }

  lemma TargetIsLastSlot(kinds: seq<Kind>, rules: seq<Rule>, args: seq<string>, temp: (nat, string) -> string, j: nat,
                         scan: Scan)
    requires Scanned(kinds, args, temp, |args|, scan)
    requires PositionalTarget(kinds, rules, args) == Some(j)
    ensures var slots := SlotsOf(kinds, rules, args);
            var path := temp(|scan.captures|, args[j]);
            && AllFit(slots, args)
            && scan.captures + [Captured(args[j], path)] == CapturesOf(slots, args, temp)
            && scan.rewritten[j := path] == Rewrite(args, slots, scan.captures + [Captured(args[j], path)])
  {
    RewriteSnoc(args, NamedSlots(kinds, |args|), Whole(j), temp);
  }

  /** The positional rule, after the scan. */
  method RewritePositional(ghost kinds: seq<Kind>, ghost args: seq<string>, rules: seq<Rule>,
                           temp: (nat, string) -> string, scan: Scan)
    returns (rewritten: seq<string>, captures: seq<Captured>)
    requires Scanned(kinds, args, temp, |args|, scan)
    ensures var slots := SlotsOf(kinds, rules, args);
            && AllFit(slots, args)
            && captures == CapturesOf(slots, args, temp)
            && rewritten == Rewrite(args, slots, captures)
  {
    rewritten, captures := scan.rewritten, scan.captures;
    UnscannedIsUnchanged(kinds, args, temp, |args|, scan);
    var js, words := CollectPositionals(kinds, args, rewritten, scan.consumed);
    var best := ChooseTarget(rules, words);
    if best.Some? && best.value.count + best.value.index < |js| {
      var target := js[best.value.count + best.value.index];
      var original := words[best.value.count + best.value.index];
      var path := temp(|captures|, original);
      assert PositionalTarget(kinds, rules, args) == Some(target);
      TargetIsLastSlot(kinds, rules, args, temp, target, scan);
      rewritten := rewritten[target := path];
      captures := captures + [Captured(original, path)];
    }
  }

  /** Both rules together: every slot is captured and rewritten once, and the capture list can undo it. */
  method ApplyOutputCaptures(flags: seq<string>, rules: seq<Rule>, args: seq<string>, temp: (nat, string) -> string)
    returns (rewritten: seq<string>, captures: seq<Captured>)
    ensures AllFit(Slots(flags, rules, args), args)
    ensures captures == CapturesOf(Slots(flags, rules, args), args, temp)
    ensures rewritten == Rewrite(args, Slots(flags, rules, args), captures)
    ensures |rewritten| == |args| && |captures| == |Slots(flags, rules, args)|
    ensures Restore(rewritten, Slots(flags, rules, args), captures) == args
  {
    var scan := RewriteNamedFlags(flags, args, temp);
    rewritten, captures := RewritePositional(Kinds(flags, args), args, rules, temp, scan);
    SlotsAreSound(flags, rules, args);
    RestoreUndoesRewrite(args, Slots(flags, rules, args), temp);
  }
}
