/**
 Names whose values refer to other names.  How deep the references nest, and when the depth is bounded: exactly if
 no name reaches itself.
 */
module References {
  import opened Base

  /** The names that a text refers to, from left to right. */
  datatype Names = Nil | Cons(head: string, tail: Names)

  /** What the value of a name refers to, if the name has a value. */
  type Uses = string -> Option<Names>

  datatype Verdict = Complete | Lacking | TooDeep

  /** Follows the names from left to right, and those in their values to a depth of `n`, up to the first name without
      a value. */
  function Nesting(ns: Names, uses: Uses, n: nat): Verdict
    decreases n, ns
  {
    match ns
    case Nil => Complete
    case Cons(name, rest) =>
      if uses(name).None? then Lacking
      else if n == 0 then TooDeep
      else if Nesting(uses(name).value, uses, n - 1) == Complete then Nesting(rest, uses, n)
      else Nesting(uses(name).value, uses, n - 1)
  }

  lemma {:induction false} NestingDeeper(ns: Names, uses: Uses, m: nat, n: nat)
    requires Nesting(ns, uses, m) != TooDeep && m <= n
    ensures Nesting(ns, uses, n) == Nesting(ns, uses, m)
    decreases m, ns
  {
    if ns.Cons? && uses(ns.head).Some? {
      NestingDeeper(uses(ns.head).value, uses, m - 1, n - 1);
      if Nesting(uses(ns.head).value, uses, m - 1) == Complete {
        NestingDeeper(ns.tail, uses, m, n);
      }
    }
  }

  lemma SameNesting(ns: Names, uses: Uses, m: nat, n: nat)
    requires Nesting(ns, uses, m) != TooDeep && Nesting(ns, uses, n) != TooDeep
    ensures Nesting(ns, uses, m) == Nesting(ns, uses, n)
  {
    if m <= n {
      NestingDeeper(ns, uses, m, n);
    } else {
      NestingDeeper(ns, uses, n, m);
    }
  }

  // ----- the number of names bounds the nesting -----

  ghost predicate NamesWithin(uses: Uses, names: set<string>) {
    forall name | uses(name).Some? :: name in names
  }

  /** The value of `x` needs a greater depth than the `n - 1` that is left for a value. */
  predicate NeedsMore(x: string, uses: Uses, n: nat) {
    uses(x).Some? && (n > 0 ==> Nesting(uses(x).value, uses, n - 1) == TooDeep)
  }

  ghost predicate Deeper(seen: set<string>, uses: Uses, n: nat) {
    forall x | x in seen :: NeedsMore(x, uses, n)
  }

  lemma NeedsMoreThanLess(x: string, uses: Uses, n: nat, k: nat)
    requires NeedsMore(x, uses, n) && k <= n
    ensures NeedsMore(x, uses, k)
  {
    if k > 0 && Nesting(uses(x).value, uses, k - 1) != TooDeep {
      NestingDeeper(uses(x).value, uses, k - 1, n - 1);
    }
  }

  /** The least depth that is enough for the value of `b`. */
  lemma {:induction false} LeastDepth(b: string, uses: Uses, n: nat) returns (k: nat)
    requires uses(b).Some? && Nesting(uses(b).value, uses, n) != TooDeep
    ensures k <= n && Nesting(uses(b).value, uses, k) == Nesting(uses(b).value, uses, n) && NeedsMore(b, uses, k)
  {
    if n > 0 && Nesting(uses(b).value, uses, n - 1) != TooDeep {
      k := LeastDepth(b, uses, n - 1);
      NestingDeeper(uses(b).value, uses, n - 1, n);
    } else {
      k := n;
    }
  }

  lemma DeeperBelow(seen: set<string>, uses: Uses, n: nat, b: string, k: nat)
    requires Deeper(seen, uses, n) && NeedsMore(b, uses, k) && k <= n
    ensures Deeper(seen + {b}, uses, k)
  {
    forall x | x in seen + {b} ensures NeedsMore(x, uses, k) {
      if x in seen {
        NeedsMoreThanLess(x, uses, n, k);
      }
    }
  }

  lemma OneFewer(names: set<string>, seen: set<string>, b: string)
    requires b in names && b !in seen
    ensures |names - (seen + {b})| == |names - seen| - 1
  {
    assert b in names - seen;
    assert names - (seen + {b}) == names - seen - {b};
  }

  /** A name does not come up inside its own value where the nesting is bounded, so the names still unseen are
      depth enough. */
  lemma {:induction false} NamesAreDepthEnough(ns: Names, uses: Uses, n: nat, names: set<string>, seen: set<string>)
    requires NamesWithin(uses, names) && Deeper(seen, uses, n) && Nesting(ns, uses, n) != TooDeep
    ensures Nesting(ns, uses, |names - seen|) == Nesting(ns, uses, n)
    decreases n, ns
  {
    if ns.Cons? && uses(ns.head).Some? {
      var v := uses(ns.head).value;
      assert ns.head !in seen by {
        assert !NeedsMore(ns.head, uses, n);
      }
      OneFewer(names, seen, ns.head);
      var k := LeastDepth(ns.head, uses, n - 1);
      DeeperBelow(seen, uses, n, ns.head, k);
      NamesAreDepthEnough(v, uses, k, names, seen + {ns.head});
      if Nesting(v, uses, n - 1) == Complete {
        NamesAreDepthEnough(ns.tail, uses, n, names, seen);
      }
    }
  }

  // ----- reached names -----

  /** Following `ns` comes to `b`: all earlier names have complete values. */
  predicate Reached(ns: Names, uses: Uses, depth: nat, b: string)
    decreases ns
  {
    match ns
    case Nil => false
    case Cons(name, rest) =>
      name == b || (uses(name).Some? && Nesting(uses(name).value, uses, depth) == Complete && Reached(rest, uses, depth, b))
  }

  predicate Reaches(uses: Uses, depth: nat, a: string, b: string) {
    uses(a).Some? && Reached(uses(a).value, uses, depth, b)
  }

  /** Each name of the path is reached from the value of the one before it. */
  predicate IsPath(p: seq<string>, uses: Uses, depth: nat) {
    |p| <= 1 || (IsPath(p[..|p| - 1], uses, depth) && Reaches(uses, depth, p[|p| - 2], p[|p| - 1]))
  }

  predicate IsCycle(p: seq<string>, uses: Uses, depth: nat) {
    |p| >= 2 && p[0] == p[|p| - 1] && IsPath(p, uses, depth)
  }

  ghost predicate Acyclic(uses: Uses, depth: nat) {
    forall p: seq<string> :: !IsCycle(p, uses, depth)
  }

  predicate Occurs(ns: Names, b: string) {
    ns.Cons? && (ns.head == b || Occurs(ns.tail, b))
  }

  lemma {:induction false} ReachedOccurs(ns: Names, uses: Uses, depth: nat, b: string)
    requires Reached(ns, uses, depth, b)
    ensures Occurs(ns, b)
    decreases ns
  {
    if ns.head != b {
      ReachedOccurs(ns.tail, uses, depth, b);
    }
  }

  // ----- a cycle is too deep -----

  /** The value of a reached name nests strictly less deep than the text that reaches it. */
  lemma {:induction false} ReachedNestsLess(ns: Names, uses: Uses, depth: nat, b: string, n: nat)
    requires Nesting(ns, uses, n) != TooDeep && Reached(ns, uses, depth, b) && uses(b).Some?
    ensures n >= 1 && Nesting(uses(b).value, uses, n - 1) != TooDeep
    decreases ns
  {
    if ns.head != b {
      SameNesting(uses(ns.head).value, uses, depth, n - 1);
      ReachedNestsLess(ns.tail, uses, depth, b, n);
    }
  }

  lemma {:induction false} PathNestsLess(p: seq<string>, uses: Uses, depth: nat, n: nat)
    requires p != [] && IsPath(p, uses, depth)
    requires uses(p[0]).Some? && uses(p[|p| - 1]).Some? && Nesting(uses(p[0]).value, uses, n) != TooDeep
    ensures n + 1 >= |p| && Nesting(uses(p[|p| - 1]).value, uses, n + 1 - |p|) != TooDeep
  {
    if |p| > 1 {
      PathNestsLess(p[..|p| - 1], uses, depth, n);
      ReachedNestsLess(uses(p[|p| - 2]).value, uses, depth, p[|p| - 1], n + 2 - |p|);
    }
  }

  lemma {:induction false} PathStartsWithValue(p: seq<string>, uses: Uses, depth: nat)
    requires |p| >= 2 && IsPath(p, uses, depth)
    ensures uses(p[0]).Some?
  {
    if |p| > 2 {
      PathStartsWithValue(p[..|p| - 1], uses, depth);
    }
  }

  /** No depth is enough for a name that reaches itself. */
  lemma {:induction false} CycleIsTooDeep(p: seq<string>, uses: Uses, depth: nat, n: nat)
    requires IsCycle(p, uses, depth)
    ensures uses(p[0]).Some? && Nesting(uses(p[0]).value, uses, n) == TooDeep
    decreases n
  {
    PathStartsWithValue(p, uses, depth);
    if Nesting(uses(p[0]).value, uses, n) != TooDeep {
      PathNestsLess(p, uses, depth, n);
      CycleIsTooDeep(p, uses, depth, n + 1 - |p|);
    }
  }

  lemma CycleOccurs(p: seq<string>, uses: Uses, depth: nat) returns (a: string)
    requires IsCycle(p, uses, depth)
    ensures uses(a).Some? && Occurs(uses(a).value, p[0])
  {
    a := p[|p| - 2];
    ReachedOccurs(uses(a).value, uses, depth, p[0]);
  }

  lemma CycleHeadIsTooDeep(p: seq<string>, uses: Uses, depth: nat, n: nat)
    requires IsCycle(p, uses, depth)
    ensures Nesting(Cons(p[0], Nil), uses, n) == TooDeep
  {
    CycleIsTooDeep(p, uses, depth, if n > 0 then n - 1 else 0);
  }

  // ----- without cycles the names are depth enough -----

  lemma PathSnoc(p: seq<string>, uses: Uses, depth: nat, b: string)
    requires IsPath(p, uses, depth) && (p != [] ==> Reaches(uses, depth, p[|p| - 1], b))
    ensures IsPath(p + [b], uses, depth)
  {
    assert (p + [b])[..|p|] == p;
  }

  lemma CutBothEnds(p: seq<string>, k: nat)
    requires k < |p|
    ensures k < |p| - 1 ==> p[k..][..|p[k..]| - 1] == p[..|p| - 1][k..]
  {
  }

  lemma {:induction false} PathSuffix(p: seq<string>, uses: Uses, depth: nat, k: nat)
    requires IsPath(p, uses, depth) && k < |p|
    ensures IsPath(p[k..], uses, depth)
  {
    if k < |p| - 1 {
      PathSuffix(p[..|p| - 1], uses, depth, k);
      CutBothEnds(p, k);
    }
  }

  lemma Ends(p: seq<string>, b: string)
    requires p != []
    ensures (p + [b])[0] == p[0] && (p + [b])[|p + [b]| - 1] == b && |p + [b]| >= 2
  {
  }

  lemma ReturnIsCycle(p: seq<string>, uses: Uses, depth: nat, b: string)
    requires p != [] && p[0] == b && IsPath(p, uses, depth) && Reaches(uses, depth, p[|p| - 1], b)
    ensures IsCycle(p + [b], uses, depth)
  {
    PathSnoc(p, uses, depth, b);
    Ends(p, b);
  }

  lemma SuffixEnds(p: seq<string>, k: nat)
    requires k < |p|
    ensures p[k..] != [] && p[k..][0] == p[k] && p[k..][|p[k..]| - 1] == p[|p| - 1]
  {
  }

  lemma NoReturnToFirst(p: seq<string>, uses: Uses, depth: nat, b: string)
    requires Acyclic(uses, depth) && p != [] && IsPath(p, uses, depth) && Reaches(uses, depth, p[|p| - 1], b)
    ensures p[0] != b
  {
    if p[0] == b {
      ReturnIsCycle(p, uses, depth, b);
    }
  }

  lemma NoReturnTo(p: seq<string>, uses: Uses, depth: nat, b: string, k: nat)
    requires Acyclic(uses, depth) && IsPath(p, uses, depth) && k < |p| && Reaches(uses, depth, p[|p| - 1], b)
    ensures p[k] != b
  {
    PathSuffix(p, uses, depth, k);
    SuffixEnds(p, k);
    NoReturnToFirst(p[k..], uses, depth, b);
  }

  /** A path without cycles does not come back to one of its names. */
  lemma NoReturn(p: seq<string>, uses: Uses, depth: nat, b: string)
    requires Acyclic(uses, depth) && IsPath(p, uses, depth) && (p != [] ==> Reaches(uses, depth, p[|p| - 1], b))
    ensures b !in p
  {
    forall k | 0 <= k < |p| ensures p[k] != b {
      NoReturnTo(p, uses, depth, b, k);
    }
  }

  function Seen(p: seq<string>): set<string> {
    set name | name in p
  }

  lemma SeenGrows(p: seq<string>, b: string, names: set<string>)
    requires b in names && b !in p
    ensures |names - Seen(p + [b])| == |names - Seen(p)| - 1
  {
    assert Seen(p + [b]) == Seen(p) + {b};
    OneFewer(names, Seen(p), b);
  }

  /** All names that `ns` reaches follow the path. */
  ghost predicate Follows(ns: Names, p: seq<string>, uses: Uses, depth: nat) {
    p == [] || forall b | Reached(ns, uses, depth, b) :: Reaches(uses, depth, p[|p| - 1], b)
  }

  lemma LastFollows(p: seq<string>, b: string, uses: Uses, depth: nat)
    requires uses(b).Some?
    ensures Follows(uses(b).value, p + [b], uses, depth)
  {
    assert (p + [b])[|p|] == b;
  }

  lemma RestFollows(ns: Names, p: seq<string>, uses: Uses, depth: nat)
    requires Follows(ns, p, uses, depth) && ns.Cons?
    requires uses(ns.head).Some? && Nesting(uses(ns.head).value, uses, depth) == Complete
    ensures Follows(ns.tail, p, uses, depth)
  {
    forall b | Reached(ns.tail, uses, depth, b) ensures Reached(ns, uses, depth, b) {
    }
  }

  /** Behind a path, the names that are not on it are depth enough. */
  lemma {:induction false} AcyclicNests(ns: Names, p: seq<string>, uses: Uses, names: set<string>)
    requires Acyclic(uses, |names|) && NamesWithin(uses, names) && IsPath(p, uses, |names|) && Follows(ns, p, uses, |names|)
    ensures Nesting(ns, uses, |names - Seen(p)|) != TooDeep
    decreases |names - Seen(p)|, ns
  {
    if ns.Cons? && uses(ns.head).Some? {
      var b, left := ns.head, |names - Seen(p)|;
      assert Reached(ns, uses, |names|, b);
      NoReturn(p, uses, |names|, b);
      PathSnoc(p, uses, |names|, b);
      SeenGrows(p, b, names);
      LastFollows(p, b, uses, |names|);
      AcyclicNests(uses(b).value, p + [b], uses, names);
      if Nesting(uses(b).value, uses, left - 1) == Complete {
        FewerNames(names, Seen(p));
        NestingDeeper(uses(b).value, uses, left - 1, |names|);
        RestFollows(ns, p, uses, |names|);
        AcyclicNests(ns.tail, p, uses, names);
      }
    }
  }

  lemma {:induction false} FewerNames(names: set<string>, seen: set<string>)
    ensures |names - seen| <= |names|
  {
    if names != {} {
      var x :| x in names;
      FewerNames(names - {x}, seen);
      if x in seen {
        assert names - seen == names - {x} - seen;
      } else {
        assert names - seen == (names - {x} - seen) + {x};
      }
    }
  }

  /** The number of names is depth enough for every text if and only if no name reaches itself. */
  lemma NestingIsBoundedExactlyIfAcyclic(uses: Uses, names: set<string>)
    requires NamesWithin(uses, names)
    ensures (forall ns :: Nesting(ns, uses, |names|) != TooDeep) <==> Acyclic(uses, |names|)
  {
    if Acyclic(uses, |names|) {
      forall ns ensures Nesting(ns, uses, |names|) != TooDeep {
        AcyclicNests(ns, [], uses, names);
        assert names - Seen([]) == names;
      }
    } else {
      var p: seq<string> :| IsCycle(p, uses, |names|);
      CycleHeadIsTooDeep(p, uses, |names|, |names|);
    }
  }
}
