/**
 When the order of the path parameters matters.  A placeholder inside another pair of braces is filled first or
 last, and the text that arises may or may not be taken for a placeholder itself.
 */
module PathOrder {
  import opened Base
  import opened PathTemplate

  ghost predicate AllAccepted(args: map<Text, Text>) {
    forall k | k in args :: Flat(k) && !Rejected(args[k])
  }

  /** For all arguments with brace-free names that are not rejected, every order gives the same path. */
  ghost predicate OrderFree(t: Text) {
    forall args: map<Text, Text>, one: seq<Text>, two: seq<Text> |
        AllAccepted(args) && Enumerates(one, args.Keys) && Enumerates(two, args.Keys) ::
      FoldReplace(t, one, args) == FoldReplace(t, two, args)
  }

  /** Only text and placeholders. */
  predicate Braceless(pieces: seq<Piece>) {
    pieces == [] || (!pieces[0].Opener? && !pieces[0].Closer? && Braceless(pieces[1..]))
  }

  predicate HasHole(pieces: seq<Piece>) {
    pieces != [] && (pieces[0].Hole? || HasHole(pieces[1..]))
  }

  /** Pieces between two braces that belong to no placeholder, in a surrounding text. */
  function Frame(a: Text, inner: seq<Piece>, b: Text): Text {
    a + ([OPEN] + (Render(inner) + ([CLOSE] + b)))
  }

  // An untidy template has such a frame.

  lemma {:induction false} RenderConcat(x: seq<Piece>, y: seq<Piece>)
    ensures Render(x + y) == Render(x) + Render(y)
    ensures FlatPieces(x + y) <==> FlatPieces(x) && FlatPieces(y)
  {
    if x == [] {
      assert x + y == y;
    } else {
      assert x + y == [x[0]] + (x[1..] + y);
      RenderConcat(x[1..], y);
      RenderCons(x[0], x[1..] + y);
      Assoc(RenderPiece(x[0]), Render(x[1..]), Render(y));
    }
  }

  lemma PatternOpens(name: Text, rest: Text)
    ensures !ClosesFirst(Pattern(name) + rest)
  {
    assert (Pattern(name) + rest)[0] == OPEN;
  }

  lemma StillOpens(text: Text, rest: Text)
    requires Flat(text) && !ClosesFirst(rest)
    ensures !ClosesFirst(text + rest)
  {
    FlatLengthBehind(text, rest);
  }

  lemma {:induction false} HoleBeforeCloser(inner: seq<Piece>, rest: Text)
    requires FlatPieces(inner) && Braceless(inner) && HasHole(inner)
    ensures !ClosesFirst(Render(inner) + rest)
  {
    var p, more := inner[0], Render(inner[1..]);
    Assoc(RenderPiece(p), more, rest);
    if p.Lit? {
      HoleBeforeCloser(inner[1..], rest);
      StillOpens(p.text, more + rest);
    } else {
      PatternOpens(p.name, more + rest);
    }
  }

  lemma {:induction false} NoHoleIsFlat(inner: seq<Piece>)
    requires FlatPieces(inner) && Braceless(inner) && !HasHole(inner)
    ensures Flat(Render(inner))
  {
    if inner != [] {
      NoHoleIsFlat(inner[1..]);
    }
  }

  /** Behind an opening brace, the next brace that belongs to no placeholder closes. */
  predicate ClosesNext(pieces: seq<Piece>) {
    pieces != [] && (pieces[0].Closer? || (!pieces[0].Opener? && ClosesNext(pieces[1..])))
  }

  lemma {:induction false} SplitAtCloser(pieces: seq<Piece>) returns (inner: seq<Piece>, b: seq<Piece>)
    requires ClosesNext(pieces)
    ensures pieces == inner + ([Closer] + b) && Braceless(inner)
  {
    if pieces[0].Closer? {
      inner, b := [], pieces[1..];
    } else {
      var more;
      more, b := SplitAtCloser(pieces[1..]);
      inner := [pieces[0]] + more;
      assert inner[1..] == more;
      Assoc([pieces[0]], more, [Closer] + b);
    }
  }

  /** The last opening brace before the first closing one behind it. */
  lemma {:induction false} SplitAtOpener(pieces: seq<Piece>) returns (a: seq<Piece>, rest: seq<Piece>)
    requires !Tidy(pieces, false)
    ensures pieces == a + ([Opener] + rest) && ClosesNext(rest)
  {
    if pieces[0].Opener? && ClosesNext(pieces[1..]) {
      a, rest := [], pieces[1..];
    } else {
      if pieces[0].Opener? {
        UntidyBehindOpener(pieces[1..]);
      }
      var more;
      more, rest := SplitAtOpener(pieces[1..]);
      a := [pieces[0]] + more;
      Assoc([pieces[0]], more, [Opener] + rest);
    }
  }

  lemma {:induction false} UntidyBehindOpener(pieces: seq<Piece>)
    requires !Tidy(pieces, true) && !ClosesNext(pieces)
    ensures !Tidy(pieces, false)
  {
    if !pieces[0].Opener? {
      UntidyBehindOpener(pieces[1..]);
    }
  }

  lemma {:induction false} LoneBehind(a: seq<Piece>, rest: seq<Piece>)
    requires Lone(a + ([Opener] + rest))
    ensures !ClosesFirst(Render(rest))
  {
    if a == [] {
      assert a + ([Opener] + rest) == [Opener] + rest;
      assert ([Opener] + rest)[1..] == rest;
    } else {
      assert (a + ([Opener] + rest))[1..] == a[1..] + ([Opener] + rest);
      LoneBehind(a[1..], rest);
    }
  }

  lemma RenderFrame(a: seq<Piece>, inner: seq<Piece>, b: seq<Piece>)
    ensures Render(a + ([Opener] + (inner + ([Closer] + b)))) == Frame(Render(a), inner, Render(b))
    ensures FlatPieces(a + ([Opener] + (inner + ([Closer] + b)))) ==> FlatPieces(inner)
    ensures Render(inner + ([Closer] + b)) == Render(inner) + ([CLOSE] + Render(b))
  {
    RenderConcat(a, [Opener] + (inner + ([Closer] + b)));
    RenderCons(Opener, inner + ([Closer] + b));
    RenderConcat(inner, [Closer] + b);
    RenderCons(Closer, b);
  }

  lemma UntidyHasFrame(t: Text) returns (a: Text, inner: seq<Piece>, b: Text)
    requires !Tame(t)
    ensures t == Frame(a, inner, b) && FlatPieces(inner) && Braceless(inner) && HasHole(inner)
  {
    RenderParse(t);
    var before, rest := SplitAtOpener(Parse(t));
    var behind;
    inner, behind := SplitAtCloser(rest);
    LoneBehind(before, rest);
    RenderFrame(before, inner, behind);
    a, b := Render(before), Render(behind);
    FrameHasHole(inner, b);
  }

  lemma FrameHasHole(inner: seq<Piece>, b: Text)
    requires FlatPieces(inner) && Braceless(inner) && !ClosesFirst(Render(inner) + ([CLOSE] + b))
    ensures HasHole(inner)
  {
    if !HasHole(inner) {
      NoHoleIsFlat(inner);
      FlatLengthBehind(Render(inner), [CLOSE] + b);
    }
  }

  // Replacing inside a frame.

  lemma {:induction false} ReplaceBeforeOpen(a: Text, rest: Text, key: Text, v: Text)
    requires Flat(key) && rest != [] && rest[0] == OPEN
    ensures Replace(a + rest, Pattern(key), v) == Replace(a, Pattern(key), v) + Replace(rest, Pattern(key), v)
    decreases |a|
  {
    var p, s := Pattern(key), a + rest;
    if a == [] {
      assert s == rest;
    } else if p <= a {
      assert p <= s;
      DropInside(a, rest, |p|);
      ReplaceBeforeOpen(a[|p|..], rest, key, v);
      Assoc(v, Replace(a[|p|..], p, v), Replace(rest, p, v));
    } else {
      NoMatchAcross(a, rest, key);
      assert s[1..] == a[1..] + rest && s[0] == a[0];
      ReplaceBeforeOpen(a[1..], rest, key, v);
      Assoc([a[0]], Replace(a[1..], p, v), Replace(rest, p, v));
    }
  }

  lemma NoMatchAcross(a: Text, rest: Text, key: Text)
    requires Flat(key) && a != [] && rest != [] && rest[0] == OPEN && !(Pattern(key) <= a)
    ensures !(Pattern(key) <= a + rest)
  {
    var p, s := Pattern(key), a + rest;
    if |p| <= |a| {
      assert s[..|p|] == a[..|p|];
    } else {
      assert s[|a|] == OPEN && p[|a|] != OPEN;
    }
  }

  lemma {:induction false} ReplaceInBraceless(inner: seq<Piece>, rest: Text, key: Text, v: Text)
    requires FlatPieces(inner) && Braceless(inner) && Flat(key)
    ensures Replace(Render(inner) + rest, Pattern(key), v) == Render(FillOne(inner, key, v)) + Replace(rest, Pattern(key), v)
  {
    if inner == [] {
      assert Render(inner) + rest == rest;
    } else {
      var p, more := inner[0], inner[1..];
      ReplaceInBraceless(more, rest, key, v);
      Assoc(RenderPiece(p), Render(more), rest);
      PieceStep(p, Render(more) + rest, key, v);
      RenderCons(FillPiece(p, key, v), FillOne(more, key, v));
      Assoc(RenderPiece(FillPiece(p, key, v)), Render(FillOne(more, key, v)), Replace(rest, Pattern(key), v));
    }
  }

  lemma FrameOpens(inner: seq<Piece>, rest: Text, key: Text)
    requires FlatPieces(inner) && Braceless(inner) && Flat(key) && (HasHole(inner) || |Render(inner)| > |key|)
    ensures !(Pattern(key) <= [OPEN] + (Render(inner) + ([CLOSE] + rest)))
  {
    var u := Render(inner) + ([CLOSE] + rest);
    if HasHole(inner) {
      HoleBeforeCloser(inner, [CLOSE] + rest);
    } else {
      NoHoleIsFlat(inner);
      FlatLengthBehind(Render(inner), [CLOSE] + rest);
    }
    if Pattern(key) <= [OPEN] + u {
      MatchClosesFirst(u, key);
    }
  }

  /** A key that is not all of the text between the braces leaves the braces alone. */
  lemma FrameStep(a: Text, inner: seq<Piece>, b: Text, key: Text, v: Text)
    requires FlatPieces(inner) && Braceless(inner) && Flat(key) && (HasHole(inner) || |Render(inner)| > |key|)
    ensures Replace(Frame(a, inner, b), Pattern(key), v)
         == Frame(Replace(a, Pattern(key), v), FillOne(inner, key, v), Replace(b, Pattern(key), v))
  {
    var closing := [CLOSE] + b;
    ReplaceBeforeOpen(a, [OPEN] + (Render(inner) + closing), key, v);
    FrameOpens(inner, b, key);
    OpenStep(Render(inner) + closing, key, v);
    ReplaceInBraceless(inner, closing, key, v);
    ReplaceSkips([CLOSE], b, key, v);
  }

  lemma {:induction false} FillOneStaysBraceless(inner: seq<Piece>, key: Text, v: Text)
    requires FlatPieces(inner) && Braceless(inner) && Flat(v)
    ensures FlatPieces(FillOne(inner, key, v)) && Braceless(FillOne(inner, key, v))
  {
    if inner != [] {
      FillOneStaysBraceless(inner[1..], key, v);
      assert FillOne(inner, key, v)[1..] == FillOne(inner[1..], key, v);
    }
  }

  /** A frame whose placeholders are all filled is longer than any of the values. */
  lemma {:induction false} FilledIsLong(inner: seq<Piece>, values: map<Text, Text>, bound: nat)
    requires HasHole(inner) && !HasHole(Fill(inner, values))
    requires forall k | k in values :: |values[k]| >= bound
    ensures |Render(Fill(inner, values))| >= bound
  {
    var filled := Fill(inner, values);
    assert filled[1..] == Fill(inner[1..], values);
    if !inner[0].Hole? {
      FilledIsLong(inner[1..], values, bound);
    }
  }

  ghost predicate LongValues(keys: seq<Text>, args: map<Text, Text>, bound: nat) {
    forall k | k in keys :: k in args && Flat(k) && |k| < bound && |Encoded(args[k])| >= bound
  }

  lemma {:induction false} FoldFrame(a: Text, inner: seq<Piece>, b: Text, keys: seq<Text>, args: map<Text, Text>, bound: nat)
    returns (a': Text, b': Text)
    requires FlatPieces(inner) && Braceless(inner) && HasHole(inner) && Distinct(keys) && LongValues(keys, args, bound)
    ensures var filled := Fill(inner, EncodedValues(keys, args));
            FoldReplace(Frame(a, inner, b), keys, args) == Frame(a', filled, b') && FlatPieces(filled) && Braceless(filled)
  {
    if keys == [] {
      FillNothing(inner);
      assert EncodedValues(keys, args) == map[];
      a', b' := a, b;
    } else {
      var n := |keys| - 1;
      var key, v, values := keys[n], Encoded(args[keys[n]]), EncodedValues(keys[..n], args);
      assert key in keys;
      a', b' := FoldFrame(a, inner, b, keys[..n], args, bound);
      var filled := Fill(inner, values);
      if !HasHole(filled) {
        FilledIsLong(inner, values, bound);
      }
      FrameStep(a', filled, b', key, v);
      EncodedIsSafe(args[key]);
      FillOneStaysBraceless(filled, key, v);
      EncodedValuesSnoc(keys, args);
      FillInsertsOne(inner, values, key, v);
      a', b' := Replace(a', Pattern(key), v), Replace(b', Pattern(key), v);
    }
  }

  // The two orders.

  function Names(pieces: seq<Piece>): seq<Text> {
    if pieces == [] then []
    else
      var rest := Names(pieces[1..]);
      if pieces[0].Hole? && pieces[0].name !in rest then [pieces[0].name] + rest else rest
  }

  lemma {:induction false} NamesAreDistinct(pieces: seq<Piece>)
    ensures Distinct(Names(pieces))
  {
    if pieces != [] {
      NamesAreDistinct(pieces[1..]);
    }
  }

  lemma {:induction false} NameOfPiece(pieces: seq<Piece>, name: Text)
    requires FlatPieces(pieces) && name in Names(pieces)
    ensures Flat(name) && |name| <= |Render(pieces)|
  {
    if name in Names(pieces[1..]) {
      NameOfPiece(pieces[1..], name);
    }
  }

  lemma {:induction false} AllFilled(pieces: seq<Piece>, values: map<Text, Text>)
    requires forall name | name in Names(pieces) :: name in values
    ensures !HasHole(Fill(pieces, values))
  {
    if pieces != [] {
      AllFilled(pieces[1..], values);
      assert Fill(pieces, values)[1..] == Fill(pieces[1..], values);
    }
  }

  /** A value of `n` letters `x`. */
  function Xs(n: nat): (s: Text)
    ensures |s| == n && forall c | c in s :: c == 0x78
  {
    if n == 0 then [] else Xs(n - 1) + [0x78]
  }

  lemma {:induction false} EncodedIsNoShorter(s: Text)
    ensures |Encoded(s)| >= |s|
  {
    if s != [] {
      EncodedIsNoShorter(s[..|s| - 1]);
    }
  }

  lemma {:induction false} ReplaceNeverGrows(s: Text, pattern: Text)
    requires pattern != []
    ensures |Replace(s, pattern, [])| <= |s|
  {
    if s != [] {
      if pattern <= s {
        ReplaceNeverGrows(s[|pattern|..], pattern);
      } else {
        ReplaceNeverGrows(s[1..], pattern);
      }
    }
  }

  lemma {:induction false} ReplaceShrinks(a: Text, pattern: Text, b: Text)
    requires pattern != []
    ensures |Replace(a + (pattern + b), pattern, [])| < |a + (pattern + b)|
    decreases |a|
  {
    var s := a + (pattern + b);
    if a == [] {
      assert s == pattern + b && s[..|pattern|] == pattern;
      ReplaceNeverGrows(s[|pattern|..], pattern);
    } else if pattern <= s {
      ReplaceNeverGrows(s[|pattern|..], pattern);
    } else {
      assert s[1..] == a[1..] + (pattern + b);
      ReplaceShrinks(a[1..], pattern, b);
    }
  }

  lemma {:induction false} FoldFirst(t: Text, key: Text, keys: seq<Text>, args: map<Text, Text>)
    requires key in args && forall k | k in keys :: k in args
    ensures FoldReplace(t, [key] + keys, args) == FoldReplace(Replace(t, Pattern(key), Encoded(args[key])), keys, args)
  {
    var all := [key] + keys;
    if keys == [] {
      assert all == [key] && [key][..0] == [];
      assert FoldReplace(t, [], args) == t;
    } else {
      assert all[..|keys|] == [key] + keys[..|keys| - 1];
      FoldFirst(t, key, keys[..|keys| - 1], args);
    }
  }

  lemma FoldLast(t: Text, keys: seq<Text>, key: Text, args: map<Text, Text>)
    requires key in args && forall k | k in keys :: k in args
    ensures FoldReplace(t, keys + [key], args) == Replace(FoldReplace(t, keys, args), Pattern(key), Encoded(args[key]))
  {
    assert (keys + [key])[..|keys|] == keys;
  }

  /** The arguments: a long value for every placeholder in the frame, and nothing for the text that arises. */
  function Trap(names: seq<Text>, arisen: Text, n: nat): map<Text, Text> {
    (map k | k in names :: Xs(n))[arisen := []]
  }

  lemma XsAreAccepted(n: nat)
    ensures !Rejected(Xs(n)) && |Encoded(Xs(n))| >= n
  {
    EncodedIsNoShorter(Xs(n));
    forall i | 0 <= i < |Xs(n)| ensures Xs(n)[i] == 0x78 {
      assert Xs(n)[i] in Xs(n);
    }
  }

  lemma TrapIsAccepted(names: seq<Text>, arisen: Text, n: nat)
    requires arisen !in names && Flat(arisen) && forall k | k in names :: Flat(k) && |k| < n
    ensures AllAccepted(Trap(names, arisen, n)) && LongValues(names, Trap(names, arisen, n), n)
  {
    XsAreAccepted(n);
    assert !Rejected([]);
  }

  lemma TrapIsEnumerated(names: seq<Text>, arisen: Text, n: nat)
    requires Distinct(names) && arisen !in names
    ensures Enumerates(names + [arisen], Trap(names, arisen, n).Keys)
    ensures Enumerates([arisen] + names, Trap(names, arisen, n).Keys)
  {
    var all := Trap(names, arisen, n).Keys;
    assert all == (set k | k in names) + {arisen};
    forall k ensures k in names + [arisen] <==> k in all {
    }
    forall k ensures k in [arisen] + names <==> k in all {
    }
  }

  lemma FrameIsPattern(a: Text, filled: seq<Piece>, b: Text)
    ensures Frame(a, filled, b) == a + (Pattern(Render(filled)) + b)
  {
    Assoc([OPEN] + Render(filled), [CLOSE], b);
    Assoc([OPEN], Render(filled), [CLOSE] + b);
  }

  /** The values that a frame's own names take do not depend on the other arguments. */
  lemma TrapValues(names: seq<Text>, arisen: Text, n: nat)
    requires arisen !in names
    ensures EncodedValues(names, Trap(names, arisen, n)) == map k | k in names :: Encoded(Xs(n))
  {
  }

  lemma FrameText(inner: seq<Piece>, n: nat) returns (arisen: Text)
    requires FlatPieces(inner) && Braceless(inner) && HasHole(inner)
    ensures arisen == Render(Fill(inner, map k | k in Names(inner) :: Encoded(Xs(n)))) && |arisen| >= n
  {
    var values := map k | k in Names(inner) :: Encoded(Xs(n));
    AllFilled(inner, values);
    EncodedIsNoShorter(Xs(n));
    FilledIsLong(inner, values, n);
    arisen := Render(Fill(inner, values));
  }

  /** For every template that is not tame there are arguments that two orders substitute differently. */
  lemma TwoOrdersDiffer(t: Text) returns (args: map<Text, Text>, one: seq<Text>, two: seq<Text>)
    requires !Tame(t)
    ensures AllAccepted(args) && Enumerates(one, args.Keys) && Enumerates(two, args.Keys)
    ensures FoldReplace(t, one, args) != FoldReplace(t, two, args)
  {
    var a, inner, b := UntidyHasFrame(t);
    args, one, two := FrameOrdersDiffer(a, inner, b);
  }

  lemma NamesAreShort(a: Text, inner: seq<Piece>, b: Text)
    requires FlatPieces(inner)
    ensures forall k | k in Names(inner) :: Flat(k) && |k| < |Frame(a, inner, b)|
  {
    forall k | k in Names(inner) ensures Flat(k) && |k| < |Frame(a, inner, b)| {
      NameOfPiece(inner, k);
    }
  }

  /** Taken first, the names of the frame turn it into a placeholder of a name longer than the template. */
  lemma PlaceholderArises(a: Text, inner: seq<Piece>, b: Text) returns (arisen: Text, args: map<Text, Text>, a': Text, b': Text)
    requires FlatPieces(inner) && Braceless(inner) && HasHole(inner)
    ensures |arisen| > |Frame(a, inner, b)| && Flat(arisen) && arisen !in Names(inner)
    ensures args == Trap(Names(inner), arisen, |Frame(a, inner, b)| + 1)
    ensures FoldReplace(Frame(a, inner, b), Names(inner), args) == a' + (Pattern(arisen) + b')
    ensures forall k | k in Names(inner) :: Flat(k) && |k| < |Frame(a, inner, b)|
  {
    var names := Names(inner);
    var n := |Frame(a, inner, b)| + 1;
    arisen := FrameText(inner, n);
    NamesAreDistinct(inner);
    NamesAreShort(a, inner, b);
    ArisenIsFlat(inner, n);
    TrapIsAccepted(names, arisen, n);
    args := Trap(names, arisen, n);
    TrapValues(names, arisen, n);
    a', b' := FoldFrame(a, inner, b, names, args, n);
    FrameIsPattern(a', Fill(inner, EncodedValues(names, args)), b');
  }

  lemma OrdersDiffer(t: Text, a: Text, b: Text, names: seq<Text>, arisen: Text, args: map<Text, Text>)
    returns (one: seq<Text>, two: seq<Text>)
    requires Distinct(names) && arisen !in names && Flat(arisen) && |arisen| > |t|
    requires forall k | k in names :: Flat(k) && |k| < |t| + 1
    requires args == Trap(names, arisen, |t| + 1) && FoldReplace(t, names, args) == a + (Pattern(arisen) + b)
    ensures AllAccepted(args) && Enumerates(one, args.Keys) && Enumerates(two, args.Keys)
    ensures FoldReplace(t, one, args) != FoldReplace(t, two, args)
  {
    TrapIsAccepted(names, arisen, |t| + 1);
    TrapIsEnumerated(names, arisen, |t| + 1);
    LastOrFirst(t, a, b, names, arisen, args);
    one, two := names + [arisen], [arisen] + names;
  }

  lemma FrameOrdersDiffer(a: Text, inner: seq<Piece>, b: Text) returns (args: map<Text, Text>, one: seq<Text>, two: seq<Text>)
    requires FlatPieces(inner) && Braceless(inner) && HasHole(inner)
    ensures AllAccepted(args) && Enumerates(one, args.Keys) && Enumerates(two, args.Keys)
    ensures FoldReplace(Frame(a, inner, b), one, args) != FoldReplace(Frame(a, inner, b), two, args)
  {
    NamesAreDistinct(inner);
    var arisen, a', b';
    arisen, args, a', b' := PlaceholderArises(a, inner, b);
    one, two := OrdersDiffer(Frame(a, inner, b), a', b', Names(inner), arisen, args);
  }

  lemma ArisenIsFlat(inner: seq<Piece>, n: nat)
    requires FlatPieces(inner) && Braceless(inner)
    ensures Flat(Render(Fill(inner, map k | k in Names(inner) :: Encoded(Xs(n)))))
  {
    var values := map k | k in Names(inner) :: Encoded(Xs(n));
    AllFilled(inner, values);
    EncodedIsSafe(Xs(n));
    FillStaysBraceless(inner, values);
    NoHoleIsFlat(Fill(inner, values));
  }

  lemma {:induction false} FillStaysBraceless(inner: seq<Piece>, values: map<Text, Text>)
    requires FlatPieces(inner) && Braceless(inner) && forall k | k in values :: Flat(values[k])
    ensures FlatPieces(Fill(inner, values)) && Braceless(Fill(inner, values))
  {
    if inner != [] {
      FillStaysBraceless(inner[1..], values);
      assert Fill(inner, values)[1..] == Fill(inner[1..], values);
    }
  }

  /** Taken last, the new name finds the text that has arisen; taken first, it finds nothing. */
  lemma LastOrFirst(t: Text, a: Text, b: Text, names: seq<Text>, arisen: Text, args: map<Text, Text>)
    requires (forall k | k in names :: k in args) && arisen in args && args[arisen] == [] && |arisen| > |t|
    requires FoldReplace(t, names, args) == a + (Pattern(arisen) + b)
    ensures FoldReplace(t, names + [arisen], args) != FoldReplace(t, [arisen] + names, args)
  {
    FoldLast(t, names, arisen, args);
    FoldFirst(t, arisen, names, args);
    ReplaceNothing(t, Pattern(arisen), []);
    ReplaceShrinks(a, Pattern(arisen), b);
  }

  /** The path is the same in every order, whatever the arguments, exactly on the tame templates: those without
      a `{` ... `}` around a complete placeholder. */
  lemma OrderFreeExactlyIfTame(t: Text)
    ensures OrderFree(t) <==> Tame(t)
  {
    if Tame(t) {
      forall args: map<Text, Text>, one: seq<Text>, two: seq<Text> |
          AllAccepted(args) && Enumerates(one, args.Keys) && Enumerates(two, args.Keys)
        ensures FoldReplace(t, one, args) == FoldReplace(t, two, args)
      {
        FoldIsSimultaneous(t, one, args);
        FoldIsSimultaneous(t, two, args);
      }
    } else {
      var args, one, two := TwoOrdersDiffer(t);
    }
  }

  /** Two braces that belong to no placeholder, with text and at least one complete placeholder between them. */
  ghost predicate HasFrame(t: Text) {
    exists a: Text, inner: seq<Piece>, b: Text :: IsFrame(t, a, inner, b)
  }

  predicate IsFrame(t: Text, a: Text, inner: seq<Piece>, b: Text) {
    t == Frame(a, inner, b) && FlatPieces(inner) && Braceless(inner) && HasHole(inner)
  }

  /** What tame means in the text itself. */
  lemma TameExactlyIfNoFrame(t: Text)
    ensures Tame(t) <==> !HasFrame(t)
  {
    if HasFrame(t) {
      var a: Text, inner: seq<Piece>, b: Text :| IsFrame(t, a, inner, b);
      var args, one, two := FrameOrdersDiffer(a, inner, b);
      OrderFreeExactlyIfTame(t);
    } else if !Tame(t) {
      var a, inner, b := UntidyHasFrame(t);
      assert IsFrame(t, a, inner, b);
    }
  }
}
