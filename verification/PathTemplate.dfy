/**
 Substitution of path parameters: `{name}` in an endpoint template is replaced by the percent-encoded value,
 one parameter after the other, in the arbitrary order of a hash map.  Text is a sequence of bytes (UTF-8).
 */
module PathTemplate {
  import opened Base

  type Byte = b: int | 0 <= b < 256

  type Text = seq<Byte>

  const OPEN: Byte := 0x7B
  const CLOSE: Byte := 0x7D
  const PERCENT: Byte := 0x25

  // ----- percent-encoding (RFC 3986, sections 2.1 and 2.3) -----

  predicate IsUnreserved(b: Byte) {
    || 0x41 <= b <= 0x5A || 0x61 <= b <= 0x7A || 0x30 <= b <= 0x39
    || b == 0x2D || b == 0x5F || b == 0x2E || b == 0x7E
  }

  /** An upper-case hexadecimal digit. */
  function HexDigit(n: int): (b: Byte)
    requires 0 <= n < 16
    ensures 0x30 <= b <= 0x39 || 0x41 <= b <= 0x46
    ensures HexValue(b) == Some(n)
  {
    if n < 10 then 0x30 + n else 0x41 + n - 10
  }

  function EncodeByte(b: Byte): Text {
    if IsUnreserved(b) then [b] else [PERCENT, HexDigit(b / 16), HexDigit(b % 16)]
  }

  function Encoded(s: Text): Text {
    if s == [] then [] else Encoded(s[..|s| - 1]) + EncodeByte(s[|s| - 1])
  }

  method PercentEncodePathSegment(s: Text) returns (out: Text)
    ensures out == Encoded(s)
  {
    out := [];
    for i := 0 to |s|
      invariant out == Encoded(s[..i])
    {
      assert s[..i + 1][..i] == s[..i];
      if IsUnreserved(s[i]) {
        out := out + [s[i]];
      } else {
        out := out + [PERCENT, HexDigit(s[i] / 16), HexDigit(s[i] % 16)];
      }
    }
    assert s[..|s|] == s;
  }

  lemma UpperCaseHex(n: nat)
    requires n < 16
    ensures HexDigit(n) == "0123456789ABCDEF"[n] as int
  {
  }

  /** Exactly the letters, the digits and `-`, `.`, `_`, `~` stand for themselves; any other byte becomes `%` and two
      upper-case digits. */
  lemma UnreservedStay(b: Byte)
    ensures EncodeByte(b) == [b] <==>
              || 'A' as int <= b <= 'Z' as int || 'a' as int <= b <= 'z' as int || '0' as int <= b <= '9' as int
              || b == '-' as int || b == '.' as int || b == '_' as int || b == '~' as int
    ensures EncodeByte(b) != [b] ==>
              EncodeByte(b) == ['%' as int, "0123456789ABCDEF"[b / 16] as int, "0123456789ABCDEF"[b % 16] as int]
  {
    if !IsUnreserved(b) {
      UpperCaseHex(b / 16);
      UpperCaseHex(b % 16);
      assert |EncodeByte(b)| == 3;
    }
  }

  function HexValue(b: Byte): Option<int> {
    if 0x30 <= b <= 0x39 then Some(b - 0x30)
    else if 0x41 <= b <= 0x46 then Some(b - 0x41 + 10)
    else if 0x61 <= b <= 0x66 then Some(b - 0x61 + 10)
    else None
  }

  /** Percent-decoding: `%` and two hexadecimal digits stand for a byte, anything else for itself. */
  function Decoded(s: Text): Text {
    if s == [] then []
    else if s[0] == PERCENT && |s| >= 3 && HexValue(s[1]).Some? && HexValue(s[2]).Some?
    then [HexValue(s[1]).value * 16 + HexValue(s[2]).value] + Decoded(s[3..])
    else [s[0]] + Decoded(s[1..])
  }

  lemma {:induction false} EncodedFirst(s: Text)
    requires s != []
    ensures Encoded(s) == EncodeByte(s[0]) + Encoded(s[1..])
  {
    if |s| > 1 {
      EncodedFirst(s[..|s| - 1]);
      assert s[..|s| - 1][1..] == s[1..][..|s| - 2];
    }
  }

  lemma DecodeByte(b: Byte, rest: Text)
    ensures Decoded(EncodeByte(b) + rest) == [b] + Decoded(rest)
  {
    assert (EncodeByte(b) + rest)[|EncodeByte(b)|..] == rest;
  }

  /** Decoding recovers the value from its encoding. */
  lemma {:induction false} DecodedEncoded(s: Text)
    ensures Decoded(Encoded(s)) == s
  {
    if s != [] {
      EncodedFirst(s);
      DecodeByte(s[0], Encoded(s[1..]));
      DecodedEncoded(s[1..]);
    }
  }

  predicate Safe(b: Byte) {
    IsUnreserved(b) || b == PERCENT
  }

  lemma {:induction false} EncodedBytesAreSafe(s: Text)
    ensures forall b | b in Encoded(s) :: Safe(b)
  {
    if s != [] {
      EncodedBytesAreSafe(s[..|s| - 1]);
    }
  }

  lemma EncodedIsSafe(s: Text)
    ensures forall b | b in Encoded(s) :: Safe(b)
    ensures 0x2F !in Encoded(s) && 0x3F !in Encoded(s) && 0x23 !in Encoded(s) && Flat(Encoded(s))
  {
    EncodedBytesAreSafe(s);
    assert !Safe(0x2F) && !Safe(0x3F) && !Safe(0x23) && !Safe(OPEN) && !Safe(CLOSE);
  }

  // ----- replace -----

  predicate Flat(s: Text) {
    OPEN !in s && CLOSE !in s
  }

  function Pattern(key: Text): Text {
    [OPEN] + key + [CLOSE]
  }

  /** `s.replace(pattern, v)`: all matches from left to right, without overlap. */
  function Replace(s: Text, pattern: Text, v: Text): Text
    requires pattern != []
  {
    if s == [] then []
    else if pattern <= s then v + Replace(s[|pattern|..], pattern, v)
    else [s[0]] + Replace(s[1..], pattern, v)
  }

  lemma {:induction false} ReplaceSkips(a: Text, rest: Text, key: Text, v: Text)
    requires OPEN !in a
    ensures Replace(a + rest, Pattern(key), v) == a + Replace(rest, Pattern(key), v)
  {
    if a == [] {
      assert a + rest == rest;
    } else {
      var s := a + rest;
      assert s[1..] == a[1..] + rest && s[0] == a[0] != Pattern(key)[0];
      ReplaceSkips(a[1..], rest, key, v);
      Assoc([a[0]], a[1..], Replace(rest, Pattern(key), v));
      assert [a[0]] + a[1..] == a;
    }
  }

  lemma {:induction false} ReplaceNothing(s: Text, pattern: Text, v: Text)
    requires |s| < |pattern|
    ensures Replace(s, pattern, v) == s
  {
    if s != [] {
      ReplaceNothing(s[1..], pattern, v);
    }
  }

  // ----- templates -----

  /** A template is made of text, placeholders, and braces that belong to no placeholder. */
  datatype Piece = Lit(text: Text) | Hole(name: Text) | Opener | Closer

  function RenderPiece(p: Piece): Text {
    match p
    case Lit(text) => text
    case Hole(name) => Pattern(name)
    case Opener => [OPEN]
    case Closer => [CLOSE]
  }

  function Render(pieces: seq<Piece>): Text {
    if pieces == [] then [] else RenderPiece(pieces[0]) + Render(pieces[1..])
  }

  predicate FlatPiece(p: Piece) {
    match p
    case Lit(text) => Flat(text)
    case Hole(name) => Flat(name)
    case _ => true
  }

  predicate FlatPieces(pieces: seq<Piece>) {
    pieces == [] || (FlatPiece(pieces[0]) && FlatPieces(pieces[1..]))
  }

  /** Length of the text before the first brace. */
  function FlatLength(t: Text): (n: nat)
    ensures n <= |t|
    ensures n < |t| ==> t[n] == OPEN || t[n] == CLOSE
  {
    if t == [] || t[0] == OPEN || t[0] == CLOSE then 0 else 1 + FlatLength(t[1..])
  }

  /** The first brace of the text is a closing one. */
  predicate ClosesFirst(t: Text) {
    FlatLength(t) < |t| && t[FlatLength(t)] == CLOSE
  }

  lemma {:induction false} FlatBefore(t: Text)
    ensures Flat(t[..FlatLength(t)])
  {
    if FlatLength(t) > 0 {
      FlatBefore(t[1..]);
      assert t[..FlatLength(t)] == [t[0]] + t[1..][..FlatLength(t) - 1];
    }
  }

  lemma {:induction false} FlatLengthBehind(a: Text, t: Text)
    requires Flat(a)
    ensures FlatLength(a + t) == |a| + FlatLength(t)
  {
    if a == [] {
      assert a + t == t;
    } else {
      var s := a + t;
      assert s[1..] == a[1..] + t && s[0] == a[0];
      FlatLengthBehind(a[1..], t);
    }
  }

  /** What an opening brace before `u` belongs to: a placeholder, or nothing. */
  function OpenPiece(u: Text): Piece {
    if ClosesFirst(u) then Hole(u[..FlatLength(u)]) else Opener
  }

  function AfterOpen(u: Text): (rest: Text)
    ensures |rest| <= |u|
  {
    if ClosesFirst(u) then u[FlatLength(u) + 1..] else u
  }

  /** What follows the first brace. */
  function Tail(t: Text): (u: Text)
    requires FlatLength(t) < |t|
    ensures |u| < |t|
  {
    t[FlatLength(t) + 1..]
  }

  function BracePiece(t: Text): Piece
    requires FlatLength(t) < |t|
  {
    if t[FlatLength(t)] == CLOSE then Closer else OpenPiece(Tail(t))
  }

  /** What comes after that piece. */
  function Beyond(t: Text): (rest: Text)
    requires FlatLength(t) < |t|
    ensures |rest| < |t|
  {
    if t[FlatLength(t)] == CLOSE then Tail(t) else AfterOpen(Tail(t))
  }

  /** The pieces of any template.  A brace that opens no placeholder, or closes none, stands for itself. */
  function Parse(t: Text): seq<Piece>
    decreases |t|
  {
    if FlatLength(t) == |t| then [Lit(t)]
    else [Lit(t[..FlatLength(t)]), BracePiece(t)] + Parse(Beyond(t))
  }

  /** No single opening brace turns out to open a placeholder. */
  predicate Lone(pieces: seq<Piece>) {
    pieces == [] || ((pieces[0].Opener? ==> !ClosesFirst(Render(pieces[1..]))) && Lone(pieces[1..]))
  }

  lemma TwoPieces(a: Piece, b: Piece, rest: seq<Piece>)
    ensures Render([a, b] + rest) == RenderPiece(a) + (RenderPiece(b) + Render(rest))
    ensures FlatPieces([a, b] + rest) <==> FlatPiece(a) && FlatPiece(b) && FlatPieces(rest)
    ensures a.Lit? ==> (Lone([a, b] + rest) <==> (b.Opener? ==> !ClosesFirst(Render(rest))) && Lone(rest))
  {
    var pieces := [a, b] + rest;
    assert pieces[1..] == [b] + rest && pieces[1..][1..] == rest;
  }

  lemma SplitAt(t: Text, n: nat)
    requires n < |t|
    ensures t == t[..n] + ([t[n]] + t[n + 1..])
  {
  }

  predicate Parses(t: Text, pieces: seq<Piece>) {
    FlatPieces(pieces) && Render(pieces) == t && Lone(pieces)
  }

  lemma HoleFirst(u: Text)
    requires ClosesFirst(u)
    ensures Flat(u[..FlatLength(u)])
    ensures [OPEN] + u == Pattern(u[..FlatLength(u)]) + u[FlatLength(u) + 1..]
  {
    FlatBefore(u);
    SplitAt(u, FlatLength(u));
    var name, rest := u[..FlatLength(u)], u[FlatLength(u) + 1..];
    Assoc([OPEN] + name, [CLOSE], rest);
    Assoc([OPEN], name, [CLOSE] + rest);
  }

  lemma OpenThenAfter(u: Text)
    ensures FlatPiece(OpenPiece(u)) && !OpenPiece(u).Lit? && !OpenPiece(u).Closer?
    ensures OpenPiece(u).Opener? ==> !ClosesFirst(AfterOpen(u))
    ensures [OPEN] + u == RenderPiece(OpenPiece(u)) + AfterOpen(u)
  {
    if ClosesFirst(u) {
      HoleFirst(u);
    }
  }

  lemma BraceText(t: Text)
    requires FlatLength(t) < |t|
    ensures FlatPiece(BracePiece(t)) && (BracePiece(t).Opener? ==> !ClosesFirst(Beyond(t)))
    ensures [t[FlatLength(t)]] + Tail(t) == RenderPiece(BracePiece(t)) + Beyond(t)
  {
    OpenThenAfter(Tail(t));
  }

  lemma TailSplits(t: Text)
    requires FlatLength(t) < |t|
    ensures t == t[..FlatLength(t)] + ([t[FlatLength(t)]] + Tail(t))
  {
    SplitAt(t, FlatLength(t));
  }

  lemma BraceThenBeyond(t: Text)
    requires FlatLength(t) < |t|
    ensures FlatPiece(BracePiece(t))
    ensures BracePiece(t).Opener? ==> !ClosesFirst(Beyond(t))
    ensures t == t[..FlatLength(t)] + (RenderPiece(BracePiece(t)) + Beyond(t))
  {
    BraceText(t);
    TailSplits(t);
  }

  lemma MorePieces(text: Text, p: Piece, t: Text, rest: seq<Piece>)
    requires Flat(text) && FlatPiece(p) && Parses(t, rest) && (p.Opener? ==> !ClosesFirst(t))
    ensures Parses(text + (RenderPiece(p) + t), [Lit(text), p] + rest)
  {
    TwoPieces(Lit(text), p, rest);
  }

  /** Printing the pieces gives the template back. */
  lemma {:induction false} RenderParse(t: Text)
    ensures Parses(t, Parse(t))
    decreases |t|
  {
    FlatBefore(t);
    if FlatLength(t) == |t| {
      assert t[..FlatLength(t)] == t;
      LastPiece(t);
    } else {
      BraceThenBeyond(t);
      RenderParse(Beyond(t));
      MorePieces(t[..FlatLength(t)], BracePiece(t), Beyond(t), Parse(Beyond(t)));
    }
  }

  lemma LastPiece(t: Text)
    requires Flat(t)
    ensures Parses(t, [Lit(t)])
  {
    assert [Lit(t)][1..] == [];
  }

  /** No closing brace comes after an opening one that belongs to no placeholder. */
  predicate Tidy(pieces: seq<Piece>, lone: bool) {
    if pieces == [] then true
    else
      match pieces[0]
      case Opener => Tidy(pieces[1..], true)
      case Closer => !lone && Tidy(pieces[1..], lone)
      case _ => Tidy(pieces[1..], lone)
  }

  /** The template has no `{` ... `}` around a complete placeholder. */
  predicate Tame(t: Text) {
    Tidy(Parse(t), false)
  }

  /** Braces come in pairs and are not nested; `inside` says whether a brace is open. */
  predicate Balanced(t: Text, inside: bool) {
    if t == [] then !inside
    else if t[0] == OPEN then !inside && Balanced(t[1..], true)
    else if t[0] == CLOSE then inside && Balanced(t[1..], false)
    else Balanced(t[1..], inside)
  }

  lemma TailOfTail(t: Text)
    requires t != [] && t[0] != OPEN && t[0] != CLOSE && FlatLength(t) < |t|
    ensures Tail(t) == Tail(t[1..])
  {
    DropDrop(t, 1, FlatLength(t));
  }

  lemma {:induction false} BalancedAfterFlat(t: Text, inside: bool)
    requires Balanced(t, inside)
    ensures FlatLength(t) == |t| ==> !inside
    ensures FlatLength(t) < |t| ==> t[FlatLength(t)] == (if inside then CLOSE else OPEN) && Balanced(Tail(t), !inside)
  {
    if t != [] && t[0] != OPEN && t[0] != CLOSE {
      BalancedAfterFlat(t[1..], inside);
      if FlatLength(t) < |t| {
        TailOfTail(t);
      }
    }
  }

  lemma TidyBehindHole(text: Text, p: Piece, rest: seq<Piece>)
    requires p.Hole?
    ensures Tidy([Lit(text), p] + rest, false) <==> Tidy(rest, false)
  {
    var pieces := [Lit(text), p] + rest;
    assert pieces[1..] == [p] + rest && pieces[1..][1..] == rest;
  }

  lemma TameBehindHole(t: Text)
    requires FlatLength(t) < |t| && BracePiece(t).Hole? && Tame(Beyond(t))
    ensures Tame(t)
  {
    TidyBehindHole(t[..FlatLength(t)], BracePiece(t), Parse(Beyond(t)));
  }

  lemma BalancedAfterOpen(u: Text)
    requires Balanced(u, true)
    ensures OpenPiece(u).Hole? && Balanced(AfterOpen(u), false)
  {
    BalancedAfterFlat(u, true);
  }

  lemma BalancedStep(t: Text)
    requires Balanced(t, false) && FlatLength(t) < |t|
    ensures BracePiece(t).Hole? && Balanced(Beyond(t), false)
  {
    BalancedAfterFlat(t, false);
    BalancedAfterOpen(Tail(t));
  }

  /** Templates without nested or unbalanced braces are tame. */
  lemma {:induction false} BalancedIsTame(t: Text)
    requires Balanced(t, false)
    ensures Tame(t)
    decreases |t|
  {
    if FlatLength(t) < |t| {
      BalancedStep(t);
      BalancedIsTame(Beyond(t));
      TameBehindHole(t);
    }
  }

  // ----- filling placeholders -----

  function FillPiece(p: Piece, key: Text, v: Text): Piece {
    if p == Hole(key) then Lit(v) else p
  }

  function FillOne(pieces: seq<Piece>, key: Text, v: Text): seq<Piece> {
    if pieces == [] then [] else [FillPiece(pieces[0], key, v)] + FillOne(pieces[1..], key, v)
  }

  function FillFrom(p: Piece, values: map<Text, Text>): Piece {
    if p.Hole? && p.name in values then Lit(values[p.name]) else p
  }

  /** Fills every placeholder that has a value, all at once. */
  function Fill(pieces: seq<Piece>, values: map<Text, Text>): seq<Piece> {
    if pieces == [] then [] else [FillFrom(pieces[0], values)] + Fill(pieces[1..], values)
  }

  lemma RenderCons(p: Piece, rest: seq<Piece>)
    ensures Render([p] + rest) == RenderPiece(p) + Render(rest)
    ensures FlatPieces([p] + rest) <==> FlatPiece(p) && FlatPieces(rest)
    ensures Tidy([p] + rest, false) <==> Tidy(rest, p.Opener?)
    ensures Tidy([p] + rest, true) <==> !p.Closer? && Tidy(rest, true)
  {
    assert ([p] + rest)[1..] == rest;
  }

  lemma MatchClosesFirst(u: Text, key: Text)
    requires Flat(key) && Pattern(key) <= [OPEN] + u
    ensures ClosesFirst(u) && FlatLength(u) == |key| && u[..|key|] == key
  {
    var p, s := Pattern(key), [OPEN] + u;
    var beyond := s[|p|..];
    assert s == p + beyond;
    Assoc([OPEN], key + [CLOSE], beyond);
    assert p == [OPEN] + (key + [CLOSE]);
    assert u == s[1..] == (key + [CLOSE]) + beyond;
    Assoc(key, [CLOSE], beyond);
    FlatLengthBehind(key, [CLOSE] + beyond);
  }

  lemma HoleClosesFirst(name: Text, rest: Text)
    requires Flat(name)
    ensures Pattern(name) + rest == [OPEN] + (name + ([CLOSE] + rest))
    ensures FlatLength(name + ([CLOSE] + rest)) == |name|
  {
    Assoc([OPEN] + name, [CLOSE], rest);
    Assoc([OPEN], name, [CLOSE] + rest);
    FlatLengthBehind(name, [CLOSE] + rest);
  }

  lemma OpenStep(rest: Text, key: Text, v: Text)
    requires Flat(key) && !(Pattern(key) <= [OPEN] + rest)
    ensures Replace([OPEN] + rest, Pattern(key), v) == [OPEN] + Replace(rest, Pattern(key), v)
  {
    assert ([OPEN] + rest)[1..] == rest;
  }

  lemma OtherHoleStep(name: Text, rest: Text, key: Text, v: Text)
    requires Flat(key) && Flat(name) && name != key
    ensures Replace(Pattern(name) + rest, Pattern(key), v) == Pattern(name) + Replace(rest, Pattern(key), v)
  {
    HoleClosesFirst(name, rest);
    var u := name + ([CLOSE] + rest);
    TakeInside(name, [CLOSE] + rest, |name|);
    if Pattern(key) <= [OPEN] + u {
      MatchClosesFirst(u, key);
    }
    OpenStep(u, key, v);
    ReplaceSkips(name, [CLOSE] + rest, key, v);
    ReplaceSkips([CLOSE], rest, key, v);
    HoleClosesFirst(name, Replace(rest, Pattern(key), v));
  }

  lemma SameHoleStep(rest: Text, key: Text, v: Text)
    ensures Replace(Pattern(key) + rest, Pattern(key), v) == v + Replace(rest, Pattern(key), v)
  {
    assert (Pattern(key) + rest)[|Pattern(key)|..] == rest;
  }

  /** A text or a placeholder in front is treated by itself. */
  lemma PieceStep(p: Piece, rest: Text, key: Text, v: Text)
    requires FlatPiece(p) && Flat(key) && !p.Opener?
    ensures Replace(RenderPiece(p) + rest, Pattern(key), v) == RenderPiece(FillPiece(p, key, v)) + Replace(rest, Pattern(key), v)
  {
    match p
    case Lit(text) => ReplaceSkips(text, rest, key, v);
    case Closer => ReplaceSkips([CLOSE], rest, key, v);
    case Hole(name) =>
      if name == key {
        SameHoleStep(rest, key, v);
      } else {
        OtherHoleStep(name, rest, key, v);
      }
  }

  lemma {:induction false} NoCloserFirst(pieces: seq<Piece>)
    requires FlatPieces(pieces) && Tidy(pieces, true)
    ensures !ClosesFirst(Render(pieces))
  {
    if pieces != [] && pieces[0].Lit? {
      NoCloserFirst(pieces[1..]);
      FlatLengthBehind(pieces[0].text, Render(pieces[1..]));
    }
  }

  /** On a tame template, replacing a pattern fills the placeholders of that name. */
  lemma {:induction false} ReplaceFillsOne(pieces: seq<Piece>, lone: bool, key: Text, v: Text)
    requires FlatPieces(pieces) && Tidy(pieces, lone) && Flat(key)
    ensures Replace(Render(pieces), Pattern(key), v) == Render(FillOne(pieces, key, v))
  {
    if pieces != [] {
      var p, rest := pieces[0], pieces[1..];
      ReplaceFillsOne(rest, lone || p.Opener?, key, v);
      RenderCons(FillPiece(p, key, v), FillOne(rest, key, v));
      if p.Opener? {
        NoCloserFirst(rest);
        LoneOpenStep(Render(rest), key, v);
      } else {
        PieceStep(p, Render(rest), key, v);
      }
    }
  }

  lemma LoneOpenStep(rest: Text, key: Text, v: Text)
    requires Flat(key) && !ClosesFirst(rest)
    ensures Replace([OPEN] + rest, Pattern(key), v) == [OPEN] + Replace(rest, Pattern(key), v)
  {
    if Pattern(key) <= [OPEN] + rest {
      MatchClosesFirst(rest, key);
    }
    OpenStep(rest, key, v);
  }

  lemma {:induction false} FillOneKeeps(pieces: seq<Piece>, lone: bool, key: Text, v: Text)
    requires FlatPieces(pieces) && Tidy(pieces, lone) && Flat(v)
    ensures FlatPieces(FillOne(pieces, key, v)) && Tidy(FillOne(pieces, key, v), lone)
  {
    if pieces != [] {
      FillOneKeeps(pieces[1..], lone || pieces[0].Opener?, key, v);
      RenderCons(FillPiece(pieces[0], key, v), FillOne(pieces[1..], key, v));
    }
  }

  lemma {:induction false} FillInsertsOne(pieces: seq<Piece>, values: map<Text, Text>, key: Text, v: Text)
    requires key !in values
    ensures FillOne(Fill(pieces, values), key, v) == Fill(pieces, values[key := v])
  {
    if pieces != [] {
      FillInsertsOne(pieces[1..], values, key, v);
      assert Fill(pieces, values)[1..] == Fill(pieces[1..], values);
    }
  }

  lemma {:induction false} FillNothing(pieces: seq<Piece>)
    ensures Fill(pieces, map[]) == pieces
  {
    if pieces != [] {
      FillNothing(pieces[1..]);
    }
  }

  // ----- the loop over the parameters -----

  predicate Rejected(value: Text) {
    || (exists i | 0 <= i < |value| - 1 :: value[i] == 0x2E && value[i + 1] == 0x2E)
    || 0x5C in value || 0x3F in value || 0x23 in value || 0 in value
  }

  /** Two dots in a row, if a dot stands before `s` or not. */
  predicate TwoDots(s: Text, after: bool) {
    s != [] && ((after && s[0] == '.' as int) || TwoDots(s[1..], s[0] == '.' as int))
  }

  lemma {:induction false} TwoDotsAt(s: Text, after: bool)
    ensures TwoDots(s, after) <==>
              (after && s != [] && s[0] == 0x2E) || exists i | 0 <= i < |s| - 1 :: s[i] == 0x2E && s[i + 1] == 0x2E
  {
    if s != [] {
      TwoDotsAt(s[1..], s[0] == 0x2E);
      if i :| 0 <= i < |s| - 1 && s[i] == 0x2E && s[i + 1] == 0x2E {
        assert i == 0 || (s[1..][i - 1] == 0x2E && s[1..][i] == 0x2E);
      }
      if i :| 0 <= i < |s[1..]| - 1 && s[1..][i] == 0x2E && s[1..][i + 1] == 0x2E {
        assert s[i + 1] == 0x2E && s[i + 2] == 0x2E;
      }
    }
  }

  lemma TwoDotsCons(b: Byte, rest: Text, after: bool)
    ensures TwoDots([b] + rest, after) <==> (after && b == 0x2E) || TwoDots(rest, b == 0x2E)
  {
    assert ([b] + rest)[1..] == rest;
  }

  lemma TwoDotsBehindByte(b: Byte, rest: Text, after: bool)
    ensures TwoDots(EncodeByte(b) + rest, after) <==> (after && b == 0x2E) || TwoDots(rest, b == 0x2E)
  {
    if IsUnreserved(b) {
      TwoDotsCons(b, rest, after);
    } else {
      var high, low := HexDigit(b / 16), HexDigit(b % 16);
      TwoDotsCons(low, rest, false);
      TwoDotsCons(high, [low] + rest, false);
      TwoDotsCons(PERCENT, [high] + ([low] + rest), after);
      assert EncodeByte(b) + rest == [PERCENT] + ([high] + ([low] + rest));
    }
  }

  lemma {:induction false} EncodedDots(s: Text, after: bool)
    ensures TwoDots(Encoded(s), after) <==> TwoDots(s, after)
  {
    if s != [] {
      EncodedFirst(s);
      TwoDotsBehindByte(s[0], Encoded(s[1..]), after);
      EncodedDots(s[1..], s[0] == 0x2E);
    }
  }

  /** What is rejected, in terms of what would be sent: two dots in a row in the encoded value, or a backslash, a
      question mark, a number sign or a zero byte in the value that it decodes to. */
  lemma RejectedExactly(value: Text)
    ensures Rejected(value) <==>
              || TwoDots(Encoded(value), false)
              || exists b | b in Decoded(Encoded(value)) :: b == '\\' as int || b == '?' as int || b == '#' as int || b == 0
  {
    TwoDotsAt(value, false);
    EncodedDots(value, false);
    DecodedEncoded(value);
  }

  /** One `replace` after the other, in the order of `keys`. */
  function FoldReplace(t: Text, keys: seq<Text>, args: map<Text, Text>): Text
    requires forall k | k in keys :: k in args
  {
    if keys == [] then t
    else
      var n := |keys| - 1;
      Replace(FoldReplace(t, keys[..n], args), Pattern(keys[n]), Encoded(args[keys[n]]))
  }

  function EncodedValues(keys: seq<Text>, args: map<Text, Text>): map<Text, Text>
    requires forall k | k in keys :: k in args
  {
    map k | k in keys :: Encoded(args[k])
  }

  ghost predicate Distinct(keys: seq<Text>) {
    forall i, j | 0 <= i < j < |keys| :: keys[i] != keys[j]
  }

  ghost predicate Enumerates(keys: seq<Text>, all: set<Text>) {
    Distinct(keys) && forall k :: k in keys <==> k in all
  }

  /** The simultaneous substitution of all encoded values. */
  function Substituted(t: Text, args: map<Text, Text>): Text {
    Render(Fill(Parse(t), map k | k in args :: Encoded(args[k])))
  }

  lemma FoldStep(pieces: seq<Piece>, values: map<Text, Text>, key: Text, value: Text)
    requires FlatPieces(Fill(pieces, values)) && Tidy(Fill(pieces, values), false) && key !in values && Flat(key)
    ensures var after := Fill(pieces, values[key := Encoded(value)]);
            && FlatPieces(after) && Tidy(after, false)
            && Replace(Render(Fill(pieces, values)), Pattern(key), Encoded(value)) == Render(after)
  {
    ReplaceFillsOne(Fill(pieces, values), false, key, Encoded(value));
    EncodedIsSafe(value);
    FillOneKeeps(Fill(pieces, values), false, key, Encoded(value));
    FillInsertsOne(pieces, values, key, Encoded(value));
  }

  lemma EncodedValuesSnoc(keys: seq<Text>, args: map<Text, Text>)
    requires keys != [] && (forall k | k in keys :: k in args) && Distinct(keys)
    ensures var front, key := keys[..|keys| - 1], keys[|keys| - 1];
            key !in EncodedValues(front, args)
            && EncodedValues(keys, args) == EncodedValues(front, args)[key := Encoded(args[key])]
  {
    assert keys == keys[..|keys| - 1] + [keys[|keys| - 1]];
  }

  lemma {:induction false} FoldFills(t: Text, keys: seq<Text>, args: map<Text, Text>)
    requires Tame(t) && Distinct(keys)
    requires forall k | k in keys :: k in args && Flat(k)
    ensures FlatPieces(Fill(Parse(t), EncodedValues(keys, args))) && Tidy(Fill(Parse(t), EncodedValues(keys, args)), false)
    ensures FoldReplace(t, keys, args) == Render(Fill(Parse(t), EncodedValues(keys, args)))
  {
    if keys == [] {
      FillNothing(Parse(t));
      RenderParse(t);
      assert EncodedValues(keys, args) == map[];
    } else {
      var n := |keys| - 1;
      FoldFills(t, keys[..n], args);
      EncodedValuesSnoc(keys, args);
      FoldStep(Parse(t), EncodedValues(keys[..n], args), keys[n], args[keys[n]]);
    }
  }

  /** Whatever order the map yields its keys in, on a tame template the fold is the simultaneous substitution. */
  lemma FoldIsSimultaneous(t: Text, keys: seq<Text>, args: map<Text, Text>)
    requires Tame(t) && Enumerates(keys, args.Keys)
    requires forall k | k in args :: Flat(k)
    ensures FoldReplace(t, keys, args) == Substituted(t, args)
  {
    FoldFills(t, keys, args);
    assert EncodedValues(keys, args) == map k | k in args :: Encoded(args[k]);
  }

  datatype PathError = InvalidPathParam(key: Text, value: Text)

  /** The loop takes the parameters in an order it does not control.  Whether it fails does not depend on
      that order, and on tame templates with brace-free names neither does the result. */
  method SubstitutePathParams(endpoint: Text, args: map<Text, Text>)
    returns (r: Result<Text, PathError>, ghost keys: seq<Text>)
    ensures r.Err? <==> exists k | k in args :: Rejected(args[k])
    ensures r.Err? ==> r.error.key in args && args[r.error.key] == r.error.value && Rejected(r.error.value)
    ensures r.Ok? ==> forall k | k in args :: !TwoDots(Encoded(args[k]), false)
    ensures r.Ok? ==> Enumerates(keys, args.Keys) && r.value == FoldReplace(endpoint, keys, args)
    ensures r.Ok? && Tame(endpoint) && (forall k | k in args :: Flat(k)) ==> r.value == Substituted(endpoint, args)
  {
    var result := endpoint;
    var pending := args.Keys;
    keys := [];
    while pending != {}
      invariant pending <= args.Keys
      invariant Enumerates(keys, args.Keys - pending)
      invariant forall k | k in args && k !in pending :: !Rejected(args[k])
      invariant result == FoldReplace(endpoint, keys, args)
    {
      var key :| key in pending;
      var value := args[key];
      if Rejected(value) {
        return Err(InvalidPathParam(key, value)), keys;
      }
      var encoded := PercentEncodePathSegment(value);
      result := Replace(result, Pattern(key), encoded);
      assert (keys + [key])[..|keys|] == keys;
      keys := keys + [key];
      pending := pending - {key};
    }
    assert args.Keys - pending == args.Keys;
    forall k | k in args ensures !TwoDots(Encoded(args[k]), false) {
      RejectedExactly(args[k]);
    }
    if Tame(endpoint) && (forall k | k in args :: Flat(k)) {
      FoldIsSimultaneous(endpoint, keys, args);
    }
    r := Ok(result);
  }

  // ----- what the substitution keeps -----

  function SeparatorOrNone(b: Byte): Text {
    if b == 0x2F || b == 0x3F || b == 0x23 then [b] else []
  }

  /** The `/`, `?` and `#` of a text, in order. */
  function Separators(s: Text): Text {
    if s == [] then []
    else SeparatorOrNone(s[0]) + Separators(s[1..])
  }

  lemma {:induction false} SeparatorsConcat(a: Text, b: Text)
    ensures Separators(a + b) == Separators(a) + Separators(b)
  {
    if a == [] {
      assert a + b == b;
    } else {
      var s := a + b;
      assert s[1..] == a[1..] + b && s[0] == a[0];
      SeparatorsConcat(a[1..], b);
      Assoc(SeparatorOrNone(a[0]), Separators(a[1..]), Separators(b));
    }
  }

  lemma {:induction false} NoSeparators(s: Text)
    requires 0x2F !in s && 0x3F !in s && 0x23 !in s
    ensures Separators(s) == []
  {
    if s != [] {
      NoSeparators(s[1..]);
    }
  }

  lemma PatternSeparators(name: Text)
    ensures Separators(Pattern(name)) == Separators(name)
  {
    SeparatorsConcat([OPEN] + name, [CLOSE]);
    SeparatorsConcat([OPEN], name);
    NoSeparators([OPEN]);
    NoSeparators([CLOSE]);
  }

  lemma {:induction false} ReplaceKeepsSeparators(s: Text, pattern: Text, v: Text)
    requires pattern != [] && Separators(pattern) == [] && Separators(v) == []
    ensures Separators(Replace(s, pattern, v)) == Separators(s)
  {
    if s != [] {
      if pattern <= s {
        var rest := s[|pattern|..];
        ReplaceKeepsSeparators(rest, pattern, v);
        SeparatorsConcat(v, Replace(rest, pattern, v));
        SeparatorsConcat(pattern, rest);
        assert s == pattern + rest;
      } else {
        ReplaceKeepsSeparators(s[1..], pattern, v);
        SeparatorsConcat([s[0]], Replace(s[1..], pattern, v));
        SeparatorsConcat([s[0]], s[1..]);
        assert s == [s[0]] + s[1..];
      }
    }
  }

  /** On any template and in any order, no value adds or removes a path segment, a query or a fragment. */
  lemma {:induction false} SubstitutionKeepsSeparators(t: Text, keys: seq<Text>, args: map<Text, Text>)
    requires forall k | k in keys :: k in args && Separators(k) == []
    ensures Separators(FoldReplace(t, keys, args)) == Separators(t)
  {
    if keys != [] {
      var n := |keys| - 1;
      SubstitutionKeepsSeparators(t, keys[..n], args);
      EncodedIsSafe(args[keys[n]]);
      NoSeparators(Encoded(args[keys[n]]));
      PatternSeparators(keys[n]);
      ReplaceKeepsSeparators(FoldReplace(t, keys[..n], args), Pattern(keys[n]), Encoded(args[keys[n]]));
    }
  }

  lemma ParseFlat(t: Text)
    requires Flat(t)
    ensures Parse(t) == [Lit(t)]
  {
    FlatLengthBehind(t, []);
    assert t + [] == t;
  }

  lemma FirstBrace(a: Text, u: Text)
    requires Flat(a)
    ensures var t := a + ([OPEN] + u);
            FlatLength(t) == |a| && t[|a|] == OPEN && t[..|a|] == a && Tail(t) == u
  {
    FlatLengthBehind(a, [OPEN] + u);
    assert FlatLength([OPEN] + u) == 0;
    TakeBehind(a, [OPEN] + u, 0);
    DropBehind(a, [OPEN] + u, 1);
  }

  lemma CloserEndsName(name: Text, b: Text)
    requires Flat(name)
    ensures var u := name + ([CLOSE] + b);
            ClosesFirst(u) && OpenPiece(u) == Hole(name) && AfterOpen(u) == b
  {
    FlatLengthBehind(name, [CLOSE] + b);
    assert FlatLength([CLOSE] + b) == 0;
    TakeBehind(name, [CLOSE] + b, 0);
    DropBehind(name, [CLOSE] + b, 1);
  }

  lemma ParseOneHole(a: Text, name: Text, b: Text)
    requires Flat(a) && Flat(name) && Flat(b)
    ensures Parse(a + (Pattern(name) + b)) == [Lit(a), Hole(name), Lit(b)]
  {
    var u := name + ([CLOSE] + b);
    HoleClosesFirst(name, b);
    FirstBrace(a, u);
    CloserEndsName(name, b);
    ParseFlat(b);
    assert Parse(a + ([OPEN] + u)) == [Lit(a), Hole(name)] + Parse(b);
  }

  /** The plainest case, in bytes: `a{name}b` becomes `a`, the encoded value, `b`. */
  lemma OneHoleIsFilled(a: Text, name: Text, b: Text, value: Text)
    requires forall c | c in a + (name + b) :: c != 0x7B && c != 0x7D
    ensures Substituted(a + (([0x7B] + name + [0x7D]) + b), map[name := value]) == a + (Encoded(value) + b)
  {
    assert forall c | c in a :: c in a + (name + b);
    assert forall c | c in name + b :: c in a + (name + b);
    assert forall c | c in name :: c in name + b;
    assert forall c | c in b :: c in name + b;
    ParseOneHole(a, name, b);
    var values := map k | k in map[name := value] :: Encoded(map[name := value][k]);
    FillThree(a, name, b, values);
  }

  lemma FillThree(a: Text, name: Text, b: Text, values: map<Text, Text>)
    requires name in values
    ensures Render(Fill([Lit(a), Hole(name), Lit(b)], values)) == a + (values[name] + b)
  {
    var pieces := [Lit(a), Hole(name), Lit(b)];
    assert pieces[1..] == [Hole(name), Lit(b)] && pieces[1..][1..] == [Lit(b)] && [Lit(b)][1..] == [];
    assert Fill([], values) == [];
    assert Fill([Lit(b)], values) == [Lit(b)];
    assert Fill([Hole(name), Lit(b)], values) == [Lit(values[name]), Lit(b)];
    RenderCons(Lit(b), []);
    RenderCons(Lit(values[name]), [Lit(b)]);
    RenderCons(Lit(a), [Lit(values[name]), Lit(b)]);
    assert Render([]) == [] && b + [] == b;
  }

  // ----- which arguments a substitution uses -----

  /** The number of opening braces. */
  function Opens(s: Text): nat {
    if s == [] then 0 else (if s[0] == OPEN then 1 else 0) + Opens(s[1..])
  }

  lemma {:induction false} OpensConcat(a: Text, b: Text)
    ensures Opens(a + b) == Opens(a) + Opens(b)
  {
    if a == [] {
      assert a + b == b;
    } else {
      assert (a + b)[1..] == a[1..] + b;
      OpensConcat(a[1..], b);
    }
  }

  lemma {:induction false} FlatOpensNothing(s: Text)
    requires Flat(s)
    ensures Opens(s) == 0
  {
    if s != [] {
      FlatOpensNothing(s[1..]);
    }
  }

  lemma PatternOpensOnce(name: Text)
    requires Flat(name)
    ensures Opens(Pattern(name)) == 1
  {
    OpensConcat([OPEN] + name, [CLOSE]);
    OpensConcat([OPEN], name);
    FlatOpensNothing(name);
    assert Opens([OPEN]) == 1 && Opens([CLOSE]) == 0;
  }

  function HolesNamed(pieces: seq<Piece>, key: Text): nat {
    if pieces == [] then 0 else (if pieces[0] == Hole(key) then 1 else 0) + HolesNamed(pieces[1..], key)
  }

  lemma {:induction false} HolesNamedExactlyIfIn(pieces: seq<Piece>, key: Text)
    ensures HolesNamed(pieces, key) > 0 <==> Hole(key) in pieces
  {
    if pieces != [] {
      HolesNamedExactlyIfIn(pieces[1..], key);
    }
  }

  lemma FillFromOpens(p: Piece, values: map<Text, Text>, key: Text)
    requires FlatPiece(p) && key in values && Flat(values[key])
    ensures Opens(RenderPiece(FillFrom(p, values - {key}))) ==
              Opens(RenderPiece(FillFrom(p, values))) + if p == Hole(key) then 1 else 0
  {
    if p == Hole(key) {
      PatternOpensOnce(key);
      FlatOpensNothing(values[key]);
    }
  }

  /** Each placeholder that is not filled leaves its brace. */
  lemma {:induction false} UnfilledOpens(pieces: seq<Piece>, values: map<Text, Text>, key: Text)
    requires FlatPieces(pieces) && key in values && Flat(values[key])
    ensures Opens(Render(Fill(pieces, values - {key}))) == Opens(Render(Fill(pieces, values))) + HolesNamed(pieces, key)
  {
    if pieces != [] {
      var p, rest := pieces[0], pieces[1..];
      UnfilledOpens(rest, values, key);
      FillFromOpens(p, values, key);
      RenderCons(FillFrom(p, values), Fill(rest, values));
      RenderCons(FillFrom(p, values - {key}), Fill(rest, values - {key}));
      OpensConcat(RenderPiece(FillFrom(p, values)), Render(Fill(rest, values)));
      OpensConcat(RenderPiece(FillFrom(p, values - {key})), Render(Fill(rest, values - {key})));
    }
  }

  lemma {:induction false} FillWithout(pieces: seq<Piece>, values: map<Text, Text>, key: Text)
    requires HolesNamed(pieces, key) == 0
    ensures Fill(pieces, values - {key}) == Fill(pieces, values)
  {
    if pieces != [] {
      FillWithout(pieces[1..], values, key);
    }
  }

  /** An argument makes a difference to the path exactly if the template has a placeholder of its name. */
  lemma ArgumentIsUsedExactlyIfItHasAHole(t: Text, args: map<Text, Text>, key: Text)
    requires key in args
    ensures Substituted(t, args) != Substituted(t, args - {key}) <==> Hole(key) in Parse(t)
  {
    var values := map k | k in args :: Encoded(args[k]);
    assert values - {key} == map k | k in args - {key} :: Encoded((args - {key})[k]);
    HolesNamedExactlyIfIn(Parse(t), key);
    RenderParse(t);
    EncodedIsSafe(args[key]);
    UnfilledOpens(Parse(t), values, key);
    if HolesNamed(Parse(t), key) == 0 {
      FillWithout(Parse(t), values, key);
    }
  }
}
