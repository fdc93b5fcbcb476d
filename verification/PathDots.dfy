/**
 Two dots in a row in a substituted path.  No accepted value has them, but single dots can meet: with each other
 where placeholders stand side by side, or with a dot of the template.
 */
module PathDots {
  import opened Base
  import opened PathTemplate
  import opened PathOrder

  predicate EndsInDot(s: Text, after: bool) {
    if s == [] then after else s[|s| - 1] == 0x2E
  }

  lemma {:induction false} TwoDotsConcat(a: Text, b: Text, after: bool)
    ensures TwoDots(a + b, after) <==> TwoDots(a, after) || TwoDots(b, EndsInDot(a, after))
  {
    if a == [] {
      assert a + b == b;
    } else {
      assert (a + b)[1..] == a[1..] + b;
      TwoDotsConcat(a[1..], b, a[0] == 0x2E);
    }
  }

  lemma FewerDots(s: Text, after: bool)
    ensures TwoDots(s, false) ==> TwoDots(s, after)
    ensures EndsInDot(s, false) ==> EndsInDot(s, after)
  {
  }

  function Dot(): Text {
    [0x2E]
  }

  /** Every placeholder is filled with a dot. */
  predicate AllDots(pieces: seq<Piece>, dots: map<Text, Text>) {
    pieces == [] || ((pieces[0].Hole? ==> pieces[0].name in dots && dots[pieces[0].name] == Dot()) && AllDots(pieces[1..], dots))
  }

  ghost predicate NoValueHasTwoDots(values: map<Text, Text>) {
    forall k | k in values :: !TwoDots(values[k], false)
  }

  lemma PatternDots(name: Text, after: bool)
    ensures TwoDots(Pattern(name), after) <==> TwoDots(Pattern(name), false)
    ensures !EndsInDot(Pattern(name), after)
  {
    assert Pattern(name)[0] == OPEN;
  }

  /** One piece: if neither the template nor the dots make two dots in a row here, no values do. */
  lemma PieceDots(p: Piece, values: map<Text, Text>, dots: map<Text, Text>, after: bool, afterDots: bool)
    requires NoValueHasTwoDots(values) && (after ==> afterDots)
    requires p.Hole? ==> p.name in dots && dots[p.name] == Dot()
    requires !TwoDots(RenderPiece(p), false) && !TwoDots(RenderPiece(FillFrom(p, dots)), afterDots)
    ensures !TwoDots(RenderPiece(FillFrom(p, values)), after)
    ensures EndsInDot(RenderPiece(FillFrom(p, values)), after) ==> EndsInDot(RenderPiece(FillFrom(p, dots)), afterDots)
  {
    if p.Hole? {
      PatternDots(p.name, after);
    } else {
      FewerDots(RenderPiece(p), afterDots);
    }
  }

  lemma TemplateDots(p: Piece, rest: Text)
    requires !TwoDots(RenderPiece(p) + rest, false)
    ensures !TwoDots(RenderPiece(p), false) && !TwoDots(rest, false)
  {
    TwoDotsConcat(RenderPiece(p), rest, false);
    FewerDots(rest, EndsInDot(RenderPiece(p), false));
  }

  lemma {:induction false} NoDotsMeet(pieces: seq<Piece>, values: map<Text, Text>, dots: map<Text, Text>, after: bool, afterDots: bool)
    requires NoValueHasTwoDots(values) && AllDots(pieces, dots) && (after ==> afterDots)
    requires !TwoDots(Render(pieces), false) && !TwoDots(Render(Fill(pieces, dots)), afterDots)
    ensures !TwoDots(Render(Fill(pieces, values)), after)
  {
    if pieces != [] {
      var p, rest := pieces[0], pieces[1..];
      var d, v := RenderPiece(FillFrom(p, dots)), RenderPiece(FillFrom(p, values));
      RenderCons(FillFrom(p, dots), Fill(rest, dots));
      RenderCons(FillFrom(p, values), Fill(rest, values));
      TemplateDots(p, Render(rest));
      TwoDotsConcat(d, Render(Fill(rest, dots)), afterDots);
      PieceDots(p, values, dots, after, afterDots);
      NoDotsMeet(rest, values, dots, EndsInDot(v, after), EndsInDot(d, afterDots));
      TwoDotsConcat(v, Render(Fill(rest, values)), after);
    }
  }

  /** The argument that makes most dots: one for each placeholder. */
  function DotArgs(t: Text): map<Text, Text> {
    map k | k in Names(Parse(t)) :: Dot()
  }

  lemma {:induction false} NamesAreDots(pieces: seq<Piece>, dots: map<Text, Text>)
    requires forall k | k in Names(pieces) :: k in dots && dots[k] == Dot()
    ensures AllDots(pieces, dots)
  {
    if pieces != [] {
      NamesAreDots(pieces[1..], dots);
    }
  }

  lemma DotIsAccepted()
    ensures !Rejected(Dot()) && Encoded(Dot()) == Dot()
  {
    assert Dot()[..0] == [] && Encoded([]) == [];
  }

  lemma DotArgsAreAccepted(t: Text)
    ensures AllAccepted(DotArgs(t))
    ensures AllDots(Parse(t), map k | k in DotArgs(t) :: Encoded(DotArgs(t)[k]))
  {
    DotIsAccepted();
    RenderParse(t);
    forall k | k in DotArgs(t) ensures Flat(k) {
      NameOfPiece(Parse(t), k);
    }
    NamesAreDots(Parse(t), map k | k in DotArgs(t) :: Encoded(DotArgs(t)[k]));
  }

  lemma AcceptedHasNoTwoDots(args: map<Text, Text>)
    requires AllAccepted(args)
    ensures NoValueHasTwoDots(map k | k in args :: Encoded(args[k]))
  {
    forall k | k in args ensures !TwoDots(Encoded(args[k]), false) {
      RejectedExactly(args[k]);
    }
  }

  lemma NothingSubstituted(t: Text)
    ensures Substituted(t, map[]) == t
  {
    RenderParse(t);
    FillNothing(Parse(t));
    var none: map<Text, Text> := map[];
    assert (map k | k in none :: Encoded(none[k])) == none;
  }

  lemma DotsStayApart(t: Text, args: map<Text, Text>)
    requires !TwoDots(t, false) && !TwoDots(Substituted(t, DotArgs(t)), false) && AllAccepted(args)
    ensures !TwoDots(Substituted(t, args), false)
  {
    RenderParse(t);
    DotArgsAreAccepted(t);
    AcceptedHasNoTwoDots(args);
    NoDotsMeet(Parse(t), map k | k in args :: Encoded(args[k]), map k | k in DotArgs(t) :: Encoded(DotArgs(t)[k]), false, false);
  }

  /** On a template, no accepted arguments put two dots in a row into the path if and only if the template has none
      and a dot for every placeholder makes none. */
  lemma NoTwoDotsExactlyIfDotsStayApart(t: Text)
    ensures (forall args | AllAccepted(args) :: !TwoDots(Substituted(t, args), false)) <==>
              !TwoDots(t, false) && !TwoDots(Substituted(t, DotArgs(t)), false)
  {
    if !TwoDots(t, false) && !TwoDots(Substituted(t, DotArgs(t)), false) {
      forall args | AllAccepted(args) ensures !TwoDots(Substituted(t, args), false) {
        DotsStayApart(t, args);
      }
    } else {
      NothingSubstituted(t);
      DotArgsAreAccepted(t);
      var none: map<Text, Text> := map[];
      assert AllAccepted(none);
    }
  }

  /** The same for the loop, in whatever order it takes the arguments. */
  lemma PathHasNoTwoDots(t: Text, keys: seq<Text>, args: map<Text, Text>)
    requires Tame(t) && AllAccepted(args) && Enumerates(keys, args.Keys)
    requires !TwoDots(t, false) && !TwoDots(Substituted(t, DotArgs(t)), false)
    ensures !TwoDots(FoldReplace(t, keys, args), false)
  {
    FoldIsSimultaneous(t, keys, args);
    DotsStayApart(t, args);
  }

  /** A dot before a placeholder meets the value `.`, which is accepted. */
  lemma DotMeetsDot(a: Text, name: Text, b: Text)
    requires Flat(a) && Flat(name) && Flat(b)
    ensures !Rejected([0x2E])
    ensures TwoDots(Substituted((a + [0x2E]) + (([0x7B] + name + [0x7D]) + b), map[name := [0x2E]]), false)
  {
    DotIsAccepted();
    OneHoleIsFilled(a + [0x2E], name, b, [0x2E]);
    var s := (a + [0x2E]) + ([0x2E] + b);
    TwoDotsAt(s, false);
    assert s[|a|] == 0x2E && s[|a| + 1] == 0x2E;
  }
}
