/**
 A saved plan step is run by printing its arguments as command-line words and parsing those words again.
 This module says exactly which arguments survive that.
 */
module PlanArgs {
  import opened Base
  import opened SchemaResolution

  type Parser = string -> Option<Json>
  type Printer = Json -> string
  type Args = map<string, Json>

  // ----- words -----

  predicate IsFlag(word: string) {
    |word| >= 2 && word[0] == '-' && word[1] == '-'
  }

  function Flag(key: string): string {
    ['-', '-'] + key
  }

  /** `trim_start_matches("--")` removes every leading pair of dashes. */
  function Trim(word: string): string {
    if IsFlag(word) then Trim(word[2..]) else word
  }

  /** Global flags, and those that come with a value. */
  predicate Global(word: string) {
    word == "-J" || word == "--json" || word == "--verbose"
  }

  predicate GlobalPair(word: string) {
    word == "--output" || word == "--format"
  }

  predicate Reserved(key: string) {
    key == "json" || key == "verbose" || key == "output" || key == "format"
  }

  function Filter(words: seq<string>): seq<string> {
    if words == [] then []
    else if Global(words[0]) then Filter(words[1..])
    else if GlobalPair(words[0]) then Filter(words[Min(2, |words|)..])
    else [words[0]] + Filter(words[1..])
  }

  /** A word is read as JSON if it is JSON, and as a plain string otherwise. */
  function ValueOf(word: string, parse: Parser): Json {
    if parse(word).Some? then parse(word).value else Str(word)
  }

  datatype ParseError = EmptyKey

  function ParseFlags(words: seq<string>, args: Args, parse: Parser): Result<Args, ParseError> {
    if words == [] then Ok(args)
    else if !IsFlag(words[0]) then ParseFlags(words[1..], args, parse)
    else if Trim(words[0]) == "" then Err(EmptyKey)
    else if |words| > 1 && !IsFlag(words[1]) then
      ParseFlags(words[2..], args[Trim(words[0]) := ValueOf(words[1], parse)], parse)
    else ParseFlags(words[1..], args[Trim(words[0]) := Bool(true)], parse)
  }

  function Parsed(words: seq<string>, parse: Parser): Result<Args, ParseError> {
    ParseFlags(Filter(words), map[], parse)
  }

  lemma FilterAt(words: seq<string>, i: nat)
    requires i < |words|
    ensures Filter(words[i..]) ==
            if Global(words[i]) then Filter(words[i + 1..])
            else if GlobalPair(words[i]) then Filter(words[Min(i + 2, |words|)..])
            else [words[i]] + Filter(words[i + 1..])
  {
    DropDrop(words, i, 1);
    DropDrop(words, i, Min(2, |words| - i));
  }

  method FilterGlobals(words: seq<string>) returns (kept: seq<string>)
    ensures kept == Filter(words)
  {
    kept := [];
    var i := 0;
    while i < |words|
      invariant kept + Filter(words[Min(i, |words|)..]) == Filter(words)
    {
      FilterAt(words, i);
      if Global(words[i]) {
        i := i + 1;
      } else if GlobalPair(words[i]) {
        i := i + 2;
      } else {
        Assoc(kept, [words[i]], Filter(words[i + 1..]));
        kept := kept + [words[i]];
        i := i + 1;
      }
    }
  }

  method ParseToolArgs(words: seq<string>, parse: Parser) returns (r: Result<Args, ParseError>)
    ensures r == Parsed(words, parse)
  {
    var filtered := FilterGlobals(words);
    var args: Args := map[];
    var i := 0;
    while i < |filtered|
      invariant i <= |filtered|
      invariant ParseFlags(filtered[i..], args, parse) == Parsed(words, parse)
    {
      var rest := filtered[i..];
      assert rest[1..] == filtered[i + 1..];
      if IsFlag(filtered[i]) {
        var key := Trim(filtered[i]);
        if key == "" {
          return Err(EmptyKey);
        }
        if i + 1 < |filtered| && !IsFlag(filtered[i + 1]) {
          assert rest[2..] == filtered[i + 2..];
          args := args[key := ValueOf(filtered[i + 1], parse)];
          i := i + 2;
        } else {
          args := args[key := Bool(true)];
          i := i + 1;
        }
      } else {
        i := i + 1;
      }
    }
    r := Ok(args);
  }

  // ----- printing -----

  function Text(v: Json, dump: Printer): string {
    if v.Str? then v.text else dump(v)
  }

  function Printed(order: seq<string>, args: Args, dump: Printer): seq<string>
    requires forall k | k in order :: k in args
  {
    if order == [] then []
    else [Flag(order[0]), Text(args[order[0]], dump)] + Printed(order[1..], args, dump)
  }

  ghost predicate Enumerates(order: seq<string>, args: Args) {
    && (forall i, j | 0 <= i < j < |order| :: order[i] != order[j])
    && forall k :: k in order <==> k in args
  }

  lemma {:induction false} PrintedSnoc(order: seq<string>, key: string, args: Args, dump: Printer)
    requires (forall k | k in order :: k in args) && key in args
    ensures Printed(order + [key], args, dump) == Printed(order, args, dump) + [Flag(key), Text(args[key], dump)]
  {
    if order == [] {
      assert Printed([], args, dump) == [];
      assert ([] + [key])[1..] == [];
    } else {
      assert (order + [key])[1..] == order[1..] + [key];
      PrintedSnoc(order[1..], key, args, dump);
    }
  }

  /** The arguments are printed in the arbitrary order of a hash map. */
  method PrintArgs(args: Args, dump: Printer) returns (words: seq<string>)
    ensures exists order | Enumerates(order, args) :: words == Printed(order, args, dump)
  {
    words := [];
    ghost var order: seq<string> := [];
    var pending := args.Keys;
    while pending != {}
      invariant pending <= args.Keys
      invariant forall i, j | 0 <= i < j < |order| :: order[i] != order[j]
      invariant forall k :: k in order <==> k in args && k !in pending
      invariant words == Printed(order, args, dump)
    {
      var key :| key in pending;
      PrintedSnoc(order, key, args, dump);
      words := words + [Flag(key)];
      if args[key].Str? {
        words := words + [args[key].text];
      } else {
        words := words + [dump(args[key])];
      }
      order := order + [key];
      pending := pending - {key};
    }
    assert Enumerates(order, args);
  }

  // ----- what survives -----

  /** What is taken for granted about the JSON text of these arguments: whatever is not a string prints to a word
      that reads as something that is not a string, and a string literal is longer than the string it stands for. */
  ghost predicate JsonText(args: Args, parse: Parser, dump: Printer) {
    forall k | k in args :: if args[k].Str? then ReadsShorter(args[k].text, parse) else PrintsPlainly(args[k], parse, dump)
  }

  predicate ReadsShorter(word: string, parse: Parser) {
    parse(word).Some? && parse(word).value.Str? ==> |parse(word).value.text| < |word|
  }

  predicate PrintsPlainly(v: Json, parse: Parser, dump: Printer) {
    !IsFlag(dump(v)) && dump(v) != "-J" && parse(dump(v)).Some? && !parse(dump(v)).value.Str?
  }

  predicate GoodKey(key: string) {
    key != "" && !IsFlag(key) && !Reserved(key)
  }

  /** A string survives if it is neither JSON nor a flag; anything else if it reads back as itself. */
  predicate GoodValue(v: Json, parse: Parser, dump: Printer) {
    if v.Str? then parse(v.text).None? && !IsFlag(v.text) && v.text != "-J"
    else parse(dump(v)) == Some(v)
  }

  /** The same two conditions in words alone. */
  lemma GoodInWords(key: string, text: string, v: Json, parse: Parser, dump: Printer)
    ensures GoodKey(key) <==>
              && key != "" && !("--" <= key)
              && key != "json" && key != "verbose" && key != "output" && key != "format"
    ensures GoodValue(Str(text), parse, dump) <==> parse(text).None? && !("--" <= text) && text != "-J"
    ensures !v.Str? ==> (GoodValue(v, parse, dump) <==> parse(dump(v)) == Some(v))
  {
    DashesArePrefix(key);
    DashesArePrefix(text);
  }

  lemma DashesArePrefix(word: string)
    ensures IsFlag(word) <==> "--" <= word
  {
    if |word| >= 2 {
      assert word[..2] == [word[0], word[1]];
    }
  }

  lemma FlagIsReserved(key: string)
    ensures IsFlag(Flag(key))
    ensures Global(Flag(key)) || GlobalPair(Flag(key)) <==> Reserved(key)
  {
    assert Flag(key)[2..] == key;
    assert Flag("json") == "--json" && Flag("verbose") == "--verbose";
    assert Flag("output") == "--output" && Flag("format") == "--format";
  }

  lemma TrimFlag(key: string)
    requires !IsFlag(key)
    ensures Trim(Flag(key)) == key
  {
    assert Flag(key)[2..] == key;
  }

  /** A word that is read as the value of the flag before it. */
  predicate Plain(word: string) {
    !IsFlag(word) && word != "-J"
  }

  lemma PlainIsKept(word: string)
    requires Plain(word)
    ensures !Global(word) && !GlobalPair(word)
  {
    assert IsFlag("--json") && IsFlag("--verbose") && IsFlag("--output") && IsFlag("--format");
  }

  function Readings(args: Args, order: seq<string>, all: Args, parse: Parser, dump: Printer): Args
    requires forall k | k in order :: k in all
    decreases |order|
  {
    if order == [] then args
    else Readings(args[order[0] := ValueOf(Text(all[order[0]], dump), parse)], order[1..], all, parse, dump)
  }

  lemma FilterPair(key: string, word: string, rest: seq<string>)
    requires GoodKey(key) && Plain(word)
    ensures Filter([Flag(key), word] + rest) == [Flag(key), word] + Filter(rest)
  {
    FlagIsReserved(key);
    PlainIsKept(word);
    var words := [Flag(key), word] + rest;
    assert words[1..] == [word] + rest && words[1..][1..] == rest;
  }

  lemma ParsePair(key: string, word: string, rest: seq<string>, args: Args, parse: Parser)
    requires GoodKey(key) && Plain(word)
    ensures ParseFlags([Flag(key), word] + rest, args, parse) == ParseFlags(rest, args[key := ValueOf(word, parse)], parse)
  {
    FlagIsReserved(key);
    TrimFlag(key);
    var words := [Flag(key), word] + rest;
    assert words[2..] == rest;
  }

  /** A flag with nothing behind it, or with another flag, is `true`. */
  lemma BareFlagIsTrue(key: string, rest: seq<string>, args: Args, parse: Parser)
    requires GoodKey(key) && (rest == [] || "--" <= rest[0])
    ensures ParseFlags(["--" + key] + rest, args, parse) == ParseFlags(rest, args[key := Bool(true)], parse)
  {
    FlagIsReserved(key);
    TrimFlag(key);
    if rest != [] {
      DashesArePrefix(rest[0]);
    }
    assert "--" + key == Flag(key);
    var words := [Flag(key)] + rest;
    assert words[1..] == rest;
  }

  /** A flag takes the word behind it: as JSON if it is JSON, and else as text. */
  lemma FlagTakesWord(key: string, word: string, rest: seq<string>, args: Args, parse: Parser)
    requires GoodKey(key) && !("--" <= word) && word != "-J"
    ensures ParseFlags(["--" + key, word] + rest, args, parse) ==
              ParseFlags(rest, args[key := if parse(word).Some? then parse(word).value else Str(word)], parse)
  {
    DashesArePrefix(word);
    ParsePair(key, word, rest, args, parse);
    assert "--" + key == Flag(key);
  }

  /** Dashes alone name nothing, and a word that no flag takes is passed over. */
  lemma EmptyKeyIsAnError(word: string, rest: seq<string>, args: Args, parse: Parser)
    ensures ParseFlags(["--"] + rest, args, parse) == Err(EmptyKey)
    ensures !("--" <= word) ==> ParseFlags([word] + rest, args, parse) == ParseFlags(rest, args, parse)
    ensures ParseFlags([], args, parse) == Ok(args)
  {
    DashesArePrefix(word);
    assert "--"[2..] == "";
    assert ([word] + rest)[1..] == rest;
  }

  /** The global flags go, two of them with the word behind them. */
  lemma GlobalsAreDropped(word: string, rest: seq<string>)
    ensures Filter(["-J"] + rest) == Filter(["--json"] + rest) == Filter(["--verbose"] + rest) == Filter(rest)
    ensures Filter(["--output", word] + rest) == Filter(["--format", word] + rest) == Filter(rest)
    ensures Filter(["--output"]) == Filter(["--format"]) == []
  {
    assert (["-J"] + rest)[1..] == (["--json"] + rest)[1..] == (["--verbose"] + rest)[1..] == rest;
    assert (["--output", word] + rest)[2..] == (["--format", word] + rest)[2..] == rest;
    GlobalPairsAreNoGlobals();
  }

  lemma GlobalPairsAreNoGlobals()
    ensures !Global("--output") && !Global("--format")
    ensures |"--output"| == |"--format"| == 8
  {
    assert |"-J"| == 2 && |"--json"| == 6 && |"--verbose"| == 9;
  }

  lemma {:induction false} GoodWordsAreRead(order: seq<string>, all: Args, args: Args, parse: Parser, dump: Printer)
    requires forall k | k in order :: k in all && GoodKey(k) && Plain(Text(all[k], dump))
    ensures Filter(Printed(order, all, dump)) == Printed(order, all, dump)
    ensures ParseFlags(Printed(order, all, dump), args, parse) == Ok(Readings(args, order, all, parse, dump))
    decreases |order|
  {
    if order != [] {
      var key, rest := order[0], Printed(order[1..], all, dump);
      var word := Text(all[key], dump);
      FilterPair(key, word, rest);
      ParsePair(key, word, rest, args, parse);
      GoodWordsAreRead(order[1..], all, args[key := ValueOf(word, parse)], parse, dump);
    }
  }

  lemma {:induction false} ReadingAt(args: Args, order: seq<string>, all: Args, parse: Parser, dump: Printer, key: string)
    requires forall k | k in order :: k in all
    ensures var r := Readings(args, order, all, parse, dump);
            if key in order then key in r && r[key] == ValueOf(Text(all[key], dump), parse)
            else (key in r <==> key in args) && (key in args ==> r[key] == args[key])
    decreases |order|
  {
    if order != [] {
      ReadingAt(args[order[0] := ValueOf(Text(all[order[0]], dump), parse)], order[1..], all, parse, dump, key);
    }
  }

  // ----- where the parts of a parsed map come from -----

  lemma {:induction false} KeptWord(words: seq<string>, word: string)
    requires word in Filter(words)
    ensures word in words && !Global(word) && !GlobalPair(word)
  {
    if Global(words[0]) {
      KeptWord(words[1..], word);
    } else if GlobalPair(words[0]) {
      KeptWord(words[Min(2, |words|)..], word);
    } else if word != words[0] {
      KeptWord(words[1..], word);
    }
  }

  lemma {:induction false} TrimmedIsNoFlag(word: string)
    ensures !IsFlag(Trim(word))
    decreases |word|
  {
    if IsFlag(word) {
      TrimmedIsNoFlag(word[2..]);
    }
  }

  predicate ComesFrom(words: seq<string>, key: string, value: Json, flag: string, word: string, parse: Parser) {
    && flag in words && IsFlag(flag) && Trim(flag) == key && key != ""
    && (value == Bool(true) || (word in words && !IsFlag(word) && value == ValueOf(word, parse)))
  }

  /** Every pair of the result was there before or comes from a flag and the word after it. */
  lemma {:induction false} Origin(words: seq<string>, args: Args, parse: Parser, key: string)
    returns (found: bool, flag: string, word: string)
    requires ParseFlags(words, args, parse).Ok? && key in ParseFlags(words, args, parse).value
    ensures var r := ParseFlags(words, args, parse).value;
            if found then ComesFrom(words, key, r[key], flag, word, parse)
            else key in args && r[key] == args[key]
    decreases |words|
  {
    if words == [] {
      found, flag, word := false, "", "";
    } else if !IsFlag(words[0]) {
      found, flag, word := Origin(words[1..], args, parse, key);
    } else if |words| > 1 && !IsFlag(words[1]) {
      found, flag, word := Origin(words[2..], args[Trim(words[0]) := ValueOf(words[1], parse)], parse, key);
      if !found && key == Trim(words[0]) {
        found, flag, word := true, words[0], words[1];
      }
    } else {
      found, flag, word := Origin(words[1..], args[Trim(words[0]) := Bool(true)], parse, key);
      if !found && key == Trim(words[0]) {
        found, flag, word := true, words[0], "";
      }
    }
  }

  lemma {:induction false} PrintedWord(order: seq<string>, args: Args, dump: Printer, word: string) returns (key: string)
    requires (forall k | k in order :: k in args) && word in Printed(order, args, dump)
    ensures key in order && (word == Flag(key) || word == Text(args[key], dump))
  {
    if word == Flag(order[0]) || word == Text(args[order[0]], dump) {
      key := order[0];
    } else {
      key := PrintedWord(order[1..], args, dump, word);
    }
  }

  // ----- the exact condition -----

  ghost predicate RoundTrips(order: seq<string>, args: Args, parse: Parser, dump: Printer)
    requires forall k | k in order :: k in args
  {
    Parsed(Printed(order, args, dump), parse) == Ok(args)
  }

  ghost predicate Bounded(args: Args, bound: nat) {
    forall k | k in args && args[k].Str? :: |args[k].text| <= bound
  }

  lemma FromWords(order: seq<string>, args: Args, parse: Parser, dump: Printer, key: string) returns (flag: string, word: string)
    requires Enumerates(order, args) && RoundTrips(order, args, parse, dump) && key in args
    ensures ComesFrom(Filter(Printed(order, args, dump)), key, args[key], flag, word, parse)
  {
    var found;
    found, flag, word := Origin(Filter(Printed(order, args, dump)), map[], parse, key);
  }

  lemma OnlyStringsReadAsStrings(args: Args, key: string, parse: Parser, dump: Printer)
    requires JsonText(args, parse, dump) && key in args
    ensures args[key].Str? ==> ReadsShorter(args[key].text, parse)
    ensures !args[key].Str? ==>
              PrintsPlainly(args[key], parse, dump) && Plain(Text(args[key], dump)) && !ValueOf(Text(args[key], dump), parse).Str?
  {
  }

  lemma GoodValueIsRead(args: Args, key: string, parse: Parser, dump: Printer)
    requires JsonText(args, parse, dump) && key in args && GoodValue(args[key], parse, dump)
    ensures Plain(Text(args[key], dump)) && ValueOf(Text(args[key], dump), parse) == args[key]
  {
    OnlyStringsReadAsStrings(args, key, parse, dump);
  }

  /** A string in the result is the reading of some string among the arguments. */
  lemma StringSource(order: seq<string>, args: Args, parse: Parser, dump: Printer, key: string) returns (source: string)
    requires JsonText(args, parse, dump) && Enumerates(order, args) && RoundTrips(order, args, parse, dump)
    requires key in args && args[key].Str?
    ensures source in args && args[source].Str? && Plain(args[source].text)
    ensures args[key] == ValueOf(args[source].text, parse)
  {
    var flag, word := FromWords(order, args, parse, dump, key);
    KeptWord(Printed(order, args, dump), word);
    source := PrintedWord(order, args, dump, word);
    FlagIsReserved(source);
    OnlyStringsReadAsStrings(args, source, parse, dump);
  }

  /** Longest strings first: none of them can have been read from a longer literal. */
  lemma {:induction false} StringsAreGood(order: seq<string>, args: Args, parse: Parser, dump: Printer, key: string, bound: nat)
    requires JsonText(args, parse, dump) && Enumerates(order, args) && RoundTrips(order, args, parse, dump)
    requires Bounded(args, bound) && key in args && args[key].Str?
    ensures GoodValue(args[key], parse, dump)
    decreases bound - |args[key].text|
  {
    var source := StringSource(order, args, parse, dump, key);
    var s, t := args[source].text, args[key].text;
    if parse(s).Some? {
      OnlyStringsReadAsStrings(args, source, parse, dump);
      assert parse(s) == Some(Str(t)) && |t| < |s|;
      StringsAreGood(order, args, parse, dump, source, bound);
    }
  }

  lemma KeyIsPlain(order: seq<string>, args: Args, parse: Parser, dump: Printer, key: string)
    requires Enumerates(order, args) && RoundTrips(order, args, parse, dump) && key in args
    ensures key != "" && !IsFlag(key)
  {
    var flag, word := FromWords(order, args, parse, dump, key);
    TrimmedIsNoFlag(flag);
  }

  lemma KeysAreGood(order: seq<string>, args: Args, parse: Parser, dump: Printer, key: string, bound: nat)
    requires JsonText(args, parse, dump) && Enumerates(order, args) && RoundTrips(order, args, parse, dump)
    requires Bounded(args, bound) && key in args
    ensures GoodKey(key)
  {
    KeyIsPlain(order, args, parse, dump, key);
    var flag, word := FromWords(order, args, parse, dump, key);
    KeptWord(Printed(order, args, dump), flag);
    var source := PrintedWord(order, args, dump, flag);
    TextIsPlain(order, args, parse, dump, source, bound);
    KeyIsPlain(order, args, parse, dump, source);
    TrimFlag(source);
    FlagIsReserved(source);
  }

  lemma TextIsPlain(order: seq<string>, args: Args, parse: Parser, dump: Printer, key: string, bound: nat)
    requires JsonText(args, parse, dump) && Enumerates(order, args) && RoundTrips(order, args, parse, dump)
    requires Bounded(args, bound) && key in args
    ensures Plain(Text(args[key], dump))
  {
    if args[key].Str? {
      StringsAreGood(order, args, parse, dump, key, bound);
    } else {
      OnlyStringsReadAsStrings(args, key, parse, dump);
    }
  }

  function LongestText(order: seq<string>, args: Args): (n: nat)
    requires forall k | k in order :: k in args
    ensures forall k | k in order && args[k].Str? :: |args[k].text| <= n
  {
    if order == [] then 0
    else
      var rest := LongestText(order[1..], args);
      if args[order[0]].Str? && |args[order[0]].text| > rest then |args[order[0]].text| else rest
  }

  /** Printing and parsing gives the arguments back, in whatever order they were printed, exactly if every key
      and every value is a good one. */
  lemma RoundTripsExactlyIfGood(order: seq<string>, args: Args, parse: Parser, dump: Printer)
    requires JsonText(args, parse, dump) && Enumerates(order, args)
    ensures RoundTrips(order, args, parse, dump) <==>
            forall k | k in args :: GoodKey(k) && GoodValue(args[k], parse, dump)
  {
    if RoundTrips(order, args, parse, dump) {
      NeedsGoodArgs(order, args, parse, dump);
    }
    if forall k | k in args :: GoodKey(k) && GoodValue(args[k], parse, dump) {
      GoodArgsSuffice(order, args, parse, dump);
    }
  }

  lemma GoodArgsSuffice(order: seq<string>, args: Args, parse: Parser, dump: Printer)
    requires JsonText(args, parse, dump) && Enumerates(order, args)
    requires forall k | k in args :: GoodKey(k) && GoodValue(args[k], parse, dump)
    ensures RoundTrips(order, args, parse, dump)
  {
    forall k | k in args
      ensures Plain(Text(args[k], dump)) && ValueOf(Text(args[k], dump), parse) == args[k]
    {
      GoodValueIsRead(args, k, parse, dump);
    }
    GoodWordsAreRead(order, args, map[], parse, dump);
    ReadingsAreArgs(order, args, parse, dump);
  }

  lemma ReadingsAreArgs(order: seq<string>, args: Args, parse: Parser, dump: Printer)
    requires Enumerates(order, args)
    requires forall k | k in args :: ValueOf(Text(args[k], dump), parse) == args[k]
    ensures Readings(map[], order, args, parse, dump) == args
  {
    var r := Readings(map[], order, args, parse, dump);
    forall k
      ensures (k in r <==> k in args) && (k in r ==> r[k] == args[k])
    {
      ReadingAt(map[], order, args, parse, dump, k);
    }
  }

  lemma NeedsGoodArgs(order: seq<string>, args: Args, parse: Parser, dump: Printer)
    requires JsonText(args, parse, dump) && Enumerates(order, args) && RoundTrips(order, args, parse, dump)
    ensures forall k | k in args :: GoodKey(k) && GoodValue(args[k], parse, dump)
  {
    var bound := LongestText(order, args);
    forall k | k in args
      ensures GoodKey(k) && Plain(Text(args[k], dump))
    {
      KeysAreGood(order, args, parse, dump, k, bound);
      TextIsPlain(order, args, parse, dump, k, bound);
    }
    GoodWordsAreRead(order, args, map[], parse, dump);
    forall k | k in args
      ensures GoodValue(args[k], parse, dump)
    {
      if args[k].Str? {
        StringsAreGood(order, args, parse, dump, k, bound);
      } else {
        OnlyStringsReadAsStrings(args, k, parse, dump);
        ReadingAt(map[], order, args, parse, dump, k);
      }
    }
  }
}
