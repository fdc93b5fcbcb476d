/**
 The filter of a bulk revocation: the emptiness guard, the LIKE escaping of an alias prefix, and the
 WHERE clause with its numbered placeholders.  LIKE is PostgreSQL's (manual section 9.7.1) with `\` as
 the escape character.
 */
module RevokeFilter {
  import opened Base

  type Hash = string

  datatype Row = Row(alias: string, userId: string, blocked: bool, requestCount: nat, expiresAt: Option<int>)

  datatype Filter = Filter(userId: Option<string>, aliasPrefix: Option<string>, hashes: Option<seq<Hash>>)

  predicate Constrains(field: Option<string>) {
    field.Some? && !Blank(field.value)
  }

  predicate ListsHashes(f: Filter) {
    f.hashes.Some? && f.hashes.value != []
  }

  predicate IsEmpty(f: Filter) {
    !Constrains(f.userId) && !Constrains(f.aliasPrefix) && !ListsHashes(f)
  }

  /** The guard refuses exactly the filters whose fields are all absent, blank or empty. */
  lemma EmptyExactlyIfBlank(f: Filter)
    ensures IsEmpty(f) <==>
              && (f.userId.None? || Blank(f.userId.value))
              && (f.aliasPrefix.None? || Blank(f.aliasPrefix.value))
              && (f.hashes.None? || f.hashes.value == [])
  {
  }

  /** What the caller of a bulk revocation asks for: the supplied fields combine with AND. */
  predicate Wanted(f: Filter, hash: Hash, row: Row) {
    && (f.userId.Some? && !Blank(f.userId.value) ==> row.userId == f.userId.value)
    && (f.aliasPrefix.Some? && !Blank(f.aliasPrefix.value) ==> f.aliasPrefix.value <= row.alias)
    && (f.hashes.Some? && f.hashes.value != [] ==> hash in f.hashes.value)
  }

  const ANY := Filter(None, None, None)

  /** Each field selects by itself, a blank or empty one selects everything, and together they select what all of
      them do. */
  lemma FieldsCombine(f: Filter, user: string, prefix: string, hashes: seq<Hash>, hash: Hash, row: Row)
    ensures Wanted(ANY.(userId := Some(user)), hash, row) <==> Blank(user) || row.userId == user
    ensures Wanted(ANY.(aliasPrefix := Some(prefix)), hash, row) <==> Blank(prefix) || prefix <= row.alias
    ensures Wanted(ANY.(hashes := Some(hashes)), hash, row) <==> hashes == [] || hash in hashes
    ensures Wanted(ANY, hash, row)
    ensures Wanted(f, hash, row) <==>
              && Wanted(ANY.(userId := f.userId), hash, row)
              && Wanted(ANY.(aliasPrefix := f.aliasPrefix), hash, row)
              && Wanted(ANY.(hashes := f.hashes), hash, row)
  {
  }

  // ----- LIKE -----

  /** Whether `s` matches the LIKE pattern `p`. */
  predicate LikeMatch(p: string, s: string)
    decreases |p| + |s|
  {
    if p == [] then s == []
    else if p[0] == '%' then LikeMatch(p[1..], s) || (s != [] && LikeMatch(p, s[1..]))
    else if s == [] then false
    else if p[0] == '_' then LikeMatch(p[1..], s[1..])
    else if p[0] == '\\' then |p| >= 2 && p[1] == s[0] && LikeMatch(p[2..], s[1..])
    else p[0] == s[0] && LikeMatch(p[1..], s[1..])
  }

  /** PostgreSQL raises an error for a pattern whose last escape character escapes nothing. */
  predicate WellFormedPattern(p: string) {
    if p == [] then true
    else if p[0] == '\\' then |p| >= 2 && WellFormedPattern(p[2..])
    else WellFormedPattern(p[1..])
  }

  predicate IsSpecial(c: char) {
    c == '%' || c == '_' || c == '\\'
  }

  function EscapeChar(c: char): string {
    if IsSpecial(c) then ['\\', c] else [c]
  }

  function Escaped(s: string): string {
    if s == [] then [] else EscapeChar(s[0]) + Escaped(s[1..])
  }

  lemma {:induction false} EscapedSnoc(s: string, c: char)
    ensures Escaped(s + [c]) == Escaped(s) + EscapeChar(c)
  {
    if s == [] {
      assert s + [c] == [c];
    } else {
      EscapedSnoc(s[1..], c);
      assert (s + [c])[1..] == s[1..] + [c];
    }
  }

  method EscapeLike(input: string) returns (out: string)
    ensures out == Escaped(input)
  {
    out := "";
    for i := 0 to |input|
      invariant out == Escaped(input[..i])
    {
      var ch := input[i];
      EscapedSnoc(input[..i], ch);
      assert input[..i + 1] == input[..i] + [ch];
      if ch == '%' || ch == '_' || ch == '\\' {
        out := out + ['\\'];
      }
      out := out + [ch];
    }
    assert input[..|input|] == input;
  }

  /** Escaping is undone by dropping one backslash before each character that has one. */
  function Unescaped(s: string): string {
    if s == [] then []
    else if s[0] == '\\' && |s| >= 2 then [s[1]] + Unescaped(s[2..])
    else [s[0]] + Unescaped(s[1..])
  }

  /** What is escaped comes back, and in it no wildcard stands alone. */
  lemma {:induction false} EscapedReadsBack(s: string)
    ensures Unescaped(Escaped(s)) == s
    ensures forall c | c == '%' || c == '_' || c == '\\' :: Escaped([c]) == ['\\', c]
    ensures forall c | c != '%' && c != '_' && c != '\\' :: Escaped([c]) == [c]
  {
    forall c ensures Escaped([c]) == EscapeChar(c) {
      assert [c][1..] == [];
      assert Escaped([]) == [];
    }
    if s != [] {
      EscapedReadsBack(s[1..]);
      var e := Escaped(s);
      assert e[|EscapeChar(s[0])|..] == Escaped(s[1..]);
    }
  }

  /** A wildcard by itself matches any one character, or any text. */
  lemma WildcardsMatch(s: string)
    ensures LikeMatch("_", s) <==> |s| == 1
    ensures LikeMatch("%", s)
  {
    PercentMatchesAll(s);
  }

  lemma {:induction false} PercentMatchesAll(s: string)
    ensures LikeMatch("%", s)
  {
    if s == [] {
      assert LikeMatch("%"[1..], s);
    } else {
      PercentMatchesAll(s[1..]);
    }
  }

  /** The escaped prefix followed by `%` matches exactly the strings that start with the prefix, whatever
      wildcards the prefix holds, and PostgreSQL accepts the pattern. */
  lemma {:induction false} EscapedPrefixMatches(prefix: string, s: string)
    ensures LikeMatch(Escaped(prefix) + "%", s) <==> prefix <= s
    ensures WellFormedPattern(Escaped(prefix) + "%")
  {
    var p := Escaped(prefix) + "%";
    if prefix == [] {
      assert p == "%";
      PercentMatchesAll(s);
    } else {
      var rest := Escaped(prefix[1..]) + "%";
      assert p == EscapeChar(prefix[0]) + rest;
      assert p[|EscapeChar(prefix[0])|..] == rest;
      EscapedPrefixMatches(prefix[1..], if s == [] then [] else s[1..]);
      if s != [] {
        assert prefix <= s <==> prefix[0] == s[0] && prefix[1..] <= s[1..];
      }
    }
  }

  // ----- the WHERE clause -----

  /** One conjunct of the WHERE clause; `slot` is the number after the `$` of its placeholder. */
  datatype Conjunct = UserEquals(slot: nat) | AliasLike(slot: nat) | HashAny(slot: nat)

  datatype Bound = Text(text: string) | Texts(texts: seq<string>)

  /** SQL evaluation of one conjunct: placeholder `$n` reads the n-th bound value. */
  predicate Holds(c: Conjunct, binds: seq<Bound>, hash: Hash, row: Row)
    requires LinesUp(c, binds)
  {
    match c
    case UserEquals(n) => row.userId == binds[n - 1].text
    case AliasLike(n) => LikeMatch(binds[n - 1].text, row.alias)
    case HashAny(n) => hash in binds[n - 1].texts
  }

  /** The placeholder is bound, and to a value of the type its operator takes. */
  predicate LinesUp(c: Conjunct, binds: seq<Bound>) {
    && 1 <= c.slot <= |binds|
    && (c.HashAny? <==> binds[c.slot - 1].Texts?)
    && (c.AliasLike? ==> WellFormedPattern(binds[c.slot - 1].text))
  }

  predicate AllLineUp(clauses: seq<Conjunct>, binds: seq<Bound>) {
    forall i | 0 <= i < |clauses| :: LinesUp(clauses[i], binds)
  }

  /** A row is selected when every conjunct, joined by AND, holds of it. */
  predicate Selects(clauses: seq<Conjunct>, binds: seq<Bound>, hash: Hash, row: Row)
    requires AllLineUp(clauses, binds)
  {
    forall i | 0 <= i < |clauses| :: Holds(clauses[i], binds, hash, row)
  }

  function Clauses(user: bool, alias: bool, hashes: bool): seq<Conjunct> {
    var n := if user then 2 else 1;
    (if user then [UserEquals(1)] else [])
    + (if alias then [AliasLike(n)] else [])
    + (if hashes then [HashAny(if alias then n + 1 else n)] else [])
  }

  function Binds(f: Filter): seq<Bound> {
    (if Constrains(f.userId) then [Text(f.userId.value)] else [])
    + (if Constrains(f.aliasPrefix) then [Text(Escaped(f.aliasPrefix.value) + "%")] else [])
    + (if ListsHashes(f) then [Texts(f.hashes.value)] else [])
  }

  lemma ClausesLineUp(f: Filter)
    ensures AllLineUp(Clauses(Constrains(f.userId), Constrains(f.aliasPrefix), ListsHashes(f)), Binds(f))
  {
    if Constrains(f.aliasPrefix) {
      EscapedPrefixMatches(f.aliasPrefix.value, []);
    }
  }

  lemma ClausesSelect(f: Filter, hash: Hash, row: Row)
    requires AllLineUp(Clauses(Constrains(f.userId), Constrains(f.aliasPrefix), ListsHashes(f)), Binds(f))
    ensures Selects(Clauses(Constrains(f.userId), Constrains(f.aliasPrefix), ListsHashes(f)), Binds(f), hash, row)
            <==> Wanted(f, hash, row)
  {
    var clauses, binds := Clauses(Constrains(f.userId), Constrains(f.aliasPrefix), ListsHashes(f)), Binds(f);
    var n := if Constrains(f.userId) then 1 else 0;
    if Constrains(f.userId) {
      assert Holds(clauses[0], binds, hash, row) <==> row.userId == f.userId.value;
    }
    if Constrains(f.aliasPrefix) {
      EscapedPrefixMatches(f.aliasPrefix.value, row.alias);
      assert Holds(clauses[n], binds, hash, row) <==> f.aliasPrefix.value <= row.alias;
    }
    if ListsHashes(f) {
      assert Holds(clauses[|clauses| - 1], binds, hash, row) <==> hash in f.hashes.value;
    }
  }

  /** The clause has a conjunct whenever the guard passes, its placeholders are numbered 1, 2, ... in order
      and bound to values of the right type, and it selects exactly the rows the filter asks for. */
  method BuildWhere(f: Filter) returns (clauses: seq<Conjunct>, binds: seq<Bound>)
    ensures |clauses| == |binds|
    ensures forall i | 0 <= i < |clauses| :: clauses[i].slot == i + 1
    ensures AllLineUp(clauses, binds)
    ensures clauses == [] <==> (f.userId.None? || Blank(f.userId.value)) && (f.aliasPrefix.None? || Blank(f.aliasPrefix.value))
                               && (f.hashes.None? || f.hashes.value == [])
    ensures forall hash, row :: Selects(clauses, binds, hash, row) <==> Wanted(f, hash, row)
  {
    clauses := [];
    var bindIdx := 1;
    if Constrains(f.userId) {
      clauses := clauses + [UserEquals(bindIdx)];
      bindIdx := bindIdx + 1;
    }
    if Constrains(f.aliasPrefix) {
      clauses := clauses + [AliasLike(bindIdx)];
      bindIdx := bindIdx + 1;
    }
    if ListsHashes(f) {
      clauses := clauses + [HashAny(bindIdx)];
    }

    binds := [];
    if Constrains(f.userId) {
      binds := binds + [Text(f.userId.value)];
    }
    if Constrains(f.aliasPrefix) {
      var escaped := EscapeLike(f.aliasPrefix.value);
      binds := binds + [Text(escaped + "%")];
    }
    if ListsHashes(f) {
      binds := binds + [Texts(f.hashes.value)];
    }
    assert clauses == Clauses(Constrains(f.userId), Constrains(f.aliasPrefix), ListsHashes(f));
    assert binds == Binds(f);
    ClausesLineUp(f);
    forall hash, row
      ensures Selects(clauses, binds, hash, row) <==> Wanted(f, hash, row)
    {
      ClausesSelect(f, hash, row);
    }
    EmptyExactlyIfBlank(f);
  }
}
