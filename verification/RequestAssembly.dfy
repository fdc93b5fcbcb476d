/**
 From the routed arguments to the request that is sent: the header check, the substitution into the endpoint, the
 query pairs, the headers and the body.
 */
module RequestAssembly {
  import opened Base
  import opened SchemaResolution
  import opened InputSchema
  import opened ArgumentRouting
  import P = PathTemplate

  datatype HttpMethod = GetMethod | DeleteMethod | PostMethod | PutMethod | PatchMethod

  datatype Body = JsonBody(fields: map<string, Json>) | FormBody(pairs: map<string, string>)

  datatype Request = Request(endpoint: P.Text, query: Pairs, header: map<string, string>, body: Option<Body>)

  datatype RequestError = DeniedHeader(name: string) | BadPath(error: P.PathError)

  /** What the language's library does with texts: UTF-8, lower case, and JSON text. */
  datatype Library = Library(utf8: string -> P.Text, lower: string -> string, dump: Json -> string)

  ghost predicate Injective(utf8: string -> P.Text) {
    forall a, b :: utf8(a) == utf8(b) ==> a == b
  }

  // ----- headers -----

  const DENIED := [
    "authorization", "host", "cookie", "set-cookie", "content-type", "content-length", "transfer-encoding",
    "connection", "proxy-authorization", "x-forwarded-for", "x-forwarded-host", "x-forwarded-proto", "x-real-ip"]

  /** No argument may set this header: it is on the list, or it is the one that authenticates to the provider. */
  predicate Denied(name: string, auth: Option<string>, lower: string -> string) {
    lower(name) in DENIED || (auth.Some? && lower(name) == lower(auth.value))
  }

  ghost predicate HeaderRefused(header: map<string, string>, auth: Option<string>, lower: string -> string) {
    exists name | name in header :: Denied(name, auth, lower)
  }

  /** The thirteen names, whatever their case, and the provider's own, are denied, and no others. */
  lemma DeniedExactly(name: string, auth: Option<string>, lower: string -> string)
    ensures Denied(name, auth, lower) <==>
              || lower(name) == "authorization" || lower(name) == "host" || lower(name) == "cookie" || lower(name) == "set-cookie"
              || lower(name) == "content-type" || lower(name) == "content-length" || lower(name) == "transfer-encoding"
              || lower(name) == "connection" || lower(name) == "proxy-authorization" || lower(name) == "x-forwarded-for"
              || lower(name) == "x-forwarded-host" || lower(name) == "x-forwarded-proto" || lower(name) == "x-real-ip"
              || (auth.Some? && lower(name) == lower(auth.value))
  {
  }

  method ValidateHeaders(header: map<string, string>, auth: Option<string>, lower: string -> string) returns (denied: Option<string>)
    ensures denied.Some? <==> HeaderRefused(header, auth, lower)
    ensures denied.Some? ==> denied.value in header && Denied(denied.value, auth, lower)
  {
    var pending := header.Keys;
    while pending != {}
      invariant pending <= header.Keys
      invariant forall name | name in header && name !in pending :: !Denied(name, auth, lower)
    {
      var name :| name in pending;
      if lower(name) in DENIED {
        return Some(name);
      }
      if auth.Some? && lower(name) == lower(auth.value) {
        return Some(name);
      }
      pending := pending - {name};
    }
    denied := None;
  }

  // ----- query -----

  type Pairs = seq<(string, string)>

  /** What a server reads under a key. */
  function ValuesAt(query: Pairs, key: string): seq<string> {
    if query == [] then []
    else
      var front, last := query[..|query| - 1], query[|query| - 1];
      if last.0 == key then ValuesAt(front, key) + [last.1] else ValuesAt(front, key)
  }

  lemma {:induction false} ValuesAtConcat(a: Pairs, b: Pairs, key: string)
    ensures ValuesAt(a + b, key) == ValuesAt(a, key) + ValuesAt(b, key)
  {
    if b == [] {
      assert a + b == a;
    } else {
      var n := |b| - 1;
      assert (a + b)[..|a + b| - 1] == a + b[..n];
      ValuesAtConcat(a, b[..n], key);
      Assoc(ValuesAt(a, key), ValuesAt(b[..n], key), [b[n].1]);
    }
  }

  lemma ValuesAtSnoc(query: Pairs, pair: (string, string), key: string)
    ensures ValuesAt(query + [pair], key) == if pair.0 == key then ValuesAt(query, key) + [pair.1] else ValuesAt(query, key)
  {
    assert (query + [pair])[..|query|] == query;
  }

  /** The values that an array is sent as. */
  function SentValues(values: seq<string>, format: Collection): seq<string> {
    match format
    case Multi => values
    case Csv => [Joined(values, ",")]
    case Ssv => [Joined(values, " ")]
    case Pipes => [Joined(values, "|")]
  }

  lemma {:induction false} RepeatedValues(key: string, values: seq<string>, k: string)
    ensures ValuesAt(Repeated(key, values), k) == if k == key then values else []
  {
    if values != [] {
      var front, last := values[..|values| - 1], values[|values| - 1];
      RepeatedValues(key, front, k);
      ValuesAtSnoc(Repeated(key, front), (key, last), k);
      assert values == front + [last];
    }
  }

  lemma PairsValues(key: string, values: seq<string>, format: Collection, k: string)
    ensures ValuesAt(QueryPairs(key, values, format), k) == if k == key then SentValues(values, format) else []
  {
    if format.Multi? {
      RepeatedValues(key, values, k);
    }
  }

  function SingleAt(singles: map<string, string>, key: string): seq<string> {
    if key in singles then [singles[key]] else []
  }

  function ArrayAt(arrays: map<string, (seq<string>, Collection)>, key: string): seq<string> {
    if key in arrays then SentValues(arrays[key].0, arrays[key].1) else []
  }

  /** The values under a key. */
  type Reading = string -> seq<string>

  function Singles(singles: map<string, string>): Reading {
    k => SingleAt(singles, k)
  }

  function Arrays(arrays: map<string, (seq<string>, Collection)>): Reading {
    k => ArrayAt(arrays, k)
  }

  predicate AddsAt(pairs: Pairs, query: Pairs, wanted: Reading, pending: set<string>, k: string) {
    ValuesAt(pairs, k) == if k in pending then ValuesAt(query, k) else ValuesAt(query, k) + wanted(k)
  }

  /** `pairs` reads as `query` and behind it the wanted values of all keys but the pending ones. */
  ghost predicate Adds(pairs: Pairs, query: Pairs, wanted: Reading, pending: set<string>) {
    forall k :: AddsAt(pairs, query, wanted, pending, k)
  }

  ghost predicate ReadsOnly(more: Pairs, key: string, values: seq<string>) {
    forall k :: ValuesAt(more, k) == if k == key then values else []
  }

  lemma NothingAdded<T>(s: seq<T>)
    ensures s + [] == s
  {
  }

  lemma AddsStepAt(pairs: Pairs, more: Pairs, query: Pairs, wanted: Reading, pending: set<string>, key: string, k: string)
    requires AddsAt(pairs, query, wanted, pending, k) && key in pending
    requires ValuesAt(more, k) == if k == key then wanted(key) else []
    ensures AddsAt(pairs + more, query, wanted, pending - {key}, k)
  {
    ValuesAtConcat(pairs, more, k);
    NothingAdded(ValuesAt(pairs, k));
  }

  lemma AddsStep(pairs: Pairs, more: Pairs, query: Pairs, wanted: Reading, pending: set<string>, key: string)
    requires Adds(pairs, query, wanted, pending) && key in pending && ReadsOnly(more, key, wanted(key))
    ensures Adds(pairs + more, query, wanted, pending - {key})
  {
    forall k ensures AddsAt(pairs + more, query, wanted, pending - {key}, k) {
      assert AddsAt(pairs, query, wanted, pending, k);
      AddsStepAt(pairs, more, query, wanted, pending, key, k);
    }
  }

  lemma AddsNothing(query: Pairs, wanted: Reading, pending: set<string>)
    requires forall k :: k !in pending ==> wanted(k) == []
    ensures Adds(query, query, wanted, pending)
  {
    forall k ensures AddsAt(query, query, wanted, pending, k) {
      NothingAdded(ValuesAt(query, k));
    }
  }

  lemma OnePairReads(key: string, value: string)
    ensures ReadsOnly([(key, value)], key, [value])
  {
    forall k ensures ValuesAt([(key, value)], k) == if k == key then [value] else [] {
      ValuesAtSnoc([], (key, value), k);
      NothingAdded([(key, value)]);
    }
  }

  lemma ArrayPairsRead(key: string, values: seq<string>, format: Collection)
    ensures ReadsOnly(QueryPairs(key, values, format), key, SentValues(values, format))
  {
    forall k ensures ValuesAt(QueryPairs(key, values, format), k) == if k == key then SentValues(values, format) else [] {
      PairsValues(key, values, format, k);
    }
  }

  method ApplyQuery(singles: map<string, string>) returns (query: Pairs)
    ensures Adds(query, [], Singles(singles), {})
  {
    query := [];
    var pending := singles.Keys;
    AddsNothing([], Singles(singles), pending);
    while pending != {}
      invariant pending <= singles.Keys
      invariant Adds(query, [], Singles(singles), pending)
    {
      var key :| key in pending;
      OnePairReads(key, singles[key]);
      AddsStep(query, [(key, singles[key])], [], Singles(singles), pending, key);
      query := query + [(key, singles[key])];
      pending := pending - {key};
    }
  }

  method ApplyQueryArrays(query: Pairs, arrays: map<string, (seq<string>, Collection)>) returns (pairs: Pairs)
    ensures Adds(pairs, query, Arrays(arrays), {})
  {
    pairs := query;
    var pending := arrays.Keys;
    AddsNothing(query, Arrays(arrays), pending);
    while pending != {}
      invariant pending <= arrays.Keys
      invariant Adds(pairs, query, Arrays(arrays), pending)
    {
      var key :| key in pending;
      var (values, format) := arrays[key];
      ArrayPairsRead(key, values, format);
      AddsStep(pairs, QueryPairs(key, values, format), query, Arrays(arrays), pending, key);
      pairs := ApplyQueryArray(pairs, key, values, format);
      pending := pending - {key};
    }
  }

  // ----- the request -----

  predicate CarriesBody(httpMethod: HttpMethod) {
    httpMethod.PostMethod? || httpMethod.PutMethod? || httpMethod.PatchMethod?
  }

  function BodyOf(httpMethod: HttpMethod, c: Classified, dump: Json -> string): Option<Body> {
    if !CarriesBody(httpMethod) || c.body == map[] then None
    else if c.form then Some(FormBody(map k | k in c.body :: ValueToString(c.body[k], dump)))
    else Some(JsonBody(c.body))
  }

  /** The path arguments in UTF-8. */
  function PathArgs(path: map<string, string>, utf8: string -> P.Text): map<P.Text, P.Text>
    requires Injective(utf8)
  {
    map k | k in path :: utf8(k) := utf8(path[k])
  }

  /** The endpoint with the arguments put in, one after the other in some order. */
  ghost predicate IsFilled(filled: P.Text, endpoint: P.Text, args: map<P.Text, P.Text>) {
    exists keys :: P.Enumerates(keys, args.Keys) && filled == P.FoldReplace(endpoint, keys, args)
  }

  function QueryAt(c: Classified, key: string): seq<string> {
    SingleAt(c.query, key) + ArrayAt(c.queryArrays, key)
  }

  ghost predicate QueryIs(query: Pairs, c: Classified) {
    forall k :: ValuesAt(query, k) == QueryAt(c, k)
  }

  lemma BothAdded(single: Pairs, query: Pairs, c: Classified)
    requires Adds(single, [], Singles(c.query), {}) && Adds(query, single, Arrays(c.queryArrays), {})
    ensures QueryIs(query, c)
  {
    forall k ensures ValuesAt(query, k) == QueryAt(c, k) {
      assert AddsAt(single, [], Singles(c.query), {}, k) && AddsAt(query, single, Arrays(c.queryArrays), {}, k);
    }
  }

  ghost predicate IsRequest(r: Request, endpoint: P.Text, httpMethod: HttpMethod, c: Classified, library: Library)
    requires Injective(library.utf8)
  {
    && IsFilled(r.endpoint, endpoint, PathArgs(c.path, library.utf8))
    && QueryIs(r.query, c) && r.header == c.header && r.body == BodyOf(httpMethod, c, library.dump)
  }

  ghost predicate PathRefused(path: map<string, string>, utf8: string -> P.Text) {
    exists name | name in path :: P.Rejected(utf8(path[name]))
  }

  ghost predicate Blames(e: P.PathError, path: map<string, string>, utf8: string -> P.Text) {
    exists name | name in path :: e == P.InvalidPathParam(utf8(name), utf8(path[name])) && P.Rejected(e.value)
  }

  lemma PathRefusal(path: map<string, string>, utf8: string -> P.Text)
    requires Injective(utf8)
    ensures PathRefused(path, utf8) <==> exists k | k in PathArgs(path, utf8) :: P.Rejected(PathArgs(path, utf8)[k])
  {
    var args := PathArgs(path, utf8);
    if PathRefused(path, utf8) {
      var name :| name in path && P.Rejected(utf8(path[name]));
      assert utf8(name) in args && args[utf8(name)] == utf8(path[name]);
    }
  }

  method FillEndpoint(endpoint: P.Text, path: map<string, string>, utf8: string -> P.Text) returns (r: Result<P.Text, P.PathError>)
    requires Injective(utf8)
    ensures r.Err? <==> PathRefused(path, utf8)
    ensures r.Err? ==> Blames(r.error, path, utf8)
    ensures r.Ok? ==> IsFilled(r.value, endpoint, PathArgs(path, utf8))
  {
    PathRefusal(path, utf8);
    ghost var keys;
    r, keys := P.SubstitutePathParams(endpoint, PathArgs(path, utf8));
  }

  method MakeBody(httpMethod: HttpMethod, c: Classified, dump: Json -> string) returns (body: Option<Body>)
    ensures body == BodyOf(httpMethod, c, dump)
  {
    body := None;
    match httpMethod {
      case GetMethod =>
      case DeleteMethod =>
      case _ =>
        if c.body != map[] {
          if c.form {
            body := Some(FormBody(map k | k in c.body :: ValueToString(c.body[k], dump)));
          } else {
            body := Some(JsonBody(c.body));
          }
        }
    }
  }

  /** Headers are checked first, then the path; the rest cannot fail. */
  method AssembleRequest(endpoint: P.Text, httpMethod: HttpMethod, c: Classified, auth: Option<string>, library: Library)
    returns (r: Result<Request, RequestError>)
    requires Injective(library.utf8)
    ensures r.Err? <==> HeaderRefused(c.header, auth, library.lower) || PathRefused(c.path, library.utf8)
    ensures r.Err? ==>
              match r.error
              case DeniedHeader(name) => name in c.header && Denied(name, auth, library.lower)
              case BadPath(e) => !HeaderRefused(c.header, auth, library.lower) && Blames(e, c.path, library.utf8)
    ensures r.Ok? ==> IsRequest(r.value, endpoint, httpMethod, c, library)
    ensures r.Ok? ==> (r.value.body.Some? <==>
                         c.body != map[] && (httpMethod.PostMethod? || httpMethod.PutMethod? || httpMethod.PatchMethod?))
                      && (r.value.body.Some? ==> (r.value.body.value.FormBody? <==> c.form))
  {
    var denied := ValidateHeaders(c.header, auth, library.lower);
    if denied.Some? {
      return Err(DeniedHeader(denied.value));
    }
    var filled := FillEndpoint(endpoint, c.path, library.utf8);
    if filled.Err? {
      return Err(BadPath(filled.error));
    }
    var body := MakeBody(httpMethod, c, library.dump);
    var single := ApplyQuery(c.query);
    var query := ApplyQueryArrays(single, c.queryArrays);
    BothAdded(single, query, c);
    r := Ok(Request(filled.value, query, c.header, body));
  }

  /** What stands in a body under a name: a value, as JSON or as text. */
  predicate FieldIs(body: Option<Body>, name: string, value: Option<Json>, dump: Json -> string) {
    match body
    case None => value.None?
    case Some(JsonBody(fields)) => Look(fields, name) == value
    case Some(FormBody(pairs)) => Look(pairs, name) == if value.Some? then Some(ValueToString(value.value, dump)) else None
  }

  /** What the query holds for an argument of the query. */
  function ReadAs(value: Json, format: Collection, dump: Json -> string): seq<string> {
    if value.Arr? then SentValues(ValuesToStrings(value.items, dump), format) else [ValueToString(value, dump)]
  }

  lemma QueryStands(c: Classified, name: string, bucket: Bucket, value: Json, format: Collection, dump: Json -> string)
    requires At(c, name) == SlotIn(bucket, value, format, dump)
    ensures QueryAt(c, name) == if bucket.QueryBucket? then ReadAs(value, format, dump) else []
  {
    assert Look(c.query, name) == At(c, name).query && Look(c.queryArrays, name) == At(c, name).queryArray;
  }

  lemma FieldStands(c: Classified, httpMethod: HttpMethod, name: string, bucket: Bucket, value: Json, format: Collection,
                    dump: Json -> string)
    requires At(c, name) == SlotIn(bucket, value, format, dump)
    ensures FieldIs(BodyOf(httpMethod, c, dump), name, if bucket.BodyBucket? && CarriesBody(httpMethod) then Some(value) else None, dump)
  {
    assert Look(c.body, name) == At(c, name).body;
  }

  lemma TextStands(c: Classified, name: string, bucket: Bucket, value: Json, format: Collection, dump: Json -> string)
    requires At(c, name) == SlotIn(bucket, value, format, dump)
    ensures Look(c.path, name) == if bucket.PathBucket? then Some(ValueToString(value, dump)) else None
    ensures Look(c.header, name) == if bucket.HeaderBucket? then Some(ValueToString(value, dump)) else None
  {
    assert Look(c.path, name) == At(c, name).path && Look(c.header, name) == At(c, name).header;
  }

  lemma RoutedAt(c: Classified, props: map<string, Json>, args: map<string, Json>, name: string, dump: Json -> string)
    requires Routed(c, props, args, args.Keys, dump) && name in args
    ensures At(c, name) == SlotIn(SentTo(props, name), args[name], CollectionOf(props, name), dump)
  {
  }

  /** In a request that is not refused, each argument stands whole in its own part, and in no other. */
  lemma ArgumentStandsWhole(httpMethod: HttpMethod, props: map<string, Json>, args: map<string, Json>, name: string,
                            endpoint: P.Text, c: Classified, r: Request, library: Library)
    requires Injective(library.utf8) && Routed(c, props, args, args.Keys, library.dump)
    requires IsRequest(r, endpoint, httpMethod, c, library) && name in args
    ensures var bucket, text := SentTo(props, name), ValueToString(args[name], library.dump);
            && Look(c.path, name) == (if bucket.PathBucket? then Some(text) else None)
            && Look(r.header, name) == (if bucket.HeaderBucket? then Some(text) else None)
            && ValuesAt(r.query, name) ==
                 (if bucket.QueryBucket? then ReadAs(args[name], CollectionOf(props, name), library.dump) else [])
            && FieldIs(r.body, name, if bucket.BodyBucket? && CarriesBody(httpMethod) then Some(args[name]) else None, library.dump)
  {
    RoutedAt(c, props, args, name, library.dump);
    TextStands(c, name, SentTo(props, name), args[name], CollectionOf(props, name), library.dump);
    QueryStands(c, name, SentTo(props, name), args[name], CollectionOf(props, name), library.dump);
    FieldStands(c, httpMethod, name, SentTo(props, name), args[name], CollectionOf(props, name), library.dump);
  }

  // ----- which arguments are sent -----

  /** No server can tell the requests apart. */
  ghost predicate SameRequest(a: Request, b: Request) {
    && a.endpoint == b.endpoint && a.header == b.header && a.body == b.body
    && forall k :: ValuesAt(a.query, k) == ValuesAt(b.query, k)
  }

  /** There is a place in the request for the argument, as declared, and something to put there. */
  predicate HasAPlace(endpoint: P.Text, httpMethod: HttpMethod, props: map<string, Json>, name: string, value: Json,
                      utf8: string -> P.Text) {
    match SentTo(props, name)
    case PathBucket => P.Hole(utf8(name)) in P.Parse(endpoint)
    case QueryBucket => value.Arr? && CollectionOf(props, name).Multi? ==> value.items != []
    case HeaderBucket => true
    case BodyBucket => CarriesBody(httpMethod)
  }

  lemma WithoutEntry<V>(m: map<string, V>, n: map<string, V>, name: string)
    requires Look(n, name).None? && forall k | k != name :: Look(n, k) == Look(m, k)
    ensures n == m - {name}
  {
    forall k ensures k in n <==> k in m - {name} {
      assert k != name ==> Look(n, k) == Look(m, k);
    }
    forall k | k in n ensures n[k] == m[k] {
      assert Look(n, k) == Look(m, k);
    }
  }

  /** `d` holds what `c` holds, without the argument. */
  predicate Without(d: Classified, c: Classified, name: string) {
    && d.path == c.path - {name} && d.query == c.query - {name} && d.queryArrays == c.queryArrays - {name}
    && d.header == c.header - {name} && d.body == c.body - {name} && d.form == c.form
  }

  lemma SameSlots(c: Classified, d: Classified, props: map<string, Json>, args: map<string, Json>, name: string, k: string,
                  dump: Json -> string)
    requires Routed(c, props, args, args.Keys, dump) && Routed(d, props, args - {name}, args.Keys - {name}, dump)
    ensures k != name ==> At(d, k) == At(c, k)
  {
    assert At(c, k) == if k in args then Slotted(props, k, args[k], dump) else NOWHERE;
  }

  lemma RoutedWithout(c: Classified, d: Classified, props: map<string, Json>, args: map<string, Json>, name: string,
                      dump: Json -> string)
    requires Routed(c, props, args, args.Keys, dump) && Routed(d, props, args - {name}, args.Keys - {name}, dump)
    requires c.form == d.form
    ensures Without(d, c, name)
  {
    forall k | k != name
      ensures Look(d.path, k) == Look(c.path, k) && Look(d.query, k) == Look(c.query, k)
      ensures Look(d.queryArrays, k) == Look(c.queryArrays, k) && Look(d.header, k) == Look(c.header, k)
      ensures Look(d.body, k) == Look(c.body, k) {
      SameSlots(c, d, props, args, name, k, dump);
    }
    assert At(d, name) == NOWHERE;
    WithoutEntry(c.path, d.path, name);
    WithoutEntry(c.query, d.query, name);
    WithoutEntry(c.queryArrays, d.queryArrays, name);
    WithoutEntry(c.header, d.header, name);
    WithoutEntry(c.body, d.body, name);
  }

  function Entry(m: map<P.Text, P.Text>, t: P.Text): Option<P.Text> {
    if t in m then Some(m[t]) else None
  }

  lemma SameEntries(m: map<P.Text, P.Text>, n: map<P.Text, P.Text>)
    requires forall t :: Entry(m, t) == Entry(n, t)
    ensures m == n
  {
    forall t ensures t in m <==> t in n {
      assert Entry(m, t) == Entry(n, t);
    }
    forall t | t in m ensures m[t] == n[t] {
      assert Entry(m, t) == Entry(n, t);
    }
  }

  lemma PathArgAt(path: map<string, string>, k: string, utf8: string -> P.Text)
    requires Injective(utf8)
    ensures Entry(PathArgs(path, utf8), utf8(k)) == if k in path then Some(utf8(path[k])) else None
  {
  }

  lemma PathArgFrom(path: map<string, string>, t: P.Text, utf8: string -> P.Text) returns (k: string)
    requires Injective(utf8) && t in PathArgs(path, utf8)
    ensures k in path && utf8(k) == t
  {
    k :| k in path && utf8(k) == t;
  }

  lemma EntryStays(a: map<P.Text, P.Text>, b: map<P.Text, P.Text>, k: P.Text, key: P.Text)
    requires Entry(a, k) == if k == key then None else Entry(b, k)
    ensures Entry(a, k) == Entry(b - {key}, k)
  {
  }

  lemma PathArgStays(path: map<string, string>, name: string, utf8: string -> P.Text, k: string)
    requires Injective(utf8)
    ensures Entry(PathArgs(path - {name}, utf8), utf8(k)) == Entry(PathArgs(path, utf8) - {utf8(name)}, utf8(k))
  {
    PathArgAt(path, k, utf8);
    PathArgAt(path - {name}, k, utf8);
    EntryStays(PathArgs(path - {name}, utf8), PathArgs(path, utf8), utf8(k), utf8(name));
  }

  lemma PathArgWithout(path: map<string, string>, name: string, utf8: string -> P.Text, t: P.Text)
    requires Injective(utf8)
    ensures Entry(PathArgs(path - {name}, utf8), t) == Entry(PathArgs(path, utf8) - {utf8(name)}, t)
  {
    if t in PathArgs(path, utf8) {
      var k := PathArgFrom(path, t, utf8);
      PathArgStays(path, name, utf8, k);
    } else if t in PathArgs(path - {name}, utf8) {
      var k := PathArgFrom(path - {name}, t, utf8);
      PathArgStays(path, name, utf8, k);
    }
  }

  lemma PathArgsWithout(path: map<string, string>, name: string, utf8: string -> P.Text)
    requires Injective(utf8)
    ensures PathArgs(path - {name}, utf8) == PathArgs(path, utf8) - {utf8(name)}
  {
    forall t ensures Entry(PathArgs(path - {name}, utf8), t) == Entry(PathArgs(path, utf8) - {utf8(name)}, t) {
      PathArgWithout(path, name, utf8, t);
    }
    SameEntries(PathArgs(path - {name}, utf8), PathArgs(path, utf8) - {utf8(name)});
  }

  lemma FilledIsSubstituted(filled: P.Text, endpoint: P.Text, args: map<P.Text, P.Text>)
    requires P.Tame(endpoint) && IsFilled(filled, endpoint, args) && forall k | k in args :: P.Flat(k)
    ensures filled == P.Substituted(endpoint, args)
  {
    var keys :| P.Enumerates(keys, args.Keys) && filled == P.FoldReplace(endpoint, keys, args);
    P.FoldIsSimultaneous(endpoint, keys, args);
  }

  ghost predicate PlainNames(path: map<string, string>, utf8: string -> P.Text) {
    forall k | k in path :: P.Flat(utf8(k))
  }

  lemma SubstitutedTells(endpoint: P.Text, path: map<string, string>, name: string, utf8: string -> P.Text)
    requires Injective(utf8)
    ensures P.Substituted(endpoint, PathArgs(path, utf8)) != P.Substituted(endpoint, PathArgs(path - {name}, utf8))
            <==> name in path && P.Hole(utf8(name)) in P.Parse(endpoint)
  {
    PathArgsWithout(path, name, utf8);
    PathArgAt(path, name, utf8);
    if name in path {
      P.ArgumentIsUsedExactlyIfItHasAHole(endpoint, PathArgs(path, utf8), utf8(name));
    } else {
      assert path - {name} == path;
    }
  }

  lemma EndpointIsSubstituted(r: Request, endpoint: P.Text, httpMethod: HttpMethod, c: Classified, library: Library)
    requires Injective(library.utf8) && P.Tame(endpoint) && PlainNames(c.path, library.utf8)
    requires IsRequest(r, endpoint, httpMethod, c, library)
    ensures r.endpoint == P.Substituted(endpoint, PathArgs(c.path, library.utf8))
  {
    FilledIsSubstituted(r.endpoint, endpoint, PathArgs(c.path, library.utf8));
  }

  lemma QueryTells(r: Pairs, q: Pairs, c: Classified, d: Classified, name: string)
    requires QueryIs(r, c) && QueryIs(q, d) && Without(d, c, name)
    ensures (forall k :: ValuesAt(r, k) == ValuesAt(q, k)) <==> QueryAt(c, name) == []
  {
    assert ValuesAt(r, name) == QueryAt(c, name) && ValuesAt(q, name) == QueryAt(d, name) == [];
    if QueryAt(c, name) == [] {
      forall k ensures ValuesAt(r, k) == ValuesAt(q, k) {
        assert ValuesAt(r, k) == QueryAt(c, k) && ValuesAt(q, k) == QueryAt(d, k);
      }
    }
  }

  lemma BodyTells(httpMethod: HttpMethod, c: Classified, d: Classified, name: string, dump: Json -> string)
    requires Without(d, c, name)
    ensures BodyOf(httpMethod, c, dump) != BodyOf(httpMethod, d, dump) <==> name in c.body && CarriesBody(httpMethod)
  {
    if name in c.body {
      if c.form && d.body != map[] && CarriesBody(httpMethod) {
        assert name in BodyOf(httpMethod, c, dump).value.pairs && name !in BodyOf(httpMethod, d, dump).value.pairs;
      }
    } else {
      assert d.body == c.body;
    }
  }

  lemma HeaderTells(c: Classified, d: Classified, name: string)
    requires Without(d, c, name)
    ensures c.header != d.header <==> name in c.header
  {
  }

  lemma RequestTells(used: bool, httpMethod: HttpMethod, name: string, c: Classified, d: Classified, r: Request, q: Request,
                     dump: Json -> string)
    requires Without(d, c, name) && QueryIs(r.query, c) && QueryIs(q.query, d) && r.header == c.header && q.header == d.header
    requires r.body == BodyOf(httpMethod, c, dump) && q.body == BodyOf(httpMethod, d, dump)
    requires used <==> r.endpoint != q.endpoint
    ensures !SameRequest(r, q) <==>
              used || QueryAt(c, name) != [] || name in c.header || (name in c.body && CarriesBody(httpMethod))
  {
    QueryTells(r.query, q.query, c, d, name);
    HeaderTells(c, d, name);
    BodyTells(httpMethod, c, d, name, dump);
  }

  /** Where an argument stands, and whether it leaves anything in the query. */
  lemma SlotTells(c: Classified, props: map<string, Json>, args: map<string, Json>, name: string, dump: Json -> string)
    requires Routed(c, props, args, args.Keys, dump) && name in args
    ensures name in c.path <==> SentTo(props, name).PathBucket?
    ensures name in c.header <==> SentTo(props, name).HeaderBucket?
    ensures name in c.body <==> SentTo(props, name).BodyBucket?
    ensures QueryAt(c, name) != [] <==>
              SentTo(props, name).QueryBucket?
              && !(args[name].Arr? && CollectionOf(props, name).Multi? && args[name].items == [])
  {
    assert At(c, name) == Slotted(props, name, args[name], dump);
  }

  /** Of two requests that were not refused, one with and one without an argument, given or default: they differ
      exactly if the argument has a place. */
  lemma ArgumentIsSentExactlyIfItHasAPlace(
      endpoint: P.Text, httpMethod: HttpMethod, props: map<string, Json>, args: map<string, Json>, name: string,
      c: Classified, d: Classified, r: Request, q: Request, library: Library)
    requires Injective(library.utf8) && P.Tame(endpoint) && PlainNames(c.path, library.utf8)
    requires name in args && c.form == d.form
    requires Routed(c, props, args, args.Keys, library.dump) && IsRequest(r, endpoint, httpMethod, c, library)
    requires Routed(d, props, args - {name}, args.Keys - {name}, library.dump) && IsRequest(q, endpoint, httpMethod, d, library)
    ensures !SameRequest(r, q) <==> HasAPlace(endpoint, httpMethod, props, name, args[name], library.utf8)
  {
    RoutedWithout(c, d, props, args, name, library.dump);
    SlotTells(c, props, args, name, library.dump);
    EndpointIsSubstituted(r, endpoint, httpMethod, c, library);
    EndpointIsSubstituted(q, endpoint, httpMethod, d, library);
    SubstitutedTells(endpoint, c.path, name, library.utf8);
    RequestTells(r.endpoint != q.endpoint, httpMethod, name, c, d, r, q, library.dump);
  }

  /** An argument that stops the request. */
  predicate Stops(props: map<string, Json>, name: string, value: Json, auth: Option<string>, library: Library) {
    match SentTo(props, name)
    case PathBucket => P.Rejected(library.utf8(ValueToString(value, library.dump)))
    case HeaderBucket => Denied(name, auth, library.lower)
    case _ => false
  }

  /** A request is refused exactly if one of its arguments stops it. */
  lemma RefusedExactlyIfSomeArgumentStops(props: map<string, Json>, args: map<string, Json>, c: Classified, auth: Option<string>,
                                          library: Library)
    requires Routed(c, props, args, args.Keys, library.dump)
    ensures HeaderRefused(c.header, auth, library.lower) || PathRefused(c.path, library.utf8)
            <==> exists name | name in args :: Stops(props, name, args[name], auth, library)
  {
    forall name
      ensures (name in c.header && Denied(name, auth, library.lower)) || (name in c.path && P.Rejected(library.utf8(c.path[name])))
              <==> name in args && Stops(props, name, args[name], auth, library) {
      assert At(c, name) == if name in args then Slotted(props, name, args[name], library.dump) else NOWHERE;
    }
  }

  // ----- arguments that are not sent -----

  /** An empty array in the default format leaves nothing in the query. */
  lemma EmptyArrayIsNotSent(endpoint: P.Text, httpMethod: HttpMethod, utf8: string -> P.Text) returns (props: map<string, Json>)
    ensures props == DeclaredProps([Plain(InQuery(Form), "ids")], None, NO_COMPONENTS)
    ensures SentTo(props, "ids") == QueryBucket && !HasAPlace(endpoint, httpMethod, props, "ids", Arr([]), utf8)
  {
    props := DeclaredProps([Plain(InQuery(Form), "ids")], None, NO_COMPONENTS);
    SentWhereRecorded([Plain(InQuery(Form), "ids")], None, NO_COMPONENTS, "ids");
    CollectionOfLast([Plain(InQuery(Form), "ids")], None, NO_COMPONENTS, "ids");
  }

  /** A path argument needs a placeholder in the endpoint. */
  lemma MissingPlaceholderIsNotSent(endpoint: P.Text, httpMethod: HttpMethod, value: Json, utf8: string -> P.Text)
    returns (props: map<string, Json>)
    requires P.Flat(endpoint)
    ensures props == DeclaredProps([Plain(InPath, "id")], None, NO_COMPONENTS)
    ensures SentTo(props, "id") == PathBucket && !HasAPlace(endpoint, httpMethod, props, "id", value, utf8)
  {
    props := DeclaredProps([Plain(InPath, "id")], None, NO_COMPONENTS);
    SentWhereRecorded([Plain(InPath, "id")], None, NO_COMPONENTS, "id");
    assert endpoint + [] == endpoint;
    P.FlatLengthBehind(endpoint, []);
  }

  /** The argument of a header parameter `Host` stops the request. */
  lemma HostHeaderStops(value: Json, auth: Option<string>, library: Library) returns (props: map<string, Json>)
    requires library.lower("Host") == "host"
    ensures props == DeclaredProps([Plain(InHeader, "Host")], None, NO_COMPONENTS)
    ensures Stops(props, "Host", value, auth, library)
  {
    props := DeclaredProps([Plain(InHeader, "Host")], None, NO_COMPONENTS);
    SentWhereRecorded([Plain(InHeader, "Host")], None, NO_COMPONENTS, "Host");
    assert DENIED[1] == "host";
  }

  /** So does that of a header parameter with the name of the provider's own. */
  lemma ProviderHeaderStops(name: string, value: Json, library: Library) returns (props: map<string, Json>)
    ensures props == DeclaredProps([Plain(InHeader, name)], None, NO_COMPONENTS)
    ensures Stops(props, name, value, Some(name), library)
  {
    props := DeclaredProps([Plain(InHeader, name)], None, NO_COMPONENTS);
    SentWhereRecorded([Plain(InHeader, name)], None, NO_COMPONENTS, name);
  }

  /** An undeclared argument goes to the body, which GET and DELETE requests do not have. */
  lemma BodyOfGetIsNotSent(endpoint: P.Text, name: string, value: Json, utf8: string -> P.Text)
    ensures SentTo(map[], name) == BodyBucket
    ensures !HasAPlace(endpoint, GetMethod, map[], name, value, utf8) && !HasAPlace(endpoint, DeleteMethod, map[], name, value, utf8)
    ensures HasAPlace(endpoint, PostMethod, map[], name, value, utf8) && HasAPlace(endpoint, PutMethod, map[], name, value, utf8)
    ensures HasAPlace(endpoint, PatchMethod, map[], name, value, utf8)
  {
  }
}
