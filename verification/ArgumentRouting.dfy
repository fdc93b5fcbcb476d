/**
 What happens to the arguments of a call: defaults are merged in, and each argument goes to the part of the
 request that the input schema records for it.
 */
module ArgumentRouting {
  import opened Base
  import opened SchemaResolution
  import opened InputSchema

  datatype Collection = Multi | Csv | Ssv | Pipes

  datatype Classified = Classified(
    path: map<string, string>, query: map<string, string>, queryArrays: map<string, (seq<string>, Collection)>,
    header: map<string, string>, body: map<string, Json>, form: bool)

  /** The properties of a tool's schema; a tool without a schema has none. */
  function PropsOf(schema: Option<Json>): map<string, Json> {
    if schema.Some? then Fields(Get(schema.value, PROPERTIES)) else map[]
  }

  // ----- defaults -----

  /** The default of a property, unless it is null or an empty array or object. */
  function UsableDefault(prop: Json): Option<Json> {
    match Get(prop, "default")
    case Some(Arr(items)) => if items == [] then None else Some(Arr(items))
    case Some(Obj(fields)) => if fields == map[] then None else Some(Obj(fields))
    case Some(Null) => None
    case d => d
  }

  /** The default that is used is the declared one, if that is there and is neither null nor an empty array or object. */
  lemma DefaultIsUsable(prop: Json, v: Json)
    ensures UsableDefault(prop) == Some(v) <==>
              prop.Obj? && "default" in prop.fields && prop.fields["default"] == v && v != Null && v != Arr([]) && v != Obj(map[])
  {
  }

  /** The caller's arguments are untouched; exactly the missing ones with a usable default among `names` are added. */
  ghost predicate MergedWith(merged: map<string, Json>, args: map<string, Json>, props: map<string, Json>, names: set<string>) {
    forall k ::
      if k in args then k in merged && merged[k] == args[k]
      else if k in props && k in names && UsableDefault(props[k]).Some? then
        k in merged && merged[k] == UsableDefault(props[k]).value
      else k !in merged
  }

  method MergeDefaults(schema: Option<Json>, args: map<string, Json>) returns (merged: map<string, Json>)
    ensures MergedWith(merged, args, PropsOf(schema), PropsOf(schema).Keys)
  {
    merged := args;
    var props := PropsOf(schema);
    var pending := props.Keys;
    while pending != {}
      invariant pending <= props.Keys
      invariant MergedWith(merged, args, props, props.Keys - pending)
    {
      var key :| key in pending;
      if key !in merged && UsableDefault(props[key]).Some? {
        merged := merged[key := UsableDefault(props[key]).value];
      }
      pending := pending - {key};
    }
  }

  // ----- classification -----

  datatype Bucket = PathBucket | QueryBucket | HeaderBucket | BodyBucket

  function ValueToString(v: Json, dump: Json -> string): string {
    match v
    case Str(s) => s
    case Number(repr) => repr
    case Bool(b) => if b then "true" else "false"
    case Null => ""
    case other => dump(other)
  }

  /** A string is sent as it is, without quotes, and nothing for null; only arrays and objects as JSON text. */
  lemma ArgumentText(text: string, items: seq<Json>, fields: map<string, Json>, dump: Json -> string)
    ensures ValueToString(Str(text), dump) == text && ValueToString(Number(text), dump) == text
    ensures ValueToString(Bool(true), dump) == "true" && ValueToString(Bool(false), dump) == "false"
    ensures ValueToString(Null, dump) == ""
    ensures ValueToString(Arr(items), dump) == dump(Arr(items)) && ValueToString(Obj(fields), dump) == dump(Obj(fields))
  {
  }

  function ValuesToStrings(items: seq<Json>, dump: Json -> string): (texts: seq<string>)
    ensures |texts| == |items| && forall i | 0 <= i < |items| :: texts[i] == ValueToString(items[i], dump)
  {
    if items == [] then []
    else ValuesToStrings(items[..|items| - 1], dump) + [ValueToString(items[|items| - 1], dump)]
  }

  function TextAt(props: map<string, Json>, key: string, field: string): Option<string> {
    if key in props && Get(props[key], field).Some? && Get(props[key], field).value.Str?
    then Some(Get(props[key], field).value.text)
    else None
  }

  function BucketNamed(location: string): Bucket {
    if location == "path" then PathBucket
    else if location == "query" then QueryBucket
    else if location == "header" then HeaderBucket
    else BodyBucket
  }

  /** Undeclared arguments and those without a location go to the body. */
  function SentTo(props: map<string, Json>, key: string): Bucket {
    match TextAt(props, key, LOCATION)
    case None => BodyBucket
    case Some(location) => BucketNamed(location)
  }

  /** Exactly the three locations lead out of the body. */
  lemma SentByLocation(props: map<string, Json>, key: string, fields: map<string, Json>)
    requires key in props ==> props[key] == Obj(fields)
    ensures SentTo(props, key) == PathBucket <==> key in props && Keyword(fields, "x-ati-param-location") == Some(Str("path"))
    ensures SentTo(props, key) == QueryBucket <==> key in props && Keyword(fields, "x-ati-param-location") == Some(Str("query"))
    ensures SentTo(props, key) == HeaderBucket <==> key in props && Keyword(fields, "x-ati-param-location") == Some(Str("header"))
  {
    assert |"path"| == 4 && |"query"| == 5 && |"header"| == 6;
  }

  function CollectionNamed(name: string): Collection {
    if name == "csv" then Csv else if name == "ssv" then Ssv else if name == "pipes" then Pipes else Multi
  }

  function CollectionOf(props: map<string, Json>, key: string): Collection {
    match TextAt(props, key, COLLECTION)
    case None => Multi
    case Some(name) => CollectionNamed(name)
  }

  /** What the five maps hold under one name. */
  datatype Slots = Slots(
    path: Option<string>, query: Option<string>, queryArray: Option<(seq<string>, Collection)>,
    header: Option<string>, body: Option<Json>)

  const NOWHERE := Slots(None, None, None, None, None)

  function Look<V>(m: map<string, V>, key: string): Option<V> {
    if key in m then Some(m[key]) else None
  }

  function At(c: Classified, key: string): Slots {
    Slots(Look(c.path, key), Look(c.query, key), Look(c.queryArrays, key), Look(c.header, key), Look(c.body, key))
  }

  /** The slot of a value in a bucket. */
  function SlotIn(bucket: Bucket, value: Json, format: Collection, dump: Json -> string): Slots {
    match bucket
    case PathBucket => NOWHERE.(path := Some(ValueToString(value, dump)))
    case QueryBucket =>
      if value.Arr? then NOWHERE.(queryArray := Some((ValuesToStrings(value.items, dump), format)))
      else NOWHERE.(query := Some(ValueToString(value, dump)))
    case HeaderBucket => NOWHERE.(header := Some(ValueToString(value, dump)))
    case BodyBucket => NOWHERE.(body := Some(value))
  }

  /** The one slot an argument takes. */
  function Slotted(props: map<string, Json>, key: string, value: Json, dump: Json -> string): Slots {
    SlotIn(SentTo(props, key), value, CollectionOf(props, key), dump)
  }

  /** Each argument in `done` stands in its slot and nowhere else, and nothing else stands anywhere. */
  ghost predicate Routed(c: Classified, props: map<string, Json>, args: map<string, Json>, done: set<string>, dump: Json -> string) {
    forall k ::
      At(c, k) == if k in done && k in args then Slotted(props, k, args[k], dump) else NOWHERE
  }

  predicate HasLocations(props: map<string, Json>) {
    exists k | k in props :: Get(props[k], LOCATION).Some?
  }

  ghost predicate OthersStay(c: Classified, d: Classified, key: string) {
    d.form == c.form && forall k | k != key :: At(d, k) == At(c, k)
  }

  method PlaceQuery(c: Classified, key: string, value: Json, format: Collection, dump: Json -> string) returns (d: Classified)
    requires At(c, key) == NOWHERE
    ensures At(d, key) == SlotIn(QueryBucket, value, format, dump) && OthersStay(c, d, key)
  {
    if value.Arr? {
      d := c.(queryArrays := c.queryArrays[key := (ValuesToStrings(value.items, dump), format)]);
    } else {
      d := c.(query := c.query[key := ValueToString(value, dump)]);
    }
  }

  method PlacePath(c: Classified, key: string, text: string) returns (d: Classified)
    requires At(c, key) == NOWHERE
    ensures At(d, key) == NOWHERE.(path := Some(text)) && OthersStay(c, d, key)
  {
    d := c.(path := c.path[key := text]);
  }

  method PlaceHeader(c: Classified, key: string, text: string) returns (d: Classified)
    requires At(c, key) == NOWHERE
    ensures At(d, key) == NOWHERE.(header := Some(text)) && OthersStay(c, d, key)
  {
    d := c.(header := c.header[key := text]);
  }

  method PlaceBody(c: Classified, key: string, value: Json) returns (d: Classified)
    requires At(c, key) == NOWHERE
    ensures At(d, key) == NOWHERE.(body := Some(value)) && OthersStay(c, d, key)
  {
    d := c.(body := c.body[key := value]);
  }

  method Place(c: Classified, props: map<string, Json>, key: string, value: Json, dump: Json -> string) returns (d: Classified)
    requires At(c, key) == NOWHERE
    ensures At(d, key) == Slotted(props, key, value, dump) && OthersStay(c, d, key)
  {
    match SentTo(props, key) {
      case PathBucket => d := PlacePath(c, key, ValueToString(value, dump));
      case QueryBucket => d := PlaceQuery(c, key, value, CollectionOf(props, key), dump);
      case HeaderBucket => d := PlaceHeader(c, key, ValueToString(value, dump));
      case BodyBucket => d := PlaceBody(c, key, value);
    }
  }

  /** `None` for a legacy schema, in which no property carries a location. */
  method ClassifyParams(schema: Option<Json>, args: map<string, Json>, dump: Json -> string) returns (r: Option<Classified>)
    ensures r.Some? <==> exists k | k in PropsOf(schema) :: Get(PropsOf(schema)[k], "x-ati-param-location").Some?
    ensures r.Some? ==> Routed(r.value, PropsOf(schema), args, args.Keys, dump)
    ensures r.Some? ==> (r.value.form <==> Get(schema.value, ENCODING) == Some(Str("form")))
  {
    var props := PropsOf(schema);
    if !HasLocations(props) {
      return None;
    }
    var c := Classified(map[], map[], map[], map[], map[], Get(schema.value, ENCODING) == Some(Str("form")));
    var pending := args.Keys;
    while pending != {}
      invariant pending <= args.Keys
      invariant Routed(c, props, args, args.Keys - pending, dump)
      invariant c.form <==> Get(schema.value, ENCODING) == Some(Str("form"))
    {
      var key :| key in pending;
      var d := Place(c, props, key, args[key], dump);
      assert args.Keys - (pending - {key}) == args.Keys - pending + {key};
      c := d;
      pending := pending - {key};
    }
    assert args.Keys - pending == args.Keys;
    r := Some(c);
  }

  method PrepareRequest(schema: Option<Json>, args: map<string, Json>, dump: Json -> string)
    returns (merged: map<string, Json>, r: Option<Classified>)
    ensures MergedWith(merged, args, PropsOf(schema), PropsOf(schema).Keys)
    ensures r.Some? <==> HasLocations(PropsOf(schema))
    ensures r.Some? ==> Routed(r.value, PropsOf(schema), merged, merged.Keys, dump)
    ensures r.Some? ==> (r.value.form <==> Get(schema.value, ENCODING) == Some(Str("form")))
  {
    merged := MergeDefaults(schema, args);
    r := ClassifyParams(schema, merged, dump);
  }

  // ----- no argument is lost, and each reaches the place recorded for it -----

  function One<V>(o: Option<V>): nat {
    if o.Some? then 1 else 0
  }

  function Occupied(s: Slots): nat {
    One(s.path) + One(s.query) + One(s.queryArray) + One(s.header) + One(s.body)
  }

  /** The five buckets split the arguments between them: each argument is in exactly one, anything else in none. */
  lemma BucketsPartitionArguments(c: Classified, props: map<string, Json>, args: map<string, Json>, dump: Json -> string, key: string)
    requires Routed(c, props, args, args.Keys, dump)
    ensures Occupied(At(c, key)) == if key in args then 1 else 0
  {
    assert At(c, key) == if key in args then Slotted(props, key, args[key], dump) else NOWHERE;
  }

  function LocationBucket(location: Location): Bucket {
    match location
    case InPath => PathBucket
    case InQuery(_) => QueryBucket
    case InCookie => QueryBucket
    case InHeader => HeaderBucket
  }

  /** What the operation leaves recorded for a name: the body first, then the last parameter of that name. */
  function RecordedBucket(params: seq<Ref<Parameter>>, body: Option<RequestBody>, spec: Spec, name: string): Bucket {
    if name in BodyProps(body, spec) || LastNamed(params, spec, name).None? then BodyBucket
    else LocationBucket(LastNamed(params, spec, name).value.location)
  }

  lemma NamesAreBuckets(location: Location)
    ensures BucketNamed(LocationName(location)) == LocationBucket(location)
    ensures BucketNamed("body") == BodyBucket
  {
    assert |"path"| == 4 && |"query"| == 5 && |"header"| == 6 && "body"[0] != "path"[0];
  }

  lemma SentWhereRecorded(params: seq<Ref<Parameter>>, body: Option<RequestBody>, spec: Spec, name: string)
    ensures SentTo(DeclaredProps(params, body, spec), name) == RecordedBucket(params, body, spec, name)
  {
    EveryPropertyIsLocated(params, body, spec, name);
    if name in BodyProps(body, spec) {
      NamesAreBuckets(InPath);
    } else if LastNamed(params, spec, name).Some? {
      NamesAreBuckets(LastNamed(params, spec, name).value.location);
    }
  }

  /** From the operation to the request: if the operation declares anything, each argument, given or default,
      goes to the place recorded for its name, an undeclared one to the body. */
  lemma ArgumentsGoWhereRecorded(schema: Json, params: seq<Ref<Parameter>>, body: Option<RequestBody>, spec: Spec,
                                 args: map<string, Json>, merged: map<string, Json>, r: Option<Classified>,
                                 dump: Json -> string, name: string)
    requires IsInputSchema(schema, params, body, spec)
    requires var props := PropsOf(Some(schema));
             && MergedWith(merged, args, props, props.Keys)
             && (r.Some? <==> HasLocations(props))
             && (r.Some? ==> Routed(r.value, props, merged, merged.Keys, dump))
    ensures r.Some? <==> DeclaredProps(params, body, spec) != map[]
    ensures r.Some? && name in args ==> name in merged && merged[name] == args[name]
    ensures r.Some? && name in merged ==>
              At(r.value, name) == SlotIn(RecordedBucket(params, body, spec, name), merged[name],
                                          CollectionOf(DeclaredProps(params, body, spec), name), dump)
    ensures r.Some? && name !in merged ==> At(r.value, name) == NOWHERE
  {
    var props := DeclaredProps(params, body, spec);
    if props != map[] {
      var k :| k in props;
      EveryPropertyIsLocated(params, body, spec, k);
      assert HasLocations(props);
    }
    SentWhereRecorded(params, body, spec, name);
    if r.Some? && name in merged {
      assert At(r.value, name) == Slotted(props, name, merged[name], dump);
    }
  }

  // ----- parameter by parameter -----

  /** Some other declaration of the name takes the argument elsewhere. */
  predicate Shadowed(params: seq<Ref<Parameter>>, body: Option<RequestBody>, spec: Spec, p: Parameter) {
    p.name in BodyProps(body, spec)
    || (LastNamed(params, spec, p.name).Some?
        && LocationBucket(LastNamed(params, spec, p.name).value.location) != LocationBucket(p.location))
  }

  lemma {:induction false} DeclaredIsNamed(params: seq<Ref<Parameter>>, spec: Spec, i: nat)
    requires i < |params| && ResolveParameter(params[i], spec).Some?
    ensures LastNamed(params, spec, ResolveParameter(params[i], spec).value.name).Some?
  {
    if i < |params| - 1 {
      DeclaredIsNamed(params[..|params| - 1], spec, i);
    }
  }

  /** The part of the request that a parameter of this location belongs to.  None of them carries cookies. */
  function OwnBucket(location: Location): Option<Bucket> {
    match location
    case InPath => Some(PathBucket)
    case InQuery(_) => Some(QueryBucket)
    case InHeader => Some(HeaderBucket)
    case InCookie => None
  }

  /** An argument is sent where a parameter declares it exactly if that is not a cookie and no other declaration
      shadows the parameter. */
  lemma ParameterKeepsItsPlace(params: seq<Ref<Parameter>>, body: Option<RequestBody>, spec: Spec, i: nat)
    requires i < |params| && ResolveParameter(params[i], spec).Some?
    ensures var p := ResolveParameter(params[i], spec).value;
            OwnBucket(p.location) == Some(SentTo(DeclaredProps(params, body, spec), p.name))
            <==> !p.location.InCookie? && !Shadowed(params, body, spec, p)
  {
    DeclaredIsNamed(params, spec, i);
    SentWhereRecorded(params, body, spec, ResolveParameter(params[i], spec).value.name);
  }

  lemma BucketsDiffer(a: Bucket, b: Bucket, value: Json, format: Collection, dump: Json -> string)
    ensures SlotIn(a, value, format, dump) == SlotIn(b, value, format, dump) <==> a == b
  {
  }

  /** The same for the argument itself: it stands, whole, in the slot of the parameter's own location, and nowhere
      else, exactly under that condition. */
  lemma ArgumentReachesItsParameter(schema: Json, params: seq<Ref<Parameter>>, body: Option<RequestBody>, spec: Spec,
                                    merged: map<string, Json>, c: Classified, dump: Json -> string, i: nat)
    requires IsInputSchema(schema, params, body, spec) && Routed(c, PropsOf(Some(schema)), merged, merged.Keys, dump)
    requires i < |params| && ResolveParameter(params[i], spec).Some?
    requires ResolveParameter(params[i], spec).value.name in merged
    ensures var p := ResolveParameter(params[i], spec).value;
            var format := CollectionOf(DeclaredProps(params, body, spec), p.name);
            OwnBucket(p.location).Some? && At(c, p.name) == SlotIn(OwnBucket(p.location).value, merged[p.name], format, dump)
            <==> !p.location.InCookie? && !Shadowed(params, body, spec, p)
  {
    var p := ResolveParameter(params[i], spec).value;
    var props := DeclaredProps(params, body, spec);
    ParameterKeepsItsPlace(params, body, spec, i);
    assert At(c, p.name) == Slotted(props, p.name, merged[p.name], dump);
    if OwnBucket(p.location).Some? {
      BucketsDiffer(SentTo(props, p.name), OwnBucket(p.location).value, merged[p.name], CollectionOf(props, p.name), dump);
    }
  }

  const NO_COMPONENTS := Spec(map[], map[], map[])

  function Plain(location: Location, name: string): Ref<Parameter> {
    Item(Parameter(location, name, true, None, None, ContentFormat, None))
  }

  /** A field `id` of the body takes the argument of the path parameter `id`. */
  lemma BodyFieldTakesPathParameter(field: Schema) returns (params: seq<Ref<Parameter>>, body: RequestBody)
    ensures params == [Plain(InPath, "id")]
    ensures body == RequestBody(true, [MediaType("application/json",
              Some(Item(Schema(ObjectKind(map["id" := Item(field)], []), None, None, None))))])
    ensures SentTo(DeclaredProps(params, Some(body), NO_COMPONENTS), "id") == BodyBucket
  {
    var schema := Schema(ObjectKind(map["id" := Item(field)], []), None, None, None);
    params := [Plain(InPath, "id")];
    body := RequestBody(true, [MediaType("application/json", Some(Item(schema)))]);
    BodyKeepsItsFields(body, schema, NO_COMPONENTS);
    SentWhereRecorded(params, Some(body), NO_COMPONENTS, "id");
  }

  /** OpenAPI allows a path and a query parameter of one name; the later one takes the arguments of both. */
  lemma LaterParameterTakesArgument() returns (params: seq<Ref<Parameter>>)
    ensures params == [Plain(InPath, "id"), Plain(InQuery(Form), "id")]
    ensures SentTo(DeclaredProps(params, None, NO_COMPONENTS), "id") == QueryBucket
  {
    params := [Plain(InPath, "id"), Plain(InQuery(Form), "id")];
    SentWhereRecorded(params, None, NO_COMPONENTS, "id");
  }

  /** The argument of a cookie parameter is sent in the query. */
  lemma CookieIsSentInQuery() returns (params: seq<Ref<Parameter>>)
    ensures params == [Plain(InCookie, "session")]
    ensures SentTo(DeclaredProps(params, None, NO_COMPONENTS), "session") == QueryBucket
  {
    params := [Plain(InCookie, "session")];
    SentWhereRecorded(params, None, NO_COMPONENTS, "session");
  }

  // ----- arrays in the query -----

  function Repeated(key: string, values: seq<string>): seq<(string, string)> {
    if values == [] then [] else Repeated(key, values[..|values| - 1]) + [(key, values[|values| - 1])]
  }

  function Joined(values: seq<string>, separator: string): string {
    if values == [] then ""
    else if |values| == 1 then values[0]
    else values[0] + separator + Joined(values[1..], separator)
  }

  /** Reading a joined text back: the pieces between the separators. */
  function Split(s: string, separator: char): (pieces: seq<string>)
    ensures pieces != []
  {
    if s == [] then [""]
    else
      var rest := Split(s[1..], separator);
      if s[0] == separator then [""] + rest else [[s[0]] + rest[0]] + rest[1..]
  }

  lemma {:induction false} SplitWord(word: string, separator: char)
    requires separator !in word
    ensures Split(word, separator) == [word]
  {
    if word != [] {
      SplitWord(word[1..], separator);
      assert [word[0]] + word[1..] == word;
    }
  }

  lemma {:induction false} SplitFirst(word: string, rest: string, separator: char)
    requires separator !in word
    ensures Split(word + ([separator] + rest), separator) == [word] + Split(rest, separator)
  {
    var s := word + ([separator] + rest);
    if word == [] {
      assert s == [separator] + rest && s[1..] == rest;
    } else {
      assert s[1..] == word[1..] + ([separator] + rest);
      SplitFirst(word[1..], rest, separator);
      assert [word[0]] + word[1..] == word;
    }
  }

  /** Joining loses nothing but the separators that the values hold themselves. */
  lemma {:induction false} JoinedSplits(values: seq<string>, separator: char)
    requires values != [] && forall v | v in values :: separator !in v
    ensures Split(Joined(values, [separator]), separator) == values
  {
    if |values| == 1 {
      SplitWord(values[0], separator);
    } else {
      JoinedSplits(values[1..], separator);
      Assoc(values[0], [separator], Joined(values[1..], [separator]));
      SplitFirst(values[0], Joined(values[1..], [separator]), separator);
    }
  }

  /** The query pairs of an array. */
  function QueryPairs(key: string, values: seq<string>, format: Collection): seq<(string, string)> {
    match format
    case Multi => Repeated(key, values)
    case Csv => [(key, Joined(values, ","))]
    case Ssv => [(key, Joined(values, " "))]
    case Pipes => [(key, Joined(values, "|"))]
  }

  method ApplyQueryArray(query: seq<(string, string)>, key: string, values: seq<string>, format: Collection)
    returns (pairs: seq<(string, string)>)
    ensures pairs == query + QueryPairs(key, values, format)
  {
    match format {
      case Multi =>
        pairs := query;
        for i := 0 to |values|
          invariant pairs == query + Repeated(key, values[..i])
        {
          assert values[..i + 1][..i] == values[..i];
          Assoc(query, Repeated(key, values[..i]), [(key, values[i])]);
          pairs := pairs + [(key, values[i])];
        }
        assert values[..|values|] == values;
      case Csv => pairs := query + [(key, Joined(values, ","))];
      case Ssv => pairs := query + [(key, Joined(values, " "))];
      case Pipes => pairs := query + [(key, Joined(values, "|"))];
    }
  }

  /** The schema is an array, however many references lead to it. */
  ghost predicate IsArray(r: Ref<Schema>, components: Components) {
    exists n: nat :: Followed(r, components, n).Some? && Followed(r, components, n).value.kind.ArrayKind?
  }

  ghost predicate ArrayParameter(p: Parameter, spec: Spec) {
    p.location.InQuery? && p.format.SchemaFormat? && IsArray(p.format.schema, spec.schemas)
  }

  /** Whether the values generate separate parameters: the default is yes for the form style, no for all others. */
  predicate Exploded(style: QueryStyle, explode: Option<bool>) {
    if style.Form? then explode != Some(false) else explode == Some(true)
  }

  /** The query pairs that the style of an array parameter prescribes (OpenAPI 3.0, "Style Values" and `explode`);
      for arrays, `deepObject` prescribes nothing. */
  function StylePairs(style: QueryStyle, explode: Option<bool>, key: string, values: seq<string>): seq<(string, string)> {
    if Repeats(style, explode) then Repeated(key, values)
    else
      var separator := match style case SpaceDelimited => " " case PipeDelimited => "|" case _ => ",";
      [(key, Joined(values, separator))]
  }

  /** The array is to be sent as repeated pairs, which is also what is sent without any declaration. */
  predicate Repeats(style: QueryStyle, explode: Option<bool>) {
    style.DeepObject? || Exploded(style, explode)
  }

  ghost predicate StyleIsKept(p: Parameter, sent: Collection) {
    p.location.InQuery? ==>
      forall values :: QueryPairs(p.name, values, sent) == StylePairs(p.location.style, p.explode, p.name, values)
  }

  lemma CollectionNames()
    ensures CollectionNamed("multi") == Multi && CollectionNamed("csv") == Csv
    ensures CollectionNamed("ssv") == Ssv && CollectionNamed("pipes") == Pipes
  {
    assert |"multi"| == |"pipes"| == 5 && |"csv"| == |"ssv"| == 3 && "csv"[0] != "ssv"[0] && "multi"[0] != "pipes"[0];
  }

  lemma FieldsHaveNoCollection(p: Parameter)
    ensures COLLECTION !in ParameterFields(p)[LOCATION := Str(LocationName(p.location))]
  {
    assert |COLLECTION| == 23 && |LOCATION| == 20;
  }

  lemma CollectionOfLast(params: seq<Ref<Parameter>>, body: Option<RequestBody>, spec: Spec, name: string)
    requires name !in BodyProps(body, spec) && LastNamed(params, spec, name).Some?
    ensures CollectionOf(DeclaredProps(params, body, spec), name) == Sent(LastNamed(params, spec, name).value)
  {
    PropsOfLastNamed(params, spec, name);
    FieldsHaveNoCollection(LastNamed(params, spec, name).value);
  }

  lemma InlineArray(schema: Schema, components: Components)
    ensures IsArray(Item(schema), components) <==> schema.kind.ArrayKind?
  {
    assert Followed(Item(schema), components, 0) == Some(schema);
  }

  lemma EmptyArrayTellsApart(style: QueryStyle, explode: Option<bool>, key: string)
    ensures QueryPairs(key, [], Multi) == StylePairs(style, explode, key, []) <==> Repeats(style, explode)
  {
  }

  function Sent(p: Parameter): Collection {
    if CollectionFormat(p).Some? then CollectionNamed(CollectionFormat(p).value) else Multi
  }

  /** An exploded style with a separator of its own. */
  predicate ExplodedDelimited(p: Parameter)
    requires p.location.InQuery?
  {
    (p.location.style.SpaceDelimited? || p.location.style.PipeDelimited?) && p.explode == Some(true)
  }

  lemma InlineArrayKeepsStyle(p: Parameter)
    requires p.location.InQuery? && p.format.SchemaFormat? && p.format.schema.Item? && p.format.schema.item.kind.ArrayKind?
    ensures StyleIsKept(p, Sent(p)) <==> !ExplodedDelimited(p)
  {
    CollectionNames();
    if ExplodedDelimited(p) {
      assert QueryPairs(p.name, [], Sent(p)) != StylePairs(p.location.style, p.explode, p.name, []);
    }
  }

  lemma ReferencedArrayKeepsRepeats(p: Parameter)
    requires p.location.InQuery? && p.format.SchemaFormat? && p.format.schema.Reference?
    ensures StyleIsKept(p, Sent(p)) <==> Repeats(p.location.style, p.explode)
  {
    EmptyArrayTellsApart(p.location.style, p.explode, p.name);
  }

  /** An array parameter is sent in the style it declares exactly if its schema is written inline and it does not
      explode a delimited style, or its schema is behind a `$ref` and repeated pairs are what the style prescribes. */
  lemma ArraysKeepTheirStyle(params: seq<Ref<Parameter>>, body: Option<RequestBody>, spec: Spec, name: string)
    requires name !in BodyProps(body, spec) && LastNamed(params, spec, name).Some?
    requires ArrayParameter(LastNamed(params, spec, name).value, spec)
    ensures var p := LastNamed(params, spec, name).value;
            StyleIsKept(p, CollectionOf(DeclaredProps(params, body, spec), name))
            <==> if p.format.schema.Item? then !ExplodedDelimited(p) else Repeats(p.location.style, p.explode)
  {
    var p := LastNamed(params, spec, name).value;
    CollectionOfLast(params, body, spec, name);
    if p.format.schema.Item? {
      InlineArray(p.format.schema.item, spec.schemas);
      InlineArrayKeepsStyle(p);
    } else {
      ReferencedArrayKeepsRepeats(p);
    }
  }

  /** A pipe-delimited parameter whose array schema is a component is sent as repeated pairs. */
  lemma ReferencedArrayLosesItsStyle(item: Schema) returns (p: Parameter, spec: Spec)
    requires item.kind.ArrayKind?
    ensures spec == Spec(map["Ids" := Item(item)], map[], map[])
    ensures p == Parameter(InQuery(PipeDelimited), "ids", false, None, None, SchemaFormat(Reference(SCHEMA_PREFIX + "Ids")), None)
    ensures ArrayParameter(p, spec)
    ensures CollectionOf(DeclaredProps([Item(p)], None, spec), "ids") == Multi
    ensures !StyleIsKept(p, Multi)
  {
    spec := Spec(map["Ids" := Item(item)], map[], map[]);
    p := Parameter(InQuery(PipeDelimited), "ids", false, None, None, SchemaFormat(Reference(SCHEMA_PREFIX + "Ids")), None);
    assert (SCHEMA_PREFIX + "Ids")[|SCHEMA_PREFIX|..] == "Ids";
    assert Followed(p.format.schema, spec.schemas, 1) == Some(item);
    CollectionOfLast([Item(p)], None, spec, "ids");
    EmptyArrayTellsApart(PipeDelimited, None, "ids");
  }

  /** An exploded pipe-delimited parameter with an inline array is sent as one joined pair. */
  lemma ExplodedPipesAreJoined(item: Schema, spec: Spec) returns (p: Parameter)
    requires item.kind.ArrayKind?
    ensures p == Parameter(InQuery(PipeDelimited), "ids", false, None, None, SchemaFormat(Item(item)), Some(true))
    ensures ArrayParameter(p, spec)
    ensures CollectionOf(DeclaredProps([Item(p)], None, spec), "ids") == Pipes
    ensures !StyleIsKept(p, Pipes)
  {
    p := Parameter(InQuery(PipeDelimited), "ids", false, None, None, SchemaFormat(Item(item)), Some(true));
    InlineArray(item, spec.schemas);
    CollectionNames();
    CollectionOfLast([Item(p)], None, spec, "ids");
    InlineArrayKeepsStyle(p);
  }
}
