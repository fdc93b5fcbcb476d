/**
 The input schema that is generated for an operation: one property per parameter and per field of the request
 body, each marked with the place its argument is sent to.
 */
module InputSchema {
  import opened Base
  import opened SchemaResolution

  datatype QueryStyle = Form | SpaceDelimited | PipeDelimited | DeepObject

  datatype Location = InPath | InQuery(style: QueryStyle) | InHeader | InCookie

  datatype Format = SchemaFormat(schema: Ref<Schema>) | ContentFormat

  datatype Parameter = Parameter(
    location: Location, name: string, required: bool, description: Option<string>, example: Option<Json>,
    format: Format, explode: Option<bool>)

  datatype MediaType = MediaType(name: string, schema: Option<Ref<Schema>>)

  datatype RequestBody = RequestBody(required: bool, content: seq<MediaType>)

  datatype Spec = Spec(schemas: Components, parameters: map<string, Ref<Parameter>>, bodies: map<string, Ref<RequestBody>>)

  const PARAMETER_PREFIX := "#/components/parameters/"
  const BODY_PREFIX := "#/components/requestBodies/"
  const LOCATION := "x-ati-param-location"
  const COLLECTION := "x-ati-collection-format"
  const ENCODING := "x-ati-body-encoding"
  const PROPERTIES := "properties"
  const REQUIRED := "required"

  function Get(j: Json, key: string): Option<Json> {
    if j.Obj? && key in j.fields then Some(j.fields[key]) else None
  }

  function Fields(j: Option<Json>): map<string, Json> {
    if j.Some? && j.value.Obj? then j.value.fields else map[]
  }

  /** The strings among the items of an array. */
  function Texts(items: seq<Json>): seq<string> {
    if items == [] then []
    else
      var last := items[|items| - 1];
      Texts(items[..|items| - 1]) + if last.Str? then [last.text] else []
  }

  function TextsOf(j: Option<Json>): seq<string> {
    if j.Some? && j.value.Arr? then Texts(j.value.items) else []
  }

  lemma {:induction false} TextsOfStrings(texts: seq<string>)
    ensures Texts(Strings(texts)) == texts
  {
    if texts != [] {
      var n := |texts| - 1;
      TextsOfStrings(texts[..n]);
      assert Strings(texts)[..|Strings(texts)| - 1] == Strings(texts[..n]);
    }
  }

  // ----- parameters -----

  function ResolveParameter(r: Ref<Parameter>, spec: Spec): Option<Parameter> {
    match r
    case Item(p) => Some(p)
    case Reference(reference) =>
      if PARAMETER_PREFIX <= reference && reference[|PARAMETER_PREFIX|..] in spec.parameters
         && spec.parameters[reference[|PARAMETER_PREFIX|..]].Item?
      then Some(spec.parameters[reference[|PARAMETER_PREFIX|..]].item)
      else None
  }

  function LocationName(location: Location): string {
    match location
    case InPath => "path"
    case InQuery(_) => "query"
    case InHeader => "header"
    case InCookie => "query" // cookies are sent as query parameters
  }

  /** The separate look-up of the location, with its own default. */
  function ParameterLocation(r: Ref<Parameter>, spec: Spec): string {
    if ResolveParameter(r, spec).Some? then LocationName(ResolveParameter(r, spec).value.location) else "query"
  }

  function CollectionFormat(p: Parameter): Option<string> {
    if p.location.InQuery? && p.format.SchemaFormat? && p.format.schema.Item? && p.format.schema.item.kind.ArrayKind?
    then
      match p.location.style
      case Form => Some(if p.explode == Some(false) then "csv" else "multi")
      case SpaceDelimited => Some("ssv")
      case PipeDelimited => Some("pipes")
      case DeepObject => None
    else None
  }

  function ParameterFields(p: Parameter): map<string, Json> {
    var fields :=
      if p.format.SchemaFormat? && p.format.schema.Item? then TypeFields(p.format.schema.item)
      else map["type" := Str("string")];
    var described := if p.description.Some? then fields["description" := Str(p.description.value)] else fields;
    Insert(described, "example", p.example)
  }

  function ParameterProp(p: Parameter, location: string): Json {
    var located := ParameterFields(p)[LOCATION := Str(location)];
    Obj(if CollectionFormat(p).Some? then located[COLLECTION := Str(CollectionFormat(p).value)] else located)
  }

  function ParameterProps(params: seq<Ref<Parameter>>, spec: Spec): map<string, Json> {
    if params == [] then map[]
    else
      var front, last := params[..|params| - 1], params[|params| - 1];
      match ResolveParameter(last, spec)
      case None => ParameterProps(front, spec)
      case Some(p) => ParameterProps(front, spec)[p.name := ParameterProp(p, ParameterLocation(last, spec))]
  }

  function RequiredParameters(params: seq<Ref<Parameter>>, spec: Spec): seq<string> {
    if params == [] then []
    else
      var p := ResolveParameter(params[|params| - 1], spec);
      RequiredParameters(params[..|params| - 1], spec) + if p.Some? && p.value.required then [p.value.name] else []
  }

  // ----- request body -----

  function ResolveBody(r: Option<Ref<RequestBody>>, spec: Spec): Option<RequestBody> {
    match r
    case None => None
    case Some(Item(body)) => Some(body)
    case Some(Reference(reference)) =>
      if BODY_PREFIX <= reference && reference[|BODY_PREFIX|..] in spec.bodies
         && spec.bodies[reference[|BODY_PREFIX|..]].Item?
      then Some(spec.bodies[reference[|BODY_PREFIX|..]].item)
      else None
  }

  function Content(content: seq<MediaType>, name: string): Option<MediaType> {
    if content == [] then None else if content[0].name == name then Some(content[0]) else Content(content[1..], name)
  }

  predicate FormEncoded(body: Option<RequestBody>) {
    && body.Some?
    && Content(body.value.content, "application/json").None?
    && Content(body.value.content, "application/x-www-form-urlencoded").Some?
  }

  /** JSON if there is any, then a form, then whatever comes first. */
  function ChosenMedia(body: RequestBody): Option<MediaType> {
    if Content(body.content, "application/json").Some? then Content(body.content, "application/json")
    else if Content(body.content, "application/x-www-form-urlencoded").Some? then
      Content(body.content, "application/x-www-form-urlencoded")
    else if body.content == [] then None
    else Some(body.content[0])
  }

  function BodySchema(body: Option<RequestBody>, spec: Spec): Option<Json> {
    if body.Some? && ChosenMedia(body.value).Some? && ChosenMedia(body.value).value.schema.Some?
    then Some(ResolveSchemaToJson(ChosenMedia(body.value).value.schema.value, spec.schemas))
    else None
  }

  function BodyProps(body: Option<RequestBody>, spec: Spec): map<string, Json> {
    var schema := BodySchema(body, spec);
    if schema.Some? then Fields(Get(schema.value, PROPERTIES)) else map[]
  }

  /** The fields that a required body requires. */
  function BodyRequired(body: Option<RequestBody>, spec: Spec): set<string> {
    if BodySchema(body, spec).Some?
    then Wanted(BodyProps(body, spec), body.value.required, TextsOf(Get(BodySchema(body, spec).value, REQUIRED)))
    else {}
  }

  function Wanted(props: map<string, Json>, bodyRequired: bool, wanted: seq<string>): set<string> {
    set name | name in props && bodyRequired && name in wanted
  }

  function InBody(prop: Json): Json {
    if prop.Obj? then Obj(prop.fields[LOCATION := Str("body")]) else prop
  }

  function Located(props: map<string, Json>, names: set<string>): map<string, Json> {
    map name | name in props && name in names :: InBody(props[name])
  }

  /** The properties of the generated schema: a field of the body replaces a parameter of the same name. */
  function DeclaredProps(params: seq<Ref<Parameter>>, body: Option<RequestBody>, spec: Spec): map<string, Json> {
    ParameterProps(params, spec) + Located(BodyProps(body, spec), BodyProps(body, spec).Keys)
  }

  ghost predicate NeededIs(needed: seq<string>, required: seq<string>, wanted: set<string>) {
    && required <= needed
    && forall name :: name in needed <==> name in required || name in wanted
  }

  ghost predicate IsInputSchema(schema: Json, params: seq<Ref<Parameter>>, body: Option<RequestBody>, spec: Spec) {
    && Get(schema, "type") == Some(Str("object"))
    && Get(schema, PROPERTIES) == Some(Obj(DeclaredProps(params, body, spec)))
    && NeededIs(TextsOf(Get(schema, REQUIRED)), RequiredParameters(params, spec), BodyRequired(body, spec))
    && Get(schema, ENCODING) == if FormEncoded(body) then Some(Str("form")) else None
  }

  function SchemaJson(properties: map<string, Json>, required: seq<string>, form: bool): Json {
    var schema := map["type" := Str("object"), PROPERTIES := Obj(properties)];
    var listed := if required != [] then schema[REQUIRED := Arr(Strings(required))] else schema;
    Obj(if form then listed[ENCODING := Str("form")] else listed)
  }

  lemma KeysDiffer()
    ensures PROPERTIES != REQUIRED && PROPERTIES != ENCODING && REQUIRED != ENCODING
    ensures "type" != PROPERTIES && "type" != REQUIRED && "type" != ENCODING
  {
    assert |PROPERTIES| == 10 && |REQUIRED| == 8 && |ENCODING| == 19 && |"type"| == 4;
  }

  lemma SchemaJsonFields(properties: map<string, Json>, required: seq<string>, form: bool)
    ensures Get(SchemaJson(properties, required, form), "type") == Some(Str("object"))
    ensures Get(SchemaJson(properties, required, form), PROPERTIES) == Some(Obj(properties))
    ensures TextsOf(Get(SchemaJson(properties, required, form), REQUIRED)) == required
    ensures Get(SchemaJson(properties, required, form), ENCODING) == if form then Some(Str("form")) else None
  {
    KeysDiffer();
    TextsOfStrings(required);
    var schema := map["type" := Str("object"), PROPERTIES := Obj(properties)];
    var listed := if required != [] then schema[REQUIRED := Arr(Strings(required))] else schema;
    assert PROPERTIES in listed && listed[PROPERTIES] == Obj(properties) && ENCODING !in listed;
    assert SchemaJson(properties, required, form) == Obj(if form then listed[ENCODING := Str("form")] else listed);
  }

  method AddParameters(params: seq<Ref<Parameter>>, spec: Spec) returns (properties: map<string, Json>, required: seq<string>)
    ensures properties == ParameterProps(params, spec) && required == RequiredParameters(params, spec)
  {
    properties, required := map[], [];
    for i := 0 to |params|
      invariant properties == ParameterProps(params[..i], spec)
      invariant required == RequiredParameters(params[..i], spec)
    {
      assert params[..i + 1][..i] == params[..i];
      var p := ResolveParameter(params[i], spec);
      if p.Some? {
        properties := properties[p.value.name := ParameterProp(p.value, ParameterLocation(params[i], spec))];
        if p.value.required {
          required := required + [p.value.name];
        }
      }
    }
    assert params[..|params|] == params;
  }

  lemma LocateOne(properties: map<string, Json>, props: map<string, Json>, names: set<string>, name: string)
    requires name in props
    ensures (properties + Located(props, names))[name := InBody(props[name])] == properties + Located(props, names + {name})
  {
  }

  method AddBody(properties: map<string, Json>, required: seq<string>, props: map<string, Json>,
                 bodyRequired: bool, wanted: seq<string>)
    returns (all: map<string, Json>, needed: seq<string>)
    ensures all == properties + Located(props, props.Keys)
    ensures NeededIs(needed, required, Wanted(props, bodyRequired, wanted))
  {
    all, needed := properties, required;
    var pending := props.Keys;
    while pending != {}
      invariant pending <= props.Keys
      invariant all == properties + Located(props, props.Keys - pending)
      invariant NeededIs(needed, required, Wanted(props - pending, bodyRequired, wanted))
    {
      var name :| name in pending;
      LocateOne(properties, props, props.Keys - pending, name);
      assert props.Keys - (pending - {name}) == props.Keys - pending + {name};
      all := all[name := InBody(props[name])];
      if bodyRequired && name in wanted {
        needed := needed + [name];
      }
      pending := pending - {name};
    }
    assert props.Keys - pending == props.Keys && props - pending == props;
  }

  lemma NoBodySchema(params: seq<Ref<Parameter>>, body: Option<RequestBody>, spec: Spec)
    requires BodySchema(body, spec).None?
    ensures DeclaredProps(params, body, spec) == ParameterProps(params, spec)
    ensures BodyRequired(body, spec) == {}
  {
  }

  lemma IsDeclared(properties: map<string, Json>, required: seq<string>, params: seq<Ref<Parameter>>,
                   body: Option<RequestBody>, spec: Spec)
    requires properties == DeclaredProps(params, body, spec)
    requires NeededIs(required, RequiredParameters(params, spec), BodyRequired(body, spec))
    ensures IsInputSchema(SchemaJson(properties, required, FormEncoded(body)), params, body, spec)
  {
    SchemaJsonFields(properties, required, FormEncoded(body));
  }

  method BuildInputSchema(pathParams: seq<Ref<Parameter>>, opParams: seq<Ref<Parameter>>,
                          requestBody: Option<Ref<RequestBody>>, spec: Spec)
    returns (schema: Json)
    ensures IsInputSchema(schema, pathParams + opParams, ResolveBody(requestBody, spec), spec)
  {
    var properties, required := AddParameters(pathParams + opParams, spec);
    var body := ResolveBody(requestBody, spec);
    var bodySchema := BodySchema(body, spec);
    if bodySchema.Some? {
      var wanted := TextsOf(Get(bodySchema.value, REQUIRED));
      properties, required := AddBody(properties, required, BodyProps(body, spec), body.value.required, wanted);
    } else {
      NoBodySchema(pathParams + opParams, body, spec);
    }
    IsDeclared(properties, required, pathParams + opParams, body, spec);
    schema := SchemaJson(properties, required, FormEncoded(body));
  }

  // ----- references, and the media type that is taken -----

  /** A reference to a parameter stands for the component it names, unless that is a reference itself. */
  lemma ParameterIsComponent(name: string, reference: string, p: Parameter, spec: Spec)
    ensures ResolveParameter(Item(p), spec) == Some(p)
    ensures name in spec.parameters && spec.parameters[name] == Item(p) ==>
              ResolveParameter(Reference("#/components/parameters/" + name), spec) == Some(p)
    ensures name !in spec.parameters || spec.parameters[name].Reference? ==>
              ResolveParameter(Reference("#/components/parameters/" + name), spec) == None
    ensures !("#/components/parameters/" <= reference) ==> ResolveParameter(Reference(reference), spec) == None
  {
    assert (PARAMETER_PREFIX + name)[|PARAMETER_PREFIX|..] == name;
  }

  lemma BodyIsComponent(name: string, reference: string, body: RequestBody, spec: Spec)
    ensures ResolveBody(Some(Item(body)), spec) == Some(body) && ResolveBody(None, spec) == None
    ensures name in spec.bodies && spec.bodies[name] == Item(body) ==>
              ResolveBody(Some(Reference("#/components/requestBodies/" + name)), spec) == Some(body)
    ensures name !in spec.bodies || spec.bodies[name].Reference? ==>
              ResolveBody(Some(Reference("#/components/requestBodies/" + name)), spec) == None
    ensures !("#/components/requestBodies/" <= reference) ==> ResolveBody(Some(Reference(reference)), spec) == None
  {
    assert (BODY_PREFIX + name)[|BODY_PREFIX|..] == name;
  }

  predicate Offers(content: seq<MediaType>, name: string) {
    exists i | 0 <= i < |content| :: content[i].name == name
  }

  lemma {:induction false} ContentIsOffered(content: seq<MediaType>, name: string)
    ensures Content(content, name).Some? <==> Offers(content, name)
    ensures Content(content, name).Some? ==> Content(content, name).value in content && Content(content, name).value.name == name
  {
    if content != [] {
      ContentIsOffered(content[1..], name);
      if Offers(content, name) && content[0].name != name {
        var i :| 0 <= i < |content| && content[i].name == name;
        assert content[1..][i - 1].name == name;
      }
    }
  }

  /** JSON is taken if it is offered, else a form if that is, else the first media type; and the body is sent as a
      form exactly in the second case. */
  lemma MediaIsChosen(body: RequestBody)
    ensures body.content != [] ==> ChosenMedia(body).Some? && ChosenMedia(body).value in body.content
    ensures body.content == [] ==> ChosenMedia(body).None?
    ensures Offers(body.content, "application/json") ==> ChosenMedia(body).value.name == "application/json"
    ensures !Offers(body.content, "application/json") && Offers(body.content, "application/x-www-form-urlencoded") ==>
              ChosenMedia(body).value.name == "application/x-www-form-urlencoded"
    ensures !Offers(body.content, "application/json") && !Offers(body.content, "application/x-www-form-urlencoded") ==>
              body.content != [] ==> ChosenMedia(body).value == body.content[0]
    ensures FormEncoded(Some(body)) <==>
              !Offers(body.content, "application/json") && Offers(body.content, "application/x-www-form-urlencoded")
    ensures !FormEncoded(None)
  {
    ContentIsOffered(body.content, "application/json");
    ContentIsOffered(body.content, "application/x-www-form-urlencoded");
  }

  // ----- what a generated schema promises -----

  lemma {:induction false} RequiredByFlag(params: seq<Ref<Parameter>>, spec: Spec, name: string)
    ensures name in RequiredParameters(params, spec) <==>
              exists i | 0 <= i < |params| :: Requires(ResolveParameter(params[i], spec), name)
  {
    if params != [] {
      var front, last := params[..|params| - 1], params[|params| - 1];
      RequiredByFlag(front, spec, name);
      if i :| 0 <= i < |params| && Requires(ResolveParameter(params[i], spec), name) {
        assert i == |front| || params[i] == front[i];
      }
      if i :| 0 <= i < |front| && Requires(ResolveParameter(front[i], spec), name) {
        assert params[i] == front[i];
      }
      assert params[|front|] == last;
    }
  }

  predicate Requires(p: Option<Parameter>, name: string) {
    p.Some? && p.value.name == name && p.value.required
  }

  /** A name is required exactly if some parameter of that name is flagged as required, or the body requires it. */
  lemma RequiredExactly(schema: Json, params: seq<Ref<Parameter>>, body: Option<RequestBody>, spec: Spec, name: string)
    requires IsInputSchema(schema, params, body, spec)
    ensures name in TextsOf(Get(schema, "required")) <==>
              || name in BodyRequired(body, spec)
              || exists i | 0 <= i < |params| ::
                   var p := ResolveParameter(params[i], spec); p.Some? && p.value.name == name && p.value.required
  {
    RequiredByFlag(params, spec, name);
    if name in RequiredParameters(params, spec) {
      var i :| 0 <= i < |params| && Requires(ResolveParameter(params[i], spec), name);
      assert ResolveParameter(params[i], spec).value.required;
    }
    if i :| 0 <= i < |params| && (var p := ResolveParameter(params[i], spec); p.Some? && p.value.name == name && p.value.required) {
      assert Requires(ResolveParameter(params[i], spec), name);
    }
  }

  lemma MarksDiffer()
    ensures |LOCATION| == 20 && |COLLECTION| == 23
    ensures LOCATION != "type" && LOCATION != "default" && LOCATION != "description" && LOCATION != "example"
    ensures COLLECTION != "type" && COLLECTION != "default" && COLLECTION != "description" && COLLECTION != "example"
  {
    KeywordsDiffer();
  }

  lemma FieldsByKeyword(p: Parameter, plain: map<string, Json>)
    requires plain == if p.format.SchemaFormat? && p.format.schema.Item? then TypeFields(p.format.schema.item)
                      else map["type" := Str("string")]
    ensures Keyword(ParameterFields(p), "type") == Keyword(plain, "type")
    ensures Keyword(ParameterFields(p), "default") == Keyword(plain, "default")
    ensures Keyword(ParameterFields(p), "description") ==
              if p.description.Some? then Some(Str(p.description.value)) else Keyword(plain, "description")
    ensures Keyword(ParameterFields(p), "example") == if p.example.Some? then p.example else Keyword(plain, "example")
  {
    KeywordsDiffer();
  }

  /** The property of a parameter: the type and default of its inline schema, or plainly a string; its own
      description and example before those of the schema; and where and how its argument is sent. */
  lemma PropertyByKeyword(p: Parameter, location: string)
    ensures var plain := if p.format.SchemaFormat? && p.format.schema.Item? then TypeFields(p.format.schema.item)
                         else map["type" := Str("string")];
            && Get(ParameterProp(p, location), "type") == Keyword(plain, "type")
            && Get(ParameterProp(p, location), "default") == Keyword(plain, "default")
            && Get(ParameterProp(p, location), "description") ==
                 (if p.description.Some? then Some(Str(p.description.value)) else Keyword(plain, "description"))
            && Get(ParameterProp(p, location), "example") == (if p.example.Some? then p.example else Keyword(plain, "example"))
    ensures Get(ParameterProp(p, location), "x-ati-param-location") == Some(Str(location))
    ensures Get(ParameterProp(p, location), "x-ati-collection-format") ==
              if CollectionFormat(p).Some? then Some(Str(CollectionFormat(p).value)) else None
  {
    MarksDiffer();
    var plain := if p.format.SchemaFormat? && p.format.schema.Item? then TypeFields(p.format.schema.item)
                 else map["type" := Str("string")];
    FieldsByKeyword(p, plain);
    NoMarks(p);
  }

  lemma NoMarks(p: Parameter)
    ensures COLLECTION !in ParameterFields(p)
  {
    MarksDiffer();
    KeywordsDiffer();
  }

  /** A field of the body is what its schema resolves to, and only its location is new. */
  lemma BodyFieldByKeyword(params: seq<Ref<Parameter>>, body: Option<RequestBody>, spec: Spec, name: string, key: string)
    requires name in BodyProps(body, spec)
    ensures name in DeclaredProps(params, body, spec)
    ensures Get(DeclaredProps(params, body, spec)[name], key) ==
              if key == "x-ati-param-location" then Some(Str("body")) else Get(BodyProps(body, spec)[name], key)
  {
    ResolvesToObject(ChosenMedia(body.value).value.schema.value, spec.schemas, 0);
  }

  /** And that is, for a field whose schema is written inline, the plain part of its schema; for one behind
      references, what the schema behind them resolves to. */
  lemma BodyFieldResolves(body: RequestBody, schema: Schema, spec: Spec, name: string) returns (depth: nat)
    requires BodyIs(body, spec, schema) && schema.kind.ObjectKind? && name in schema.kind.properties
    ensures depth < MAX_SCHEMA_DEPTH && name in BodyProps(Some(body), spec)
    ensures BodyProps(Some(body), spec)[name] ==
              match schema.kind.properties[name]
              case Item(inner) => Obj(TypeFields(inner))
              case Reference(reference) => ResolveRef(reference, spec.schemas, depth + 1, TRUNCATED)
  {
    depth := FollowedResolves(ChosenMedia(body).value.schema.value, spec.schemas, 0, TRUNCATED, 15);
    ObjectJsonShape(schema, ResolveProps(schema.kind.properties, spec.schemas, depth, TRUNCATED), schema.kind.required);
  }

  lemma {:induction false} RequiredParametersAreProps(params: seq<Ref<Parameter>>, spec: Spec, name: string)
    requires name in RequiredParameters(params, spec)
    ensures name in ParameterProps(params, spec)
  {
    if params != [] {
      var n := |params| - 1;
      if name in RequiredParameters(params[..n], spec) {
        RequiredParametersAreProps(params[..n], spec, name);
      }
    }
  }

  /** Required names are properties. */
  lemma RequiredAreDeclared(schema: Json, params: seq<Ref<Parameter>>, body: Option<RequestBody>, spec: Spec, name: string)
    requires IsInputSchema(schema, params, body, spec)
    requires name in TextsOf(Get(schema, REQUIRED))
    ensures name in Fields(Get(schema, PROPERTIES))
  {
    if name in RequiredParameters(params, spec) {
      RequiredParametersAreProps(params, spec, name);
    }
  }

  /** The last parameter of that name: a later one replaces an earlier one. */
  function LastNamed(params: seq<Ref<Parameter>>, spec: Spec, name: string): Option<Parameter> {
    if params == [] then None
    else
      var p := ResolveParameter(params[|params| - 1], spec);
      if p.Some? && p.value.name == name then p else LastNamed(params[..|params| - 1], spec, name)
  }

  lemma {:induction false} PropsOfLastNamed(params: seq<Ref<Parameter>>, spec: Spec, name: string)
    ensures name in ParameterProps(params, spec) <==> LastNamed(params, spec, name).Some?
    ensures LastNamed(params, spec, name).Some? ==>
              var p := LastNamed(params, spec, name).value;
              ParameterProps(params, spec)[name] == ParameterProp(p, LocationName(p.location))
  {
    if params != [] {
      PropsOfLastNamed(params[..|params| - 1], spec, name);
    }
  }

  ghost predicate ObjectsOnly(props: map<string, Json>) {
    forall name | name in props :: props[name].Obj?
  }

  lemma TypeFieldsHaveNoProps(schema: Schema)
    ensures PROPERTIES !in TypeFields(schema)
  {
  }

  lemma {:induction false} ResolvesToObject(r: Ref<Schema>, components: Components, depth: nat)
    ensures var j := Resolve(r, components, depth, TRUNCATED);
            j.Obj? && ObjectsOnly(Fields(Get(j, PROPERTIES)))
    decreases MAX_SCHEMA_DEPTH - depth, 1
  {
    if depth < MAX_SCHEMA_DEPTH {
      match r
      case Reference(reference) => RefResolvesToObject(reference, components, depth + 1);
      case Item(schema) =>
        TypeFieldsHaveNoProps(schema);
        if schema.kind.ObjectKind? {
          var props := ResolveProps(schema.kind.properties, components, depth, TRUNCATED);
          forall name | name in props
            ensures props[name].Obj?
          {
            if schema.kind.properties[name].Reference? {
              RefResolvesToObject(schema.kind.properties[name].reference, components, depth + 1);
            }
          }
        }
    }
  }

  lemma {:induction false} RefResolvesToObject(reference: string, components: Components, depth: nat)
    ensures var j := ResolveRef(reference, components, depth, TRUNCATED);
            j.Obj? && ObjectsOnly(Fields(Get(j, PROPERTIES)))
    decreases MAX_SCHEMA_DEPTH - depth, 1
  {
    if depth < MAX_SCHEMA_DEPTH && Target(reference, components).Some? {
      ResolvesToObject(Target(reference, components).value, components, depth + 1);
    }
  }

  lemma TypeFieldsHaveNoRequired(schema: Schema)
    ensures REQUIRED !in TypeFields(schema)
  {
  }

  lemma ObjectJsonShape(schema: Schema, props: map<string, Json>, required: seq<string>)
    ensures Fields(Get(ObjectJson(schema, props, required), PROPERTIES)) == props
    ensures TextsOf(Get(ObjectJson(schema, props, required), REQUIRED)) == required
  {
    KeysDiffer();
    TypeFieldsHaveNoProps(schema);
    TypeFieldsHaveNoRequired(schema);
    TextsOfStrings(required);
  }

  /** The body's schema is one of its own, or a chain of at most 15 references to one. */
  predicate BodyIs(body: RequestBody, spec: Spec, schema: Schema) {
    && ChosenMedia(body).Some? && ChosenMedia(body).value.schema.Some?
    && Followed(ChosenMedia(body).value.schema.value, spec.schemas, 15) == Some(schema)
  }

  /** A body whose schema is an object, inline or behind references, keeps the names of its fields, and requires
      exactly those that its schema requires and has, if the body itself is required. */
  lemma BodyKeepsItsFields(body: RequestBody, schema: Schema, spec: Spec)
    requires BodyIs(body, spec, schema) && schema.kind.ObjectKind?
    ensures BodyProps(Some(body), spec).Keys == schema.kind.properties.Keys
    ensures BodyRequired(Some(body), spec)
         == set name | name in schema.kind.properties && body.required && name in schema.kind.required
  {
    var d := FollowedResolves(ChosenMedia(body).value.schema.value, spec.schemas, 0, TRUNCATED, 15);
    ObjectJsonShape(schema, ResolveProps(schema.kind.properties, spec.schemas, d, TRUNCATED), schema.kind.required);
  }

  lemma PlainHasNoProps()
    ensures Fields(Get(PLAIN_OBJECT, PROPERTIES)) == map[] && Fields(Get(TRUNCATED, PROPERTIES)) == map[]
  {
    KeysDiffer();
    assert |"description"| == 11 && |PROPERTIES| == 10;
  }

  /** Behind a longer chain, or a broken one, the body has no fields at all. */
  lemma BodyBehindLongChainIsEmpty(body: RequestBody, spec: Spec)
    requires ChosenMedia(body).Some? && ChosenMedia(body).value.schema.Some?
    requires Followed(ChosenMedia(body).value.schema.value, spec.schemas, 15).None?
    ensures BodyProps(Some(body), spec) == map[]
  {
    UnfollowedResolves(ChosenMedia(body).value.schema.value, spec.schemas, 0, TRUNCATED, 15);
    PlainHasNoProps();
  }

  /** The location that is left for a name: a field of the body wins, then the last parameter of the name. */
  function RecordedLocation(params: seq<Ref<Parameter>>, body: Option<RequestBody>, spec: Spec, name: string): Option<string> {
    if name in BodyProps(body, spec) then Some("body")
    else
      var p := LastNamed(params, spec, name);
      if p.Some? then Some(LocationName(p.value.location)) else None
  }

  lemma PropCarriesLocation(p: Parameter, location: string)
    ensures Get(ParameterProp(p, location), LOCATION) == Some(Str(location))
  {
    assert |LOCATION| != |COLLECTION|;
  }

  /** Every property of a generated schema carries a location, that of the last declaration of its name. */
  lemma EveryPropertyIsLocated(params: seq<Ref<Parameter>>, body: Option<RequestBody>, spec: Spec, name: string)
    ensures var props, location := DeclaredProps(params, body, spec), RecordedLocation(params, body, spec, name);
            if name in props then location.Some? && Get(props[name], LOCATION) == Some(Str(location.value))
            else location.None?
  {
    PropsOfLastNamed(params, spec, name);
    if name in BodyProps(body, spec) {
      ResolvesToObject(ChosenMedia(body.value).value.schema.value, spec.schemas, 0);
    } else if LastNamed(params, spec, name).Some? {
      var p := LastNamed(params, spec, name).value;
      PropCarriesLocation(p, LocationName(p.location));
    }
  }
}
