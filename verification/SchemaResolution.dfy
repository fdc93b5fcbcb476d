/**
 JSON values, and the resolution of an OpenAPI schema to JSON.  References are followed to a bounded depth,
 so that a cyclic specification is cut off instead of overflowing the stack.
 */
module SchemaResolution {
  import opened Base

  datatype Json =
    | Null
    | Bool(flag: bool)
    | Number(repr: string)
    | Str(text: string)
    | Arr(items: seq<Json>)
    | Obj(fields: map<string, Json>)

  /** What a specification holds at a place where a `$ref` may stand. */
  datatype Ref<T> = Item(item: T) | Reference(reference: string)

  datatype Kind =
    | StringKind(enumeration: seq<Option<string>>)
    | NumberKind
    | IntegerKind
    | BooleanKind
    | ObjectKind(properties: map<string, Ref<Schema>>, required: seq<string>)
    | ArrayKind(items: Option<Ref<Schema>>)
    | OtherKind // oneOf, anyOf, allOf, not, any

  datatype Schema = Schema(kind: Kind, description: Option<string>, defaultValue: Option<Json>, example: Option<Json>)

  type Components = map<string, Ref<Schema>>

  const SCHEMA_PREFIX := "#/components/schemas/"
  const MAX_SCHEMA_DEPTH := 32
  const PLAIN_OBJECT := Obj(map["type" := Str("object")])
  const TRUNCATED := Obj(map["type" := Str("object"), "description" := Str("(schema too deeply nested)")])

  function Strings(texts: seq<string>): seq<Json> {
    if texts == [] then [] else Strings(texts[..|texts| - 1]) + [Str(texts[|texts| - 1])]
  }

  function Given(texts: seq<Option<string>>): seq<Json> {
    if texts == [] then []
    else
      var last := texts[|texts| - 1];
      Given(texts[..|texts| - 1]) + if last.Some? then [Str(last.value)] else []
  }

  function Insert(fields: map<string, Json>, key: string, value: Option<Json>): map<string, Json> {
    if value.Some? then fields[key := value.value] else fields
  }

  /** The JSON type of a schema, without the properties of an object. */
  function TypeFields(schema: Schema): map<string, Json> {
    var fields :=
      match schema.kind
      case StringKind(enumeration) =>
        if enumeration == [] then map["type" := Str("string")]
        else map["type" := Str("string"), "enum" := Arr(Given(enumeration))]
      case NumberKind => map["type" := Str("number")]
      case IntegerKind => map["type" := Str("integer")]
      case BooleanKind => map["type" := Str("boolean")]
      case ObjectKind(_, _) => map["type" := Str("object")]
      case ArrayKind(items) => (
        match items
        case None => map["type" := Str("array")]
        case Some(Item(inner)) => map["type" := Str("array"), "items" := Obj(TypeFields(inner))]
        case Some(Reference(_)) => map["type" := Str("array"), "items" := PLAIN_OBJECT])
      case OtherKind => map["type" := Str("string")];
    var described := if schema.description.Some? then fields["description" := Str(schema.description.value)] else fields;
    Insert(Insert(described, "default", schema.defaultValue), "example", schema.example)
  }

  function Keyword(fields: map<string, Json>, key: string): Option<Json> {
    if key in fields then Some(fields[key]) else None
  }

  lemma KeywordsDiffer()
    ensures "type" != "enum" && "default" != "example"
    ensures |"type"| == |"enum"| == 4 && |"items"| == 5 && |"description"| == 11 && |"default"| == |"example"| == 7
  {
    assert "type"[0] == 't' && "enum"[0] == 'e' && "default"[0] == 'd' && "example"[0] == 'e';
  }

  /** The values of an enumeration are its texts; a null among them is left out. */
  lemma {:induction false} GivenHolds(texts: seq<Option<string>>, j: Json)
    ensures j in Given(texts) <==> j.Str? && Some(j.text) in texts
  {
    if texts != [] {
      var front, last := texts[..|texts| - 1], texts[|texts| - 1];
      GivenHolds(front, j);
      assert texts == front + [last];
    }
  }

  lemma {:induction false} GivenInOrder(texts: seq<Option<string>>)
    requires forall i | 0 <= i < |texts| :: texts[i].Some?
    ensures |Given(texts)| == |texts|
    ensures forall i | 0 <= i < |texts| :: Given(texts)[i] == Str(texts[i].value)
  {
    if texts != [] {
      GivenInOrder(texts[..|texts| - 1]);
    }
  }

  /** What a JSON schema says of the plain part of a schema, keyword by keyword. */
  lemma TypeByKeyword(schema: Schema)
    ensures Keyword(TypeFields(schema), "type") == Some(Str(
              match schema.kind
              case NumberKind => "number"
              case IntegerKind => "integer"
              case BooleanKind => "boolean"
              case ObjectKind(_, _) => "object"
              case ArrayKind(_) => "array"
              case _ => "string"))
    ensures Keyword(TypeFields(schema), "enum") ==
              if schema.kind.StringKind? && schema.kind.enumeration != [] then Some(Arr(Given(schema.kind.enumeration))) else None
    ensures Keyword(TypeFields(schema), "items") ==
              (if schema.kind.ArrayKind? && schema.kind.items.Some?
               then Some(if schema.kind.items.value.Item? then Obj(TypeFields(schema.kind.items.value.item))
                         else Obj(map["type" := Str("object")]))
               else None)
  {
    KeywordsDiffer();
  }

  lemma DataByKeyword(schema: Schema)
    ensures Keyword(TypeFields(schema), "description") ==
              if schema.description.Some? then Some(Str(schema.description.value)) else None
    ensures Keyword(TypeFields(schema), "default") == schema.defaultValue
    ensures Keyword(TypeFields(schema), "example") == schema.example
  {
    KeywordsDiffer();
  }

  function Target(reference: string, components: Components): Option<Ref<Schema>> {
    if SCHEMA_PREFIX <= reference && reference[|SCHEMA_PREFIX|..] in components
    then Some(components[reference[|SCHEMA_PREFIX|..]])
    else None
  }

  /** A reference leads to the component it names, if there is one, and any other leads nowhere. */
  lemma TargetIsComponent(name: string, reference: string, components: Components)
    ensures Target("#/components/schemas/" + name, components) == if name in components then Some(components[name]) else None
    ensures !("#/components/schemas/" <= reference) ==> Target(reference, components) == None
  {
    assert (SCHEMA_PREFIX + name)[|SCHEMA_PREFIX|..] == name;
  }

  /** An object schema, given what its properties resolve to. */
  function ObjectJson(schema: Schema, props: map<string, Json>, required: seq<string>): Json {
    var fields := TypeFields(schema);
    var withProps := if props != map[] then fields["properties" := Obj(props)] else fields;
    Obj(if required != [] then withProps["required" := Arr(Strings(required))] else withProps)
  }

  // ----- the bounded resolution; `cut` is what stands where the depth runs out -----

  function Resolve(r: Ref<Schema>, components: Components, depth: nat, cut: Json): Json
    decreases MAX_SCHEMA_DEPTH - depth
  {
    if depth >= MAX_SCHEMA_DEPTH then cut
    else
      match r
      case Reference(reference) => ResolveRef(reference, components, depth + 1, cut)
      case Item(schema) =>
        if schema.kind.ObjectKind?
        then ObjectJson(schema, ResolveProps(schema.kind.properties, components, depth, cut), schema.kind.required)
        else Obj(TypeFields(schema))
  }

  function ResolveProps(props: map<string, Ref<Schema>>, components: Components, depth: nat, cut: Json): map<string, Json>
    requires depth < MAX_SCHEMA_DEPTH
    decreases MAX_SCHEMA_DEPTH - depth, 0
  {
    map name | name in props ::
      match props[name]
      case Item(schema) => Obj(TypeFields(schema))
      case Reference(reference) => ResolveRef(reference, components, depth + 1, cut)
  }

  function ResolveRef(reference: string, components: Components, depth: nat, cut: Json): Json
    decreases MAX_SCHEMA_DEPTH - depth
  {
    if depth >= MAX_SCHEMA_DEPTH then cut
    else
      match Target(reference, components)
      case None => PLAIN_OBJECT
      case Some(r) => Resolve(r, components, depth + 1, cut)
  }

  function ResolveSchemaToJson(r: Ref<Schema>, components: Components): Json {
    Resolve(r, components, 0, TRUNCATED)
  }

  /** A reference that leads nowhere stands for an object about which nothing is known. */
  lemma BrokenReferenceIsObject(reference: string, components: Components)
    requires Target(reference, components).None?
    ensures ResolveSchemaToJson(Reference(reference), components) == Obj(map["type" := Str("object")])
  {
    assert Resolve(Reference(reference), components, 0, TRUNCATED) == ResolveRef(reference, components, 1, TRUNCATED);
  }

  // ----- chains of references -----

  /** No chain of references that starts at `r` takes more than `n` hops.  A hop is a reference that is found. */
  predicate HopsWithin(r: Ref<Schema>, components: Components, n: nat)
    decreases n, 1
  {
    match r
    case Reference(reference) => RefWithin(reference, components, n)
    case Item(schema) =>
      schema.kind.ObjectKind? ==>
        forall name | name in schema.kind.properties && schema.kind.properties[name].Reference? ::
          RefWithin(schema.kind.properties[name].reference, components, n)
  }

  predicate RefWithin(reference: string, components: Components, n: nat)
    decreases n, 0
  {
    Target(reference, components).Some? ==> n > 0 && HopsWithin(Target(reference, components).value, components, n - 1)
  }

  /** The resolution without any cut-off, where all chains end. */
  function Full(r: Ref<Schema>, components: Components, n: nat): Json
    requires HopsWithin(r, components, n)
    decreases n, 2
  {
    match r
    case Reference(reference) => FullRef(reference, components, n)
    case Item(schema) =>
      if schema.kind.ObjectKind?
      then ObjectJson(schema, FullProps(schema.kind.properties, components, n), schema.kind.required)
      else Obj(TypeFields(schema))
  }

  function FullProps(props: map<string, Ref<Schema>>, components: Components, n: nat): map<string, Json>
    requires forall name | name in props && props[name].Reference? :: RefWithin(props[name].reference, components, n)
    decreases n, 1
  {
    map name | name in props ::
      match props[name]
      case Item(schema) => Obj(TypeFields(schema))
      case Reference(reference) => FullRef(reference, components, n)
  }

  function FullRef(reference: string, components: Components, n: nat): Json
    requires RefWithin(reference, components, n)
    decreases n, 0
  {
    match Target(reference, components)
    case None => PLAIN_OBJECT
    case Some(r) => Full(r, components, n - 1)
  }

  /** The bound on the chains is a witness only: any bound gives the same resolution. */
  lemma {:induction false} FullIsUnique(r: Ref<Schema>, components: Components, n: nat, m: nat)
    requires HopsWithin(r, components, n) && HopsWithin(r, components, m)
    ensures Full(r, components, n) == Full(r, components, m)
    decreases n, 1
  {
    match r
    case Reference(reference) => FullRefIsUnique(reference, components, n, m);
    case Item(schema) =>
      if schema.kind.ObjectKind? {
        var props := schema.kind.properties;
        forall name | name in props && props[name].Reference?
          ensures FullRef(props[name].reference, components, n) == FullRef(props[name].reference, components, m)
        {
          FullRefIsUnique(props[name].reference, components, n, m);
        }
        assert FullProps(props, components, n) == FullProps(props, components, m);
      }
  }

  lemma {:induction false} FullRefIsUnique(reference: string, components: Components, n: nat, m: nat)
    requires RefWithin(reference, components, n) && RefWithin(reference, components, m)
    ensures FullRef(reference, components, n) == FullRef(reference, components, m)
    decreases n, 0
  {
    if Target(reference, components).Some? {
      FullIsUnique(Target(reference, components).value, components, n - 1, m - 1);
    }
  }

  // ----- the cut-off is invisible up to 15 hops -----

  lemma {:induction false} ResolveIsFull(r: Ref<Schema>, components: Components, depth: nat, cut: Json, n: nat)
    requires depth + 2 * n <= MAX_SCHEMA_DEPTH - 2
    requires HopsWithin(r, components, n)
    ensures Resolve(r, components, depth, cut) == Full(r, components, n)
    decreases n, 1
  {
    match r
    case Reference(reference) => ResolveRefIsFull(reference, components, depth + 1, cut, n);
    case Item(schema) =>
      if schema.kind.ObjectKind? {
        var props := schema.kind.properties;
        forall name | name in props && props[name].Reference?
          ensures ResolveRef(props[name].reference, components, depth + 1, cut) == FullRef(props[name].reference, components, n)
        {
          ResolveRefIsFull(props[name].reference, components, depth + 1, cut, n);
        }
        assert ResolveProps(props, components, depth, cut) == FullProps(props, components, n);
      }
  }

  lemma {:induction false} ResolveRefIsFull(reference: string, components: Components, depth: nat, cut: Json, n: nat)
    requires depth + 2 * n <= MAX_SCHEMA_DEPTH - 1
    requires RefWithin(reference, components, n)
    ensures ResolveRef(reference, components, depth, cut) == FullRef(reference, components, n)
    decreases n, 0
  {
    if Target(reference, components).Some? {
      ResolveIsFull(Target(reference, components).value, components, depth + 1, cut, n - 1);
    }
  }

  /** With a chain of more than `n` hops, what stands at the cut shows in the result. */
  lemma {:induction false} CutShows(r: Ref<Schema>, components: Components, depth: nat, c: Json, d: Json, n: nat)
    requires depth + 2 * n == MAX_SCHEMA_DEPTH - 2 && c != d
    requires !HopsWithin(r, components, n)
    ensures Resolve(r, components, depth, c) != Resolve(r, components, depth, d)
    decreases n, 1
  {
    match r
    case Reference(reference) => CutShowsAtRef(reference, components, depth + 1, c, d, n);
    case Item(schema) =>
      var props := schema.kind.properties;
      var name :| name in props && props[name].Reference? && !RefWithin(props[name].reference, components, n);
      CutShowsAtRef(props[name].reference, components, depth + 1, c, d, n);
      var p, q := ResolveProps(props, components, depth, c), ResolveProps(props, components, depth, d);
      assert p[name] != q[name];
      PropsShow(schema, p, q, schema.kind.required);
  }

  lemma {:induction false} CutShowsAtRef(reference: string, components: Components, depth: nat, c: Json, d: Json, n: nat)
    requires depth + 2 * n == MAX_SCHEMA_DEPTH - 1 && c != d
    requires !RefWithin(reference, components, n)
    ensures ResolveRef(reference, components, depth, c) != ResolveRef(reference, components, depth, d)
    decreases n, 0
  {
    if n > 0 {
      CutShows(Target(reference, components).value, components, depth + 1, c, d, n - 1);
    }
  }

  lemma PropsShow(schema: Schema, p: map<string, Json>, q: map<string, Json>, required: seq<string>)
    requires p != q && p != map[] && q != map[]
    ensures ObjectJson(schema, p, required) != ObjectJson(schema, q, required)
  {
    assert ObjectJson(schema, p, required).fields["properties"] == Obj(p);
    assert ObjectJson(schema, q, required).fields["properties"] == Obj(q);
  }

  /** The depth limit is faithful exactly on the schemas whose chains have at most 15 hops: there the result
      is the unbounded resolution, and elsewhere the truncation mark is part of the result. */
  lemma LimitIsFaithfulUpTo15Hops(r: Ref<Schema>, components: Components, c: Json, d: Json)
    requires c != d
    ensures Resolve(r, components, 0, c) == Resolve(r, components, 0, d) <==> HopsWithin(r, components, 15)
    ensures HopsWithin(r, components, 15) ==> ResolveSchemaToJson(r, components) == Full(r, components, 15)
  {
    if HopsWithin(r, components, 15) {
      ResolveIsFull(r, components, 0, c, 15);
      ResolveIsFull(r, components, 0, d, 15);
      ResolveIsFull(r, components, 0, TRUNCATED, 15);
    } else {
      CutShows(r, components, 0, c, d, 15);
    }
  }

  /** A component that refers to itself alone resolves to the truncation mark. */
  lemma {:induction false} SelfReferenceIsCut(name: string, components: Components, depth: nat)
    requires name in components && components[name] == Reference("#/components/schemas/" + name)
    ensures Resolve(Reference("#/components/schemas/" + name), components, depth, TRUNCATED) ==
              Obj(map["type" := Str("object"), "description" := Str("(schema too deeply nested)")])
    decreases MAX_SCHEMA_DEPTH - depth
  {
    TargetIsComponent(name, "", components);
    if depth < MAX_SCHEMA_DEPTH - 1 {
      SelfReferenceIsCut(name, components, depth + 2);
    }
  }

  // ----- following references -----

  /** The schema that `r` stands for, at most `n` hops away. */
  function Followed(r: Ref<Schema>, components: Components, n: nat): Option<Schema>
    decreases n
  {
    match r
    case Item(schema) => Some(schema)
    case Reference(reference) =>
      if n == 0 || Target(reference, components).None? then None
      else Followed(Target(reference, components).value, components, n - 1)
  }

  /** While the depth lasts, a reference resolves to what the schema behind it resolves to. */
  lemma {:induction false} FollowedResolves(r: Ref<Schema>, components: Components, depth: nat, cut: Json, n: nat)
    returns (d: nat)
    requires Followed(r, components, n).Some? && depth + 2 * n < MAX_SCHEMA_DEPTH
    ensures d < MAX_SCHEMA_DEPTH
    ensures Resolve(r, components, depth, cut) == Resolve(Item(Followed(r, components, n).value), components, d, cut)
    decreases n
  {
    match r
    case Item(_) => d := depth;
    case Reference(reference) =>
      d := FollowedResolves(Target(reference, components).value, components, depth + 2, cut, n - 1);
  }

  /** A chain that is longer, or that breaks off, resolves to no schema at all. */
  lemma {:induction false} UnfollowedResolves(r: Ref<Schema>, components: Components, depth: nat, cut: Json, n: nat)
    requires Followed(r, components, n).None? && depth + 2 * n == MAX_SCHEMA_DEPTH - 2
    ensures Resolve(r, components, depth, cut) == PLAIN_OBJECT || Resolve(r, components, depth, cut) == cut
    decreases n
  {
    assert Resolve(r, components, depth, cut) == ResolveRef(r.reference, components, depth + 1, cut);
    if Target(r.reference, components).Some? {
      var target := Target(r.reference, components).value;
      assert ResolveRef(r.reference, components, depth + 1, cut) == Resolve(target, components, depth + 2, cut);
      if n > 0 {
        UnfollowedResolves(target, components, depth + 2, cut, n - 1);
      }
    }
  }

  // ----- cyclic specifications -----

  predicate RefersTo(r: Ref<Schema>, reference: string) {
    match r
    case Reference(s) => s == reference
    case Item(schema) =>
      schema.kind.ObjectKind? && exists p | p in schema.kind.properties :: schema.kind.properties[p] == Reference(reference)
  }

  /** The `i`-th reference of the loop is found, and what it stands for leads to the next one. */
  predicate LinkAt(loop: seq<string>, i: nat, components: Components)
    requires i < |loop|
  {
    && Target(loop[i], components).Some?
    && RefersTo(Target(loop[i], components).value, loop[if i + 1 < |loop| then i + 1 else 0])
  }

  predicate Cyclic(loop: seq<string>, components: Components) {
    forall i | 0 <= i < |loop| :: LinkAt(loop, i, components)
  }

  lemma BeyondOneHop(r: Ref<Schema>, reference: string, components: Components, n: nat)
    requires RefersTo(r, reference) && !RefWithin(reference, components, n)
    ensures !HopsWithin(r, components, n)
  {
  }

  /** Chains that reach a cycle are longer than any bound, so the resolution of a cyclic schema is always cut. */
  lemma {:induction false} CycleIsAlwaysCut(loop: seq<string>, i: nat, components: Components, n: nat)
    requires Cyclic(loop, components) && i < |loop|
    ensures !RefWithin(loop[i], components, n)
    decreases n
  {
    assert LinkAt(loop, i, components);
    if n > 0 {
      var next := if i + 1 < |loop| then i + 1 else 0;
      CycleIsAlwaysCut(loop, next, components, n - 1);
      BeyondOneHop(Target(loop[i], components).value, loop[next], components, n - 1);
    }
  }

  lemma CyclicSchemaIsTruncated(loop: seq<string>, i: nat, components: Components, c: Json, d: Json)
    requires Cyclic(loop, components) && i < |loop| && c != d
    ensures Resolve(Reference(loop[i]), components, 0, c) != Resolve(Reference(loop[i]), components, 0, d)
  {
    CycleIsAlwaysCut(loop, i, components, 15);
    LimitIsFaithfulUpTo15Hops(Reference(loop[i]), components, c, d);
  }
}
