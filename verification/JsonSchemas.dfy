/**
 JSON Schema (draft-07) on values: compiled schemas and what they mean for an instance. Regular expressions, formats
 and the multiple-of test on floating-point numbers are left to oracles.
*/
module JsonSchemas {
  import opened Wrappers
  import opened JsonValues

  /** A schema, true or false, or nothing, for the elements no other keyword covers. */
  datatype Additional = Unlimited | Allowed(allowed: bool) | Limited(schema: Schema)

  datatype Items = AnyItems | EachItem(schema: Schema) | ItemTuple(schemas: seq<Schema>)

  datatype Dependency = NeedsProperties(names: seq<string>) | NeedsSchema(schema: Schema)

  /** A compiled schema; id stands for its address. A null constant and an empty enumeration are absent. */
  datatype Schema = Schema(
    id: nat,
    ref: string,
    types: Option<seq<string>>,
    constant: Json,
    enumeration: seq<Json>,
    multipleOf: Option<real>,
    maximum: Option<real>,
    exclusiveMaximum: Option<real>,
    minimum: Option<real>,
    exclusiveMinimum: Option<real>,
    maxLength: Option<int>,
    minLength: Option<int>,
    pattern: Option<string>,
    format: string,
    items: Items,
    additionalItems: Additional,
    maxItems: Option<int>,
    minItems: Option<int>,
    uniqueItems: bool,
    contains: Option<Schema>,
    maxProperties: Option<int>,
    minProperties: Option<int>,
    required: seq<string>,
    properties: map<string, Schema>,
    patternProperties: map<string, Schema>,
    additionalProperties: Additional,
    dependencies: map<string, Dependency>,
    propertyNames: Option<Schema>,
    allOf: seq<Schema>,
    anyOf: seq<Schema>,
    oneOf: seq<Schema>,
    never: Option<Schema>,
    condition: Option<Schema>,
    consequent: Option<Schema>,
    alternative: Option<Schema>)

  datatype Oracles = Oracles(
    matches: (string, string) -> bool,
    formatted: (string, string) -> bool,
    multiple: (real, real) -> bool)

  /** An instance nested at most so many levels deep. */
  predicate NestedWithin(v: Json, levels: int) {
    && levels >= 0
    && (v.Arr? ==> forall i :: 0 <= i < |v.items| ==> NestedWithin(v.items[i], levels - 1))
    && (v.Obj? ==> forall name :: name in v.fields ==> NestedWithin(v.fields[name], levels - 1))
  }

  // ---------- keywords without subschemas ----------

  function TypeName(v: Json): string {
    match v
    case Null => "null"
    case Bool(_) => "boolean"
    case Num(n) => if n.Floor as real == n then "integer" else "number"
    case Str(_) => "string"
    case Arr(_) => "array"
    case Obj(_) => "object"
  }

  /** An integer is a number, and a number with a zero fraction is an integer. */
  predicate HasType(v: Json, name: string) {
    name == TypeName(v) || (name == "number" && TypeName(v) == "integer")
  }

  predicate AtMost(x: int, bound: Option<int>) {
    bound.Some? ==> x <= bound.value
  }

  predicate AtLeast(x: int, bound: Option<int>) {
    bound.Some? ==> x >= bound.value
  }

  predicate NumberMeets(o: Oracles, s: Schema, n: real) {
    && (s.multipleOf.Some? ==> o.multiple(n, s.multipleOf.value))
    && (s.maximum.Some? ==> n <= s.maximum.value)
    && (s.exclusiveMaximum.Some? ==> n < s.exclusiveMaximum.value)
    && (s.minimum.Some? ==> n >= s.minimum.value)
    && (s.exclusiveMinimum.Some? ==> n > s.exclusiveMinimum.value)
  }

  predicate StringMeets(o: Oracles, s: Schema, text: string) {
    && AtMost(|text|, s.maxLength) && AtLeast(|text|, s.minLength)
    && (s.pattern.Some? ==> o.matches(s.pattern.value, text))
    && (s.format != "" ==> o.formatted(s.format, text))
  }

  predicate ValueMeets(s: Schema, v: Json) {
    && (s.constant != Null ==> v == s.constant)
    && (s.enumeration != [] ==> v in s.enumeration)
    && (s.types.Some? ==> exists i :: 0 <= i < |s.types.value| && HasType(v, s.types.value[i]))
  }

  predicate ScalarMeets(o: Oracles, s: Schema, v: Json) {
    && ValueMeets(s, v)
    && (v.Num? ==> NumberMeets(o, s, v.n))
    && (v.Str? ==> StringMeets(o, s, v.s))
  }

  predicate CountsMeet(s: Schema, items: seq<Json>) {
    && AtMost(|items|, s.maxItems) && AtLeast(|items|, s.minItems)
    && (s.uniqueItems ==> forall i, j :: 0 <= i < j < |items| ==> items[i] != items[j])
  }

  predicate PropertyCountsMeet(s: Schema, m: map<string, Json>) {
    && AtMost(|m|, s.maxProperties) && AtLeast(|m|, s.minProperties)
    && forall i :: 0 <= i < |s.required| ==> s.required[i] in m
  }

  /** A property some other keyword has evaluated. */
  predicate Evaluated(o: Oracles, s: Schema, name: string) {
    name in s.properties || exists p :: p in s.patternProperties && o.matches(p, name)
  }

  // ---------- the meaning of a schema without references ----------

  /** Sections 6.1 to 6.7 of JSON Schema Validation (draft-07), for a schema without references. */
  ghost predicate Meets(o: Oracles, s: Schema, v: Json)
    decreases s, 1
  {
    && ScalarMeets(o, s, v)
    && (v.Arr? ==> ArrayMeets(o, s, v.items))
    && (v.Obj? ==> ObjectMeets(o, s, v.fields))
    && LogicMeets(o, s, v)
  }

  /** The schema an array element must meet at an index, if any. */
  function ItemRule(s: Schema, i: nat): (rule: Additional)
    ensures rule.Limited? ==> rule.schema < s
  {
    match s.items
    case AnyItems => Unlimited
    case EachItem(each) => Limited(each)
    case ItemTuple(schemas) => if i < |schemas| then Limited(schemas[i]) else s.additionalItems
  }

  ghost predicate RuleMeets(o: Oracles, whole: Schema, rule: Additional, v: Json)
    requires rule.Limited? ==> rule.schema < whole
    decreases whole, 0, 0
  {
    match rule
    case Unlimited => true
    case Allowed(b) => b
    case Limited(sub) => Meets(o, sub, v)
  }

  /** The element at an index, by the kind of the items keyword; additional items come behind a tuple only. */
  lemma {:induction false} ElementMeans(o: Oracles, s: Schema, i: nat, v: Json)
    ensures
      RuleMeets(o, s, ItemRule(s, i), v) <==>
        match s.items
        case AnyItems => true
        case EachItem(each) => Meets(o, each, v)
        case ItemTuple(schemas) =>
          if i < |schemas| then Meets(o, schemas[i], v)
          else
            match s.additionalItems
            case Unlimited => true
            case Allowed(b) => b
            case Limited(sub) => Meets(o, sub, v)
  {
    hide Meets;
  }

  predicate Equals(n: real, k: int) {
    n == k as real
  }

  ghost predicate IsWhole(n: real) {
    exists k :: Equals(n, k)
  }

  /** The seven type names: every value has exactly its own, and a whole number two. */
  lemma {:induction false} TypeMeans(v: Json, name: string)
    ensures HasType(v, name) <==>
      || (name == "null" && v == Null)
      || (name == "boolean" && v.Bool?)
      || (name == "number" && v.Num?)
      || (name == "integer" && v.Num? && IsWhole(v.n))
      || (name == "string" && v.Str?)
      || (name == "array" && v.Arr?)
      || (name == "object" && v.Obj?)
  {
    if v.Num? {
      assert v.n == v.n.Floor as real ==> Equals(v.n, v.n.Floor);
    }
  }

  ghost predicate ArrayMeets(o: Oracles, s: Schema, items: seq<Json>)
    decreases s, 0, 1
  {
    && CountsMeet(s, items)
    && (forall i :: 0 <= i < |items| ==> RuleMeets(o, s, ItemRule(s, i), items[i]))
    && (s.contains.Some? ==> exists i :: 0 <= i < |items| && Meets(o, s.contains.value, items[i]))
  }

  ghost predicate DependencyMeets(o: Oracles, whole: Schema, d: Dependency, m: map<string, Json>)
    requires d.NeedsSchema? ==> d.schema < whole
    decreases whole, 0, 0
  {
    match d
    case NeedsProperties(names) => forall i :: 0 <= i < |names| ==> names[i] in m
    case NeedsSchema(sub) => Meets(o, sub, Obj(m))
  }

  ghost predicate ObjectMeets(o: Oracles, s: Schema, m: map<string, Json>)
    decreases s, 0, 1
  {
    && PropertyCountsMeet(s, m)
    && (forall name :: name in s.properties && name in m ==> Meets(o, s.properties[name], m[name]))
    && (forall p, name :: p in s.patternProperties && name in m && o.matches(p, name) ==>
      Meets(o, s.patternProperties[p], m[name]))
    && (forall name :: name in m && !Evaluated(o, s, name) ==> RuleMeets(o, s, s.additionalProperties, m[name]))
    && (s.propertyNames.Some? ==> forall name :: name in m ==> Meets(o, s.propertyNames.value, Str(name)))
    && (forall d :: d in s.dependencies && d in m ==> DependencyMeets(o, s, s.dependencies[d], m))
  }

  ghost predicate Within(subs: seq<Schema>, whole: Schema) {
    forall i :: 0 <= i < |subs| ==> subs[i] < whole
  }

  ghost predicate AnyMeets(o: Oracles, whole: Schema, subs: seq<Schema>, v: Json)
    requires Within(subs, whole)
    decreases whole, 0, 0
  {
    exists i :: 0 <= i < |subs| && Meets(o, subs[i], v)
  }

  /** A single one of the schemas is met. */
  ghost predicate OneMeets(o: Oracles, whole: Schema, subs: seq<Schema>, v: Json)
    requires Within(subs, whole)
    decreases whole, 0, 0
  {
    exists i :: 0 <= i < |subs| && Meets(o, subs[i], v) &&
      forall j :: 0 <= j < |subs| && j != i ==> !Meets(o, subs[j], v)
  }

  ghost predicate NeverMeets(o: Oracles, s: Schema, v: Json)
    decreases s, 0, 0
  {
    s.never.Some? ==> !Meets(o, s.never.value, v)
  }

  ghost predicate ConditionMeets(o: Oracles, s: Schema, v: Json)
    decreases s, 0, 0
  {
    s.condition.Some? ==>
      if Meets(o, s.condition.value, v) then s.consequent.Some? ==> Meets(o, s.consequent.value, v)
      else s.alternative.Some? ==> Meets(o, s.alternative.value, v)
  }

  ghost predicate LogicMeets(o: Oracles, s: Schema, v: Json)
    decreases s, 0, 1
  {
    && (forall i :: 0 <= i < |s.allOf| ==> Meets(o, s.allOf[i], v))
    && (s.anyOf != [] ==> AnyMeets(o, s, s.anyOf, v))
    && (s.oneOf != [] ==> OneMeets(o, s, s.oneOf, v))
    && NeverMeets(o, s, v)
    && ConditionMeets(o, s, v)
  }

  // ---------- the subschemas of a schema ----------

  predicate InRule(sub: Schema, rule: Additional) {
    rule.Limited? && rule.schema == sub
  }

  predicate InItems(sub: Schema, items: Items) {
    (items.EachItem? && items.schema == sub) || (items.ItemTuple? && sub in items.schemas)
  }

  /** One of the schemas directly inside a schema. */
  predicate IsSubschema(sub: Schema, s: Schema) {
    || sub in s.allOf || sub in s.anyOf || sub in s.oneOf
    || s.never == Some(sub) || s.condition == Some(sub) || s.consequent == Some(sub) || s.alternative == Some(sub)
    || InItems(sub, s.items) || InRule(sub, s.additionalItems) || s.contains == Some(sub)
    || (exists name :: name in s.properties && s.properties[name] == sub)
    || (exists p :: p in s.patternProperties && s.patternProperties[p] == sub)
    || InRule(sub, s.additionalProperties) || s.propertyNames == Some(sub)
    || (exists d :: d in s.dependencies && s.dependencies[d] == NeedsSchema(sub))
  }

  /**
   No references, at most so many levels, and no address repeated on the way down: what compiling a schema text
   without references gives.
  */
  ghost predicate Plain(s: Schema, levels: nat, above: set<nat>)
    decreases levels
  {
    && levels > 0 && s.ref == "" && s.id !in above
    && forall sub :: IsSubschema(sub, s) ==> Plain(sub, levels - 1, above + {s.id})
  }
}
