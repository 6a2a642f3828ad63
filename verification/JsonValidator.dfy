/**
 The validator: issues are appended to a context while a schema is walked beside an instance; combinators run their
 members in contexts of their own. Every walk ends, references and cycles included, because every schema entered
 counts against the depth limit.
*/
module JsonValidators {
  import opened Wrappers
  import opened JsonValues
  import opened JsonPointers
  import opened JsonSchemas

  const MAX_VALIDATION_DEPTH: nat := 1000

  datatype Issue = Issue(code: string, path: string)

  /** The schema and path pairs being validated, shared by a context and the contexts made from it. */
  class VisitedKeys {
    var keys: set<(nat, string)>

    constructor ()
      ensures keys == {}
    {
      keys := {};
    }
  }

  class ValidationContext {
    var issues: seq<Issue>
    var depth: nat
    const visited: VisitedKeys

    constructor (depth: nat, visited: VisitedKeys)
      ensures issues == [] && this.depth == depth && this.visited == visited
    {
      this.issues, this.depth, this.visited := [], depth, visited;
    }

    method AddIssue(code: string, path: string)
      modifies `issues
      ensures issues == old(issues) + [Issue(code, path)]
    {
      issues := issues + [Issue(code, path)];
    }

    /** Appends an issue unless a check holds. */
    method Check(ok: bool, code: string, path: string)
      modifies `issues
      ensures old(issues) <= issues && (|issues| == |old(issues)| <==> ok)
    {
      if !ok {
        AddIssue(code, path);
      }
    }
  }

  ghost function Addresses(keys: set<(nat, string)>): set<nat> {
    set k | k in keys :: k.0
  }

  lemma {:induction false} AddressAdded(keys: set<(nat, string)>, id: nat, path: string)
    ensures Addresses(keys + {(id, path)}) == Addresses(keys) + {id}
  {
    assert (id, path) in keys + {(id, path)};
  }

  /** Every subschema is plain below the levels that remain. */
  ghost predicate PlainSubs(s: Schema, depth: nat, above: set<nat>) {
    depth <= MAX_VALIDATION_DEPTH &&
    forall sub :: IsSubschema(sub, s) ==> Plain(sub, MAX_VALIDATION_DEPTH - depth, above)
  }

  class Validator {
    const oracles: Oracles
    const resolve: string -> Option<Schema>

    constructor (oracles: Oracles, resolve: string -> Option<Schema>)
      ensures this.oracles == oracles && this.resolve == resolve
    {
      this.oracles, this.resolve := oracles, resolve;
    }

    /** The context is as before, except for issues appended to it. */
    twostate predicate Kept(ctx: ValidationContext)
      reads ctx, ctx.visited
    {
      && ctx.depth == old(ctx.depth) && ctx.visited.keys == old(ctx.visited.keys) && old(ctx.issues) <= ctx.issues
    }

    /**
     Validates an instance against a schema. For a plain schema (exact), no issue is appended exactly when the
     instance meets the schema; for every schema the walk ends and leaves depth and visited pairs as they were.
    */
    method ValidateSchema(ctx: ValidationContext, s: Schema, v: Json, path: string, ghost exact: bool)
      requires ctx.depth <= MAX_VALIDATION_DEPTH
      requires exact ==> Plain(s, MAX_VALIDATION_DEPTH - ctx.depth, Addresses(ctx.visited.keys))
      modifies ctx, ctx.visited
      ensures Kept(ctx)
      ensures exact ==> (|ctx.issues| == |old(ctx.issues)| <==> Meets(oracles, s, v))
      decreases MAX_VALIDATION_DEPTH + 1 - ctx.depth, 0
    {
      hide Meets, Plain, Addresses;
      EntryFacts(s, ctx.depth, ctx.visited.keys, path);
      ctx.depth := ctx.depth + 1;
      if ctx.depth > MAX_VALIDATION_DEPTH {
        ctx.AddIssue("MAX_DEPTH_EXCEEDED", path);
        ctx.depth := ctx.depth - 1;
        return;
      }
      var key := (s.id, path);
      if key in ctx.visited.keys {
        ctx.depth := ctx.depth - 1;
        return;
      }
      ghost var before := ctx.visited.keys;
      ctx.visited.keys := ctx.visited.keys + {key};
      if s.ref != "" {
        ValidateReference(ctx, s, v, path);
      } else {
        ValidateKeywords(ctx, s, v, path, exact);
      }
      ctx.visited.keys := ctx.visited.keys - {key};
      assert ctx.visited.keys == before;
      ctx.depth := ctx.depth - 1;
    }

    lemma {:induction false} EntryFacts(s: Schema, depth: nat, keys: set<(nat, string)>, path: string)
      requires depth <= MAX_VALIDATION_DEPTH
      ensures Plain(s, MAX_VALIDATION_DEPTH - depth, Addresses(keys)) ==>
        && depth < MAX_VALIDATION_DEPTH && s.ref == "" && (s.id, path) !in keys
        && PlainSubs(s, depth + 1, Addresses(keys + {(s.id, path)}))
    {
      AddressAdded(keys, s.id, path);
    }

    /** A reference stands for the schema it names; other keywords beside it are ignored. */
    method ValidateReference(ctx: ValidationContext, s: Schema, v: Json, path: string)
      requires ctx.depth <= MAX_VALIDATION_DEPTH && s.ref != ""
      modifies ctx, ctx.visited
      ensures Kept(ctx)
      decreases MAX_VALIDATION_DEPTH + 1 - ctx.depth, 3
    {
      if s.ref[0] != '#' || resolve(s.ref).None? {
        ctx.AddIssue("INVALID_REF", path);
        return;
      }
      ValidateSchema(ctx, resolve(s.ref).value, v, path, false);
    }

    method ValidateKeywords(ctx: ValidationContext, s: Schema, v: Json, path: string, ghost exact: bool)
      requires ctx.depth <= MAX_VALIDATION_DEPTH
      requires exact ==> PlainSubs(s, ctx.depth, Addresses(ctx.visited.keys))
      modifies ctx, ctx.visited
      ensures Kept(ctx)
      ensures exact ==> (|ctx.issues| == |old(ctx.issues)| <==> Meets(oracles, s, v))
      decreases MAX_VALIDATION_DEPTH + 1 - ctx.depth, 5
    {
      hide ScalarMeets, ArrayMeets, ObjectMeets, LogicMeets, PlainSubs, Addresses;
      ValidateScalar(ctx, s, v, path);
      if v.Arr? {
        ValidateArray(ctx, s, v.items, path, exact);
      } else if v.Obj? {
        ValidateObject(ctx, s, v.fields, path, exact);
      }
      ValidateLogic(ctx, s, v, path, exact);
    }

    method ValidateScalar(ctx: ValidationContext, s: Schema, v: Json, path: string)
      modifies ctx`issues
      ensures old(ctx.issues) <= ctx.issues
      ensures |ctx.issues| == |old(ctx.issues)| <==> ScalarMeets(oracles, s, v)
    {
      hide NumberMeets, StringMeets, HasType;
      ctx.Check(s.constant == Null || v == s.constant, "INVALID_CONST", path);
      ctx.Check(s.enumeration == [] || v in s.enumeration, "INVALID_ENUM", path);
      if s.types.Some? {
        var matched := false;
        for i := 0 to |s.types.value|
          invariant matched <==> exists j :: 0 <= j < i && HasType(v, s.types.value[j])
        {
          matched := matched || HasType(v, s.types.value[i]);
        }
        ctx.Check(matched, "INVALID_TYPE", path);
      }
      if v.Num? {
        ValidateNumber(ctx, s, v.n, path);
      } else if v.Str? {
        ValidateString(ctx, s, v.s, path);
      }
    }

    method ValidateNumber(ctx: ValidationContext, s: Schema, n: real, path: string)
      modifies ctx`issues
      ensures old(ctx.issues) <= ctx.issues
      ensures |ctx.issues| == |old(ctx.issues)| <==> NumberMeets(oracles, s, n)
    {
      ctx.Check(s.multipleOf.None? || oracles.multiple(n, s.multipleOf.value), "INVALID_MULTIPLE_OF", path);
      ctx.Check(!(s.maximum.Some? && n > s.maximum.value), "VALUE_TOO_LARGE", path);
      ctx.Check(!(s.exclusiveMaximum.Some? && n >= s.exclusiveMaximum.value), "VALUE_TOO_LARGE", path);
      ctx.Check(!(s.minimum.Some? && n < s.minimum.value), "VALUE_TOO_SMALL", path);
      ctx.Check(!(s.exclusiveMinimum.Some? && n <= s.exclusiveMinimum.value), "VALUE_TOO_SMALL", path);
    }

    method ValidateString(ctx: ValidationContext, s: Schema, text: string, path: string)
      modifies ctx`issues
      ensures old(ctx.issues) <= ctx.issues
      ensures |ctx.issues| == |old(ctx.issues)| <==> StringMeets(oracles, s, text)
    {
      ctx.Check(!(s.maxLength.Some? && |text| > s.maxLength.value), "VALUE_TOO_LONG", path);
      ctx.Check(!(s.minLength.Some? && |text| < s.minLength.value), "VALUE_TOO_SHORT", path);
      ctx.Check(s.pattern.None? || oracles.matches(s.pattern.value, text), "INVALID_PATTERN", path);
      ctx.Check(s.format == "" || oracles.formatted(s.format, text), "INVALID_FORMAT", path);
    }

    /** Validates in a context of its own: no issue leaks, only whether there were any. */
    method Probe(ctx: ValidationContext, s: Schema, v: Json, path: string, ghost exact: bool) returns (valid: bool)
      requires ctx.depth <= MAX_VALIDATION_DEPTH
      requires exact ==> Plain(s, MAX_VALIDATION_DEPTH - ctx.depth, Addresses(ctx.visited.keys))
      modifies ctx.visited
      ensures ctx.visited.keys == old(ctx.visited.keys)
      ensures exact ==> (valid <==> Meets(oracles, s, v))
      decreases MAX_VALIDATION_DEPTH + 1 - ctx.depth, 1
    {
      var sub := new ValidationContext(ctx.depth, ctx.visited);
      ValidateSchema(sub, s, v, path, exact);
      valid := |sub.issues| == 0;
    }

    /** An element or property against the rule for those no other keyword covers. */
    method ValidateRule(
      ctx: ValidationContext, whole: Schema, rule: Additional, v: Json, code: string, path: string, ghost exact: bool)
      requires ctx.depth <= MAX_VALIDATION_DEPTH && (rule.Limited? ==> rule.schema < whole)
      requires exact && rule.Limited? ==>
        Plain(rule.schema, MAX_VALIDATION_DEPTH - ctx.depth, Addresses(ctx.visited.keys))
      modifies ctx, ctx.visited
      ensures Kept(ctx)
      ensures exact ==> (|ctx.issues| == |old(ctx.issues)| <==> RuleMeets(oracles, whole, rule, v))
      decreases MAX_VALIDATION_DEPTH + 1 - ctx.depth, 1
    {
      hide Meets, Plain, Addresses;
      match rule {
        case Unlimited =>
        case Allowed(b) => ctx.Check(b, code, path);
        case Limited(sub) => ValidateSchema(ctx, sub, v, path, exact);
      }
    }

    method AreUnique(items: seq<Json>) returns (unique: bool)
      ensures unique <==> forall i, j :: 0 <= i < j < |items| ==> items[i] != items[j]
    {
      for i := 0 to |items|
        invariant forall k, j :: 0 <= k < i && k < j < |items| ==> items[k] != items[j]
      {
        for j := i + 1 to |items|
          invariant forall l :: i < l < j ==> items[i] != items[l]
        {
          if items[i] == items[j] {
            return false;
          }
        }
      }
      return true;
    }

    method ValidateArray(ctx: ValidationContext, s: Schema, items: seq<Json>, path: string, ghost exact: bool)
      requires ctx.depth <= MAX_VALIDATION_DEPTH
      requires exact ==> PlainSubs(s, ctx.depth, Addresses(ctx.visited.keys))
      modifies ctx, ctx.visited
      ensures Kept(ctx)
      ensures exact ==> (|ctx.issues| == |old(ctx.issues)| <==> ArrayMeets(oracles, s, items))
      decreases MAX_VALIDATION_DEPTH + 1 - ctx.depth, 4
    {
      hide Meets, Plain, Addresses, RuleMeets, ItemRule, PlainSubs;
      ItemRulesPlain(s, ctx.depth, Addresses(ctx.visited.keys));
      ctx.Check(!(s.maxItems.Some? && |items| > s.maxItems.value), "TOO_MANY_ITEMS", path);
      ctx.Check(!(s.minItems.Some? && |items| < s.minItems.value), "TOO_FEW_ITEMS", path);
      var unique := AreUnique(items);
      ctx.Check(!s.uniqueItems || unique, "DUPLICATE_ITEMS", path);
      ghost var counted := |ctx.issues| == |old(ctx.issues)|;
      for i := 0 to |items|
        invariant Kept(ctx)
        invariant exact ==>
          (|ctx.issues| == |old(ctx.issues)| <==>
           counted && forall j :: 0 <= j < i ==> RuleMeets(oracles, s, ItemRule(s, j), items[j]))
      {
        ValidateRule(ctx, s, ItemRule(s, i), items[i], "ADDITIONAL_ITEMS_NOT_ALLOWED", path + "/" + Decimal(i), exact);
      }
      if s.contains.Some? {
        ContainsPlain(s, ctx.depth, Addresses(ctx.visited.keys));
        var found := FindItem(ctx, s.contains.value, items, path, exact);
        ctx.Check(found, "NO_MATCHING_CONTAINS", path);
      }
    }

    lemma {:induction false} ItemRulesPlain(s: Schema, depth: nat, above: set<nat>)
      ensures PlainSubs(s, depth, above) ==>
        forall i: nat :: ItemRule(s, i).Limited? ==>
          Plain(ItemRule(s, i).schema, MAX_VALIDATION_DEPTH - depth, above)
    {
      hide Plain;
      forall i: nat | ItemRule(s, i).Limited?
        ensures IsSubschema(ItemRule(s, i).schema, s)
      {
      }
    }

    lemma {:induction false} ContainsPlain(s: Schema, depth: nat, above: set<nat>)
      requires s.contains.Some?
      ensures PlainSubs(s, depth, above) ==> Plain(s.contains.value, MAX_VALIDATION_DEPTH - depth, above)
    {
      hide Plain;
      assert IsSubschema(s.contains.value, s);
    }

    /** Whether some element meets a schema; the search stops at the first. */
    method FindItem(ctx: ValidationContext, sub: Schema, items: seq<Json>, path: string, ghost exact: bool)
      returns (found: bool)
      requires ctx.depth <= MAX_VALIDATION_DEPTH
      requires exact ==> Plain(sub, MAX_VALIDATION_DEPTH - ctx.depth, Addresses(ctx.visited.keys))
      modifies ctx.visited
      ensures ctx.visited.keys == old(ctx.visited.keys)
      ensures exact ==> (found <==> exists i :: 0 <= i < |items| && Meets(oracles, sub, items[i]))
      decreases MAX_VALIDATION_DEPTH + 1 - ctx.depth, 2
    {
      hide Meets, Plain, Addresses;
      for i := 0 to |items|
        invariant ctx.visited.keys == old(ctx.visited.keys)
        invariant exact ==> forall j :: 0 <= j < i ==> !Meets(oracles, sub, items[j])
      {
        found := Probe(ctx, sub, items[i], path, exact);
        if found {
          return true;
        }
      }
      return false;
    }

    method ValidateObject(ctx: ValidationContext, s: Schema, m: map<string, Json>, path: string, ghost exact: bool)
      requires ctx.depth <= MAX_VALIDATION_DEPTH
      requires exact ==> PlainSubs(s, ctx.depth, Addresses(ctx.visited.keys))
      modifies ctx, ctx.visited
      ensures Kept(ctx)
      ensures exact ==> (|ctx.issues| == |old(ctx.issues)| <==> ObjectMeets(oracles, s, m))
      decreases MAX_VALIDATION_DEPTH + 1 - ctx.depth, 4
    {
      hide Meets, Plain, Addresses, RuleMeets, DependencyMeets, PlainSubs, PropertyCountsMeet, Evaluated;
      ValidateCounts(ctx, s, m, path);
      var evaluated := ValidateProperties(ctx, s, m, path, exact);
      evaluated := ValidatePatterns(ctx, s, m, path, evaluated, exact);
      EvaluatedNames(s, m, evaluated);
      ValidateAdditional(ctx, s, m, path, evaluated, exact);
      if s.propertyNames.Some? {
        ValidateNames(ctx, s, m, path, exact);
      }
      ValidateDependencies(ctx, s, m, path, exact);
    }

    lemma {:induction false} EvaluatedNames(s: Schema, m: map<string, Json>, evaluated: set<string>)
      requires forall name :: name in evaluated <==>
        name in m && (name in s.properties || exists p :: p in s.patternProperties && oracles.matches(p, name))
      ensures forall name :: name in m ==> (name in evaluated <==> Evaluated(oracles, s, name))
    {
    }

    method ValidateCounts(ctx: ValidationContext, s: Schema, m: map<string, Json>, path: string)
      modifies ctx`issues
      ensures old(ctx.issues) <= ctx.issues
      ensures |ctx.issues| == |old(ctx.issues)| <==> PropertyCountsMeet(s, m)
    {
      ctx.Check(!(s.maxProperties.Some? && |m| > s.maxProperties.value), "TOO_MANY_PROPERTIES", path);
      ctx.Check(!(s.minProperties.Some? && |m| < s.minProperties.value), "TOO_FEW_PROPERTIES", path);
      ghost var counted := |ctx.issues| == |old(ctx.issues)|;
      for i := 0 to |s.required|
        invariant old(ctx.issues) <= ctx.issues
        invariant |ctx.issues| == |old(ctx.issues)| <==> counted && forall j :: 0 <= j < i ==> s.required[j] in m
      {
        ctx.Check(s.required[i] in m, "REQUIRED_PROPERTY_MISSING", path + "/" + s.required[i]);
      }
    }

    /** Every named property that is present, in any order; returns the names evaluated. */
    method ValidateProperties(ctx: ValidationContext, s: Schema, m: map<string, Json>, path: string, ghost exact: bool)
      returns (evaluated: set<string>)
      requires ctx.depth <= MAX_VALIDATION_DEPTH
      requires exact ==> PlainSubs(s, ctx.depth, Addresses(ctx.visited.keys))
      modifies ctx, ctx.visited
      ensures Kept(ctx) && evaluated == s.properties.Keys * m.Keys
      ensures exact ==>
        (|ctx.issues| == |old(ctx.issues)| <==>
         forall name :: name in s.properties && name in m ==> Meets(oracles, s.properties[name], m[name]))
      decreases MAX_VALIDATION_DEPTH + 1 - ctx.depth, 1
    {
      hide Meets, Plain, Addresses;
      evaluated := {};
      var todo := s.properties.Keys;
      while todo != {}
        invariant todo <= s.properties.Keys && Kept(ctx)
        invariant evaluated == (s.properties.Keys - todo) * m.Keys
        invariant exact ==>
          (|ctx.issues| == |old(ctx.issues)| <==>
           forall name :: name in s.properties.Keys - todo && name in m ==> Meets(oracles, s.properties[name], m[name]))
        decreases |todo|
      {
        var name :| name in todo;
        if name in m {
          assert IsSubschema(s.properties[name], s);
          ValidateSchema(ctx, s.properties[name], m[name], path + "/" + name, exact);
          evaluated := evaluated + {name};
        }
        todo := todo - {name};
      }
    }

    /** Every property whose name a pattern matches, pattern by pattern in any order. */
    method ValidatePatterns(
      ctx: ValidationContext, s: Schema, m: map<string, Json>, path: string, before: set<string>, ghost exact: bool)
      returns (evaluated: set<string>)
      requires ctx.depth <= MAX_VALIDATION_DEPTH
      requires exact ==> PlainSubs(s, ctx.depth, Addresses(ctx.visited.keys))
      modifies ctx, ctx.visited
      ensures Kept(ctx)
      ensures forall name :: name in evaluated <==>
        name in before || (name in m && exists p :: p in s.patternProperties && oracles.matches(p, name))
      ensures exact ==>
        (|ctx.issues| == |old(ctx.issues)| <==>
         forall p, name :: p in s.patternProperties && name in m && oracles.matches(p, name) ==>
           Meets(oracles, s.patternProperties[p], m[name]))
      decreases MAX_VALIDATION_DEPTH + 1 - ctx.depth, 2
    {
      hide Meets, Plain, Addresses;
      evaluated := before;
      var todo := s.patternProperties.Keys;
      while todo != {}
        invariant todo <= s.patternProperties.Keys && Kept(ctx)
        invariant forall name :: name in evaluated <==>
          name in before || (name in m && exists p :: p in s.patternProperties.Keys - todo && oracles.matches(p, name))
        invariant exact ==>
          (|ctx.issues| == |old(ctx.issues)| <==>
           forall p, name :: p in s.patternProperties.Keys - todo && name in m && oracles.matches(p, name) ==>
             Meets(oracles, s.patternProperties[p], m[name]))
        decreases |todo|
      {
        var p :| p in todo;
        assert IsSubschema(s.patternProperties[p], s);
        evaluated := ValidatePattern(ctx, s.patternProperties[p], p, m, path, evaluated, exact);
        todo := todo - {p};
      }
    }

    method ValidatePattern(
      ctx: ValidationContext, sub: Schema, p: string, m: map<string, Json>, path: string, before: set<string>,
      ghost exact: bool)
      returns (evaluated: set<string>)
      requires ctx.depth <= MAX_VALIDATION_DEPTH
      requires exact ==> Plain(sub, MAX_VALIDATION_DEPTH - ctx.depth, Addresses(ctx.visited.keys))
      modifies ctx, ctx.visited
      ensures Kept(ctx)
      ensures forall name :: name in evaluated <==> name in before || (name in m && oracles.matches(p, name))
      ensures exact ==>
        (|ctx.issues| == |old(ctx.issues)| <==>
         forall name :: name in m && oracles.matches(p, name) ==> Meets(oracles, sub, m[name]))
      decreases MAX_VALIDATION_DEPTH + 1 - ctx.depth, 1
    {
      hide Meets, Plain, Addresses;
      evaluated := before;
      var todo := m.Keys;
      while todo != {}
        invariant todo <= m.Keys && Kept(ctx)
        invariant forall name :: name in evaluated <==>
          name in before || (name in m.Keys - todo && oracles.matches(p, name))
        invariant exact ==>
          (|ctx.issues| == |old(ctx.issues)| <==>
           forall name :: name in m.Keys - todo && oracles.matches(p, name) ==> Meets(oracles, sub, m[name]))
        decreases |todo|
      {
        var name :| name in todo;
        if oracles.matches(p, name) {
          ValidateSchema(ctx, sub, m[name], path + "/" + name, exact);
          evaluated := evaluated + {name};
        }
        todo := todo - {name};
      }
    }

    method ValidateAdditional(
      ctx: ValidationContext, s: Schema, m: map<string, Json>, path: string, evaluated: set<string>, ghost exact: bool)
      requires ctx.depth <= MAX_VALIDATION_DEPTH
      requires exact ==> PlainSubs(s, ctx.depth, Addresses(ctx.visited.keys))
      modifies ctx, ctx.visited
      ensures Kept(ctx)
      ensures exact ==>
        (|ctx.issues| == |old(ctx.issues)| <==>
         forall name :: name in m && name !in evaluated ==> RuleMeets(oracles, s, s.additionalProperties, m[name]))
      decreases MAX_VALIDATION_DEPTH + 1 - ctx.depth, 2
    {
      hide RuleMeets, Plain, Addresses;
      assert s.additionalProperties.Limited? ==> IsSubschema(s.additionalProperties.schema, s);
      var todo := m.Keys;
      while todo != {}
        invariant todo <= m.Keys && Kept(ctx)
        invariant exact ==>
          (|ctx.issues| == |old(ctx.issues)| <==>
           forall name :: name in m.Keys - todo && name !in evaluated ==>
             RuleMeets(oracles, s, s.additionalProperties, m[name]))
        decreases |todo|
      {
        var name :| name in todo;
        if name !in evaluated {
          ValidateRule(
            ctx, s, s.additionalProperties, m[name], "ADDITIONAL_PROPERTY_NOT_ALLOWED", path + "/" + name, exact);
        }
        todo := todo - {name};
      }
    }

    method ValidateNames(ctx: ValidationContext, s: Schema, m: map<string, Json>, path: string, ghost exact: bool)
      requires ctx.depth <= MAX_VALIDATION_DEPTH && s.propertyNames.Some?
      requires exact ==> PlainSubs(s, ctx.depth, Addresses(ctx.visited.keys))
      modifies ctx, ctx.visited
      ensures Kept(ctx)
      ensures exact ==>
        (|ctx.issues| == |old(ctx.issues)| <==>
          forall name :: name in m ==> Meets(oracles, s.propertyNames.value, Str(name)))
      decreases MAX_VALIDATION_DEPTH + 1 - ctx.depth, 1
    {
      hide Meets, Plain, Addresses;
      assert IsSubschema(s.propertyNames.value, s);
      var todo := m.Keys;
      while todo != {}
        invariant todo <= m.Keys && Kept(ctx)
        invariant exact ==>
          (|ctx.issues| == |old(ctx.issues)| <==>
           forall name :: name in m.Keys - todo ==> Meets(oracles, s.propertyNames.value, Str(name)))
        decreases |todo|
      {
        var name :| name in todo;
        ValidateSchema(ctx, s.propertyNames.value, Str(name), path + "/" + name, exact);
        todo := todo - {name};
      }
    }

    method ValidateDependencies(
      ctx: ValidationContext, s: Schema, m: map<string, Json>, path: string, ghost exact: bool)
      requires ctx.depth <= MAX_VALIDATION_DEPTH
      requires exact ==> PlainSubs(s, ctx.depth, Addresses(ctx.visited.keys))
      modifies ctx, ctx.visited
      ensures Kept(ctx)
      ensures exact ==>
        (|ctx.issues| == |old(ctx.issues)| <==>
         forall d :: d in s.dependencies && d in m ==> DependencyMeets(oracles, s, s.dependencies[d], m))
      decreases MAX_VALIDATION_DEPTH + 1 - ctx.depth, 2
    {
      hide DependencyMeets, Plain, Addresses;
      var todo := s.dependencies.Keys;
      while todo != {}
        invariant todo <= s.dependencies.Keys && Kept(ctx)
        invariant exact ==>
          (|ctx.issues| == |old(ctx.issues)| <==>
           forall d :: d in s.dependencies.Keys - todo && d in m ==>
             DependencyMeets(oracles, s, s.dependencies[d], m))
        decreases |todo|
      {
        var d :| d in todo;
        if d in m {
          assert s.dependencies[d].NeedsSchema? ==> IsSubschema(s.dependencies[d].schema, s);
          ValidateDependency(ctx, s, s.dependencies[d], m, path, exact);
        }
        todo := todo - {d};
      }
    }

    method ValidateDependency(
      ctx: ValidationContext, whole: Schema, d: Dependency, m: map<string, Json>, path: string, ghost exact: bool)
      requires ctx.depth <= MAX_VALIDATION_DEPTH && (d.NeedsSchema? ==> d.schema < whole)
      requires exact && d.NeedsSchema? ==>
        Plain(d.schema, MAX_VALIDATION_DEPTH - ctx.depth, Addresses(ctx.visited.keys))
      modifies ctx, ctx.visited
      ensures Kept(ctx)
      ensures exact ==> (|ctx.issues| == |old(ctx.issues)| <==> DependencyMeets(oracles, whole, d, m))
      decreases MAX_VALIDATION_DEPTH + 1 - ctx.depth, 1
    {
      hide Meets, Plain, Addresses;
      match d {
        case NeedsProperties(names) =>
          for i := 0 to |names|
            invariant Kept(ctx)
            invariant |ctx.issues| == |old(ctx.issues)| <==> forall j :: 0 <= j < i ==> names[j] in m
          {
            ctx.Check(names[i] in m, "DEPENDENCY_PROPERTY_MISSING", path + "/" + names[i]);
          }
        case NeedsSchema(sub) =>
          ValidateSchema(ctx, sub, Obj(m), path, exact);
      }
    }

    method ValidateLogic(ctx: ValidationContext, s: Schema, v: Json, path: string, ghost exact: bool)
      requires ctx.depth <= MAX_VALIDATION_DEPTH
      requires exact ==> PlainSubs(s, ctx.depth, Addresses(ctx.visited.keys))
      modifies ctx, ctx.visited
      ensures Kept(ctx)
      ensures exact ==> (|ctx.issues| == |old(ctx.issues)| <==> LogicMeets(oracles, s, v))
      decreases MAX_VALIDATION_DEPTH + 1 - ctx.depth, 4
    {
      hide Meets, Plain, Addresses, PlainSubs, AnyMeets, OneMeets, NeverMeets, ConditionMeets;
      LogicPlain(s, ctx.depth, Addresses(ctx.visited.keys));
      ValidateAllOf(ctx, s.allOf, v, path, exact);
      if s.anyOf != [] {
        var valid := AnyValid(ctx, s, s.anyOf, v, path, exact);
        ctx.Check(valid, "INVALID_ANY_OF", path);
      }
      if s.oneOf != [] {
        var validCount := CountValid(ctx, s, s.oneOf, v, path, exact);
        ctx.Check(validCount == 1, "INVALID_ONE_OF", path);
      }
      ValidateNot(ctx, s, v, path, exact);
      ValidateCondition(ctx, s, v, path, exact);
    }

    method ValidateNot(ctx: ValidationContext, s: Schema, v: Json, path: string, ghost exact: bool)
      requires ctx.depth <= MAX_VALIDATION_DEPTH
      requires exact ==> PlainSubs(s, ctx.depth, Addresses(ctx.visited.keys))
      modifies ctx, ctx.visited
      ensures Kept(ctx)
      ensures exact ==> (|ctx.issues| == |old(ctx.issues)| <==> NeverMeets(oracles, s, v))
      decreases MAX_VALIDATION_DEPTH + 1 - ctx.depth, 2
    {
      hide Meets, Plain, Addresses, PlainSubs;
      LogicPlain(s, ctx.depth, Addresses(ctx.visited.keys));
      if s.never.Some? {
        var valid := Probe(ctx, s.never.value, v, path, exact);
        ctx.Check(!valid, "INVALID_NOT", path);
      }
    }

    method ValidateAllOf(ctx: ValidationContext, subs: seq<Schema>, v: Json, path: string, ghost exact: bool)
      requires ctx.depth <= MAX_VALIDATION_DEPTH
      requires exact ==> forall i :: 0 <= i < |subs| ==>
        Plain(subs[i], MAX_VALIDATION_DEPTH - ctx.depth, Addresses(ctx.visited.keys))
      modifies ctx, ctx.visited
      ensures Kept(ctx)
      ensures exact ==>
        (|ctx.issues| == |old(ctx.issues)| <==> forall i :: 0 <= i < |subs| ==> Meets(oracles, subs[i], v))
      decreases MAX_VALIDATION_DEPTH + 1 - ctx.depth, 2
    {
      hide Meets, Plain, Addresses;
      for i := 0 to |subs|
        invariant Kept(ctx)
        invariant exact ==>
          (|ctx.issues| == |old(ctx.issues)| <==> forall j :: 0 <= j < i ==> Meets(oracles, subs[j], v))
      {
        ValidateSchema(ctx, subs[i], v, path, exact);
      }
    }

    /** The consequent or the alternative, as the condition decides; the condition itself leaves no issue. */
    method ValidateCondition(ctx: ValidationContext, s: Schema, v: Json, path: string, ghost exact: bool)
      requires ctx.depth <= MAX_VALIDATION_DEPTH
      requires exact ==> PlainSubs(s, ctx.depth, Addresses(ctx.visited.keys))
      modifies ctx, ctx.visited
      ensures Kept(ctx)
      ensures exact ==>
        (|ctx.issues| == |old(ctx.issues)| <==> ConditionMeets(oracles, s, v))
      decreases MAX_VALIDATION_DEPTH + 1 - ctx.depth, 2
    {
      hide Meets, Plain, Addresses, PlainSubs;
      LogicPlain(s, ctx.depth, Addresses(ctx.visited.keys));
      if s.condition.None? {
        return;
      }
      var valid := Probe(ctx, s.condition.value, v, path, exact);
      if valid && s.consequent.Some? {
        ValidateSchema(ctx, s.consequent.value, v, path, exact);
      } else if !valid && s.alternative.Some? {
        ValidateSchema(ctx, s.alternative.value, v, path, exact);
      }
    }

    lemma {:induction false} LogicPlain(s: Schema, depth: nat, above: set<nat>)
      requires depth <= MAX_VALIDATION_DEPTH
      ensures PlainSubs(s, depth, above) ==>
        var levels := MAX_VALIDATION_DEPTH - depth;
        && (forall i :: 0 <= i < |s.allOf| ==> Plain(s.allOf[i], levels, above))
        && (forall i :: 0 <= i < |s.anyOf| ==> Plain(s.anyOf[i], levels, above))
        && (forall i :: 0 <= i < |s.oneOf| ==> Plain(s.oneOf[i], levels, above))
        && (s.never.Some? ==> Plain(s.never.value, levels, above))
        && (s.condition.Some? ==> Plain(s.condition.value, levels, above))
        && (s.consequent.Some? ==> Plain(s.consequent.value, levels, above))
        && (s.alternative.Some? ==> Plain(s.alternative.value, levels, above))
    {
      hide Plain;
      assert forall i :: 0 <= i < |s.allOf| ==> IsSubschema(s.allOf[i], s);
      assert forall i :: 0 <= i < |s.anyOf| ==> IsSubschema(s.anyOf[i], s);
      assert forall i :: 0 <= i < |s.oneOf| ==> IsSubschema(s.oneOf[i], s);
      assert s.never.Some? ==> IsSubschema(s.never.value, s);
      assert s.condition.Some? ==> IsSubschema(s.condition.value, s);
      assert s.consequent.Some? ==> IsSubschema(s.consequent.value, s);
      assert s.alternative.Some? ==> IsSubschema(s.alternative.value, s);
    }

    /** Whether some member is valid; the search stops at the first. */
    method AnyValid(
      ctx: ValidationContext, ghost whole: Schema, subs: seq<Schema>, v: Json, path: string, ghost exact: bool)
      returns (valid: bool)
      requires ctx.depth <= MAX_VALIDATION_DEPTH && Within(subs, whole)
      requires exact ==> forall i :: 0 <= i < |subs| ==>
        Plain(subs[i], MAX_VALIDATION_DEPTH - ctx.depth, Addresses(ctx.visited.keys))
      modifies ctx.visited
      ensures ctx.visited.keys == old(ctx.visited.keys)
      ensures exact ==> (valid <==> AnyMeets(oracles, whole, subs, v))
      decreases MAX_VALIDATION_DEPTH + 1 - ctx.depth, 2
    {
      hide Meets, Plain, Addresses;
      for i := 0 to |subs|
        invariant ctx.visited.keys == old(ctx.visited.keys)
        invariant exact ==> forall j :: 0 <= j < i ==> !Meets(oracles, subs[j], v)
      {
        valid := Probe(ctx, subs[i], v, path, exact);
        if valid {
          return true;
        }
      }
      return false;
    }

    /** How many members are valid: one exactly when a single one is. */
    method CountValid(
      ctx: ValidationContext, ghost whole: Schema, subs: seq<Schema>, v: Json, path: string, ghost exact: bool)
      returns (validCount: nat)
      requires ctx.depth <= MAX_VALIDATION_DEPTH && Within(subs, whole)
      requires exact ==> forall i :: 0 <= i < |subs| ==>
        Plain(subs[i], MAX_VALIDATION_DEPTH - ctx.depth, Addresses(ctx.visited.keys))
      modifies ctx.visited
      ensures ctx.visited.keys == old(ctx.visited.keys)
      ensures exact ==> (validCount == 1 <==> OneMeets(oracles, whole, subs, v))
      decreases MAX_VALIDATION_DEPTH + 1 - ctx.depth, 2
    {
      hide Meets, Plain, Addresses;
      validCount := 0;
      ghost var first := 0;
      for i := 0 to |subs|
        invariant ctx.visited.keys == old(ctx.visited.keys) && validCount <= i
        invariant exact && validCount == 0 ==> forall j :: 0 <= j < i ==> !Meets(oracles, subs[j], v)
        invariant exact && validCount == 1 ==>
          0 <= first < i && Meets(oracles, subs[first], v) &&
          forall j :: 0 <= j < i && j != first ==> !Meets(oracles, subs[j], v)
        invariant exact && validCount >= 2 ==>
          exists j, k :: 0 <= j < k < i && Meets(oracles, subs[j], v) && Meets(oracles, subs[k], v)
      {
        var valid := Probe(ctx, subs[i], v, path, exact);
        if valid {
          if validCount == 0 {
            first := i;
          }
          validCount := validCount + 1;
        }
      }
    }

    /** Walks the instance; false when it is nested too deeply. */
    method CheckInstanceDepth(v: Json, depth: nat) returns (ok: bool)
      ensures ok <==> NestedWithin(v, MAX_VALIDATION_DEPTH - depth)
      decreases v
    {
      if depth > MAX_VALIDATION_DEPTH {
        return false;
      }
      match v {
        case Obj(m) =>
          var todo := m.Keys;
          while todo != {}
            invariant todo <= m.Keys
            invariant forall name :: name in m.Keys - todo ==> NestedWithin(m[name], MAX_VALIDATION_DEPTH - depth - 1)
            decreases |todo|
          {
            var name :| name in todo;
            ok := CheckInstanceDepth(m[name], depth + 1);
            if !ok {
              return;
            }
            todo := todo - {name};
          }
          return true;
        case Arr(items) =>
          for i := 0 to |items|
            invariant forall j :: 0 <= j < i ==> NestedWithin(items[j], MAX_VALIDATION_DEPTH - depth - 1)
          {
            ok := CheckInstanceDepth(items[i], depth + 1);
            if !ok {
              return;
            }
          }
          return true;
        case _ =>
          return true;
      }
    }

    /**
     Validates a value against the root schema. An instance nested too deeply is one issue. For a schema without
     references and at most a thousand levels deep, there is otherwise no issue exactly when the value meets it.
    */
    method ValidateValue(root: Schema, v: Json) returns (issues: seq<Issue>)
      ensures !NestedWithin(v, 1000) ==> issues == [Issue("MAX_DEPTH_EXCEEDED", "#")]
      ensures NestedWithin(v, 1000) && Plain(root, 1000, {}) ==>
        (issues == [] <==> Meets(oracles, root, v))
    {
      hide Meets, Plain;
      var ok := CheckInstanceDepth(v, 0);
      if !ok {
        return [Issue("MAX_DEPTH_EXCEEDED", "#")];
      }
      assert Addresses({}) == {};
      var visited := new VisitedKeys();
      var ctx := new ValidationContext(0, visited);
      ValidateSchema(ctx, root, v, "", Plain(root, MAX_VALIDATION_DEPTH, {}));
      issues := ctx.issues;
    }
  }
}
