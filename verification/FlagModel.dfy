/** The feature-flag domain model: flags, rules, segments and the snapshot the engine reads. */
module FlagModel {
  import opened Basics

  /**
   A JSON value. Numbers keep the two forms the source tells apart: an integer literal and a
   finite double. Objects are key-ordered maps, held as their entries in key order.
   */
  datatype Json =
    | Null
    | Bool(b: bool)
    | Int(i: int)
    | Float(f: real)
    | Str(s: string)
    | Arr(items: seq<Json>)
    | Obj(fields: seq<(string, Json)>)
  {
    function AsF64(): Option<real> {
      if Int? then Some(i as real) else if Float? then Some(f) else None
    }
  }

  datatype ValueType = Boolean | String | Integer | Double | Object

  datatype Operator =
    | Eq | Neq | In | NotIn | Contains | StartsWith | EndsWith
    | Gt | Gte | Lt | Lte | Exists | Regex | FlagMatches

  datatype Variant = Variant(key: string, value: Json)

  datatype Constraint = Constraint(attribute: string, operator: Operator, values: seq<Json>)

  /** Constraints combined by OR; an empty group matches. */
  datatype ConstraintGroup = ConstraintGroup(constraints: seq<Constraint>)

  datatype Distribution = Distribution(variantKey: string, weight: U32)

  /** An ordered targeting rule: its segment (if any) AND every constraint group must match. */
  datatype Rule = Rule(
    rank: nat,
    segmentKey: Option<string>,
    variantKey: Option<string>,
    distributions: seq<Distribution>,
    constraintGroups: seq<ConstraintGroup>,
    bucketSalt: string)

  datatype Flag = Flag(
    key: string,
    valueType: ValueType,
    enabled: bool,
    defaultVariantKey: string,
    archived: bool,
    variants: seq<Variant>,
    rules: seq<Rule>)
  {
    predicate Active() {
      !archived && enabled
    }
  }

  datatype Segment = Segment(key: string, name: string, constraints: seq<Constraint>)

  datatype Snapshot = Snapshot(version: int, flags: map<string, Flag>, segments: map<string, Segment>)

  /** Every entry of the snapshot is filed under its own key. */
  ghost predicate WellKeyed(s: Snapshot) {
    && (forall k | k in s.flags :: s.flags[k].key == k)
    && (forall k | k in s.segments :: s.segments[k].key == k)
  }

  /** The first variant with the given key. */
  function FindVariant(variants: seq<Variant>, key: string): Option<Variant> {
    if variants == [] then None
    else if variants[0].key == key then Some(variants[0])
    else FindVariant(variants[1..], key)
  }

  ghost predicate HasVariant(variants: seq<Variant>, key: string) {
    exists v :: v in variants && v.key == key
  }

  lemma {:induction false} FindVariantFinds(variants: seq<Variant>, key: string)
    ensures FindVariant(variants, key).Some? <==> HasVariant(variants, key)
    ensures FindVariant(variants, key).Some? ==>
              FindVariant(variants, key).value in variants && FindVariant(variants, key).value.key == key
  {
    if variants != [] {
      FindVariantFinds(variants[1..], key);
      if HasVariant(variants, key) && variants[0].key != key {
        var v :| v in variants && v.key == key;
        assert v in variants[1..];
      }
    }
  }
}
