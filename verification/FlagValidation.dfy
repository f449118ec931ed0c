/** Validation of a declared configuration before anything is written. */
module FlagValidation {
  import opened Basics
  import opened FlagModel
  import opened FlagSemantics
  import opened FlagMeaning
  import opened FlagRollout

  datatype InvalidConfig =
    | UnknownDefault(flagKey: string, variantKey: string)
    | TypeMismatch(variantKey: string, valueType: ValueType)
    | UnknownTarget(flagKey: string, variantKey: string)
    | BadSplit(rank: nat, total: U32)

  /** The variant's JSON value fits the flag's declared type; any whole number is an integer. */
  predicate TypeMatches(t: ValueType, value: Json) {
    match t
    case Boolean => value.Bool?
    case String => value.Str?
    case Integer => value.AsF64().Some? && value.AsF64().value == value.AsF64().value.Floor as real
    case Double => value.AsF64().Some?
    case Object => value.Obj?
  }

  ghost predicate RuleAccepted(variants: seq<Variant>, r: Rule) {
    && (r.variantKey.Some? ==> HasVariant(variants, r.variantKey.value))
    && (r.distributions != [] ==>
          && (forall d | d in r.distributions :: HasVariant(variants, d.variantKey))
          && WrappedTotal(r.distributions, |r.distributions|) == 100)
  }

  ghost predicate FlagAccepted(f: Flag) {
    && HasVariant(f.variants, f.defaultVariantKey)
    && (forall v | v in f.variants :: TypeMatches(f.valueType, v.value))
    && (forall r | r in f.rules :: RuleAccepted(f.variants, r))
  }

  /** The reported fault is one the flag really has. */
  ghost predicate Faults(f: Flag, e: InvalidConfig) {
    match e
    case UnknownDefault(k, v) => k == f.key && v == f.defaultVariantKey && !HasVariant(f.variants, v)
    case TypeMismatch(k, t) => t == f.valueType && exists v :: v in f.variants && v.key == k && !TypeMatches(t, v.value)
    case UnknownTarget(k, v) =>
      && k == f.key && !HasVariant(f.variants, v)
      && exists r :: r in f.rules && (r.variantKey == Some(v) || exists d :: d in r.distributions && d.variantKey == v)
    case BadSplit(rank, total) =>
      && rank < |f.rules| && f.rules[rank].distributions != []
      && total == WrappedTotal(f.rules[rank].distributions, |f.rules[rank].distributions|) != 100
  }

  method ValidateDesired(flags: seq<Flag>) returns (r: Result<(), InvalidConfig>)
    ensures r.Ok? <==> forall f | f in flags :: FlagAccepted(f)
    ensures r.Err? ==> exists f :: f in flags && Faults(f, r.error)
  {
    for i := 0 to |flags|
      invariant forall f | f in flags[..i] :: FlagAccepted(f)
    {
      var f := flags[i];
      r := ValidateFlag(f);
      if r.Err? {
        assert f in flags && Faults(f, r.error);
        return;
      }
      assert flags[..i + 1] == flags[..i] + [f];
    }
    r := Ok(());
  }

  method ValidateFlag(f: Flag) returns (r: Result<(), InvalidConfig>)
    ensures r.Ok? <==> FlagAccepted(f)
    ensures r.Err? ==> Faults(f, r.error)
  {
    if forall v | v in f.variants :: v.key != f.defaultVariantKey {
      return Err(UnknownDefault(f.key, f.defaultVariantKey));
    }
    for i := 0 to |f.variants|
      invariant forall v | v in f.variants[..i] :: TypeMatches(f.valueType, v.value)
    {
      var v := f.variants[i];
      if !TypeMatches(f.valueType, v.value) {
        assert v in f.variants;
        return Err(TypeMismatch(v.key, f.valueType));
      }
      assert f.variants[..i + 1] == f.variants[..i] + [v];
    }
    assert f.variants[..|f.variants|] == f.variants;
    var keys := set v | v in f.variants :: v.key;
    for rank := 0 to |f.rules|
      invariant forall r | r in f.rules[..rank] :: RuleAccepted(f.variants, r)
    {
      r := ValidateRule(f, rank, keys);
      if r.Err? {
        return;
      }
      assert f.rules[..rank + 1] == f.rules[..rank] + [f.rules[rank]];
    }
    assert f.rules[..|f.rules|] == f.rules;
    r := Ok(());
  }

  method ValidateRule(f: Flag, rank: nat, keys: set<string>) returns (r: Result<(), InvalidConfig>)
    requires rank < |f.rules| && forall k :: k in keys <==> HasVariant(f.variants, k)
    ensures r.Ok? <==> RuleAccepted(f.variants, f.rules[rank])
    ensures r.Err? ==> Faults(f, r.error)
  {
    var rule := f.rules[rank];
    assert rule in f.rules;
    if rule.variantKey.Some? && rule.variantKey.value !in keys {
      return Err(UnknownTarget(f.key, rule.variantKey.value));
    }
    if rule.distributions != [] {
      var total: U32 := 0;
      for i := 0 to |rule.distributions|
        invariant total == WrappedTotal(rule.distributions, i)
        invariant forall j | 0 <= j < i :: HasVariant(f.variants, rule.distributions[j].variantKey)
      {
        var d := rule.distributions[i];
        if d.variantKey !in keys {
          assert d in rule.distributions;
          return Err(UnknownTarget(f.key, d.variantKey));
        }
        total := WrappingAdd(total, d.weight);
      }
      if total != 100 {
        return Err(BadSplit(rank, total));
      }
    }
    r := Ok(());
  }

  /**
   The JSON values each declared type takes, told of the flags that are accepted: a flag without
   rules whose default is there is refused for its values' kinds alone. A double that is whole is an
   integer, and an integer is a double; null and lists are of no type.
   */
  lemma AcceptedKinds(f: Flag)
    requires f.rules == [] && HasVariant(f.variants, f.defaultVariantKey)
    ensures f.valueType == Boolean ==> (FlagAccepted(f) <==> forall v | v in f.variants :: v.value.Bool?)
    ensures f.valueType == String ==> (FlagAccepted(f) <==> forall v | v in f.variants :: v.value.Str?)
    ensures f.valueType == Integer ==>
              (FlagAccepted(f) <==> forall v | v in f.variants :: v.value.Int? || IsWholeDouble(v.value))
    ensures f.valueType == Double ==>
              (FlagAccepted(f) <==> forall v | v in f.variants :: v.value.Int? || v.value.Float?)
    ensures f.valueType == Object ==> (FlagAccepted(f) <==> forall v | v in f.variants :: v.value.Obj?)
  {
    forall v | v in f.variants
      ensures TypeMatches(Integer, v.value) <==> v.value.Int? || IsWholeDouble(v.value)
    {
      WholeDoubles(v.value);
    }
  }

  /** The double that is the integer `n`. */
  function Whole(n: int): Json {
    Float(n as real)
  }

  ghost predicate IsWholeDouble(j: Json) {
    exists n :: j == Whole(n)
  }

  lemma WholeDoubles(j: Json)
    ensures TypeMatches(Integer, j) <==> j.Int? || IsWholeDouble(j)
  {
    if j.Float? && j.f == j.f.Floor as real {
      assert j == Whole(j.f.Floor);
    }
    if IsWholeDouble(j) {
      var n :| j == Whole(n);
      assert (n as real).Floor == n;
    }
  }

  /** An accepted flag refers to its own variants only. */
  lemma AcceptedRefersToOwnVariants(f: Flag)
    requires FlagAccepted(f)
    ensures RefersToOwnVariants(f)
  {
    forall r | r in f.rules
      ensures r.variantKey.Some? ==> HasVariant(f.variants, r.variantKey.value)
      ensures forall d | d in r.distributions :: HasVariant(f.variants, d.variantKey)
    {
      assert RuleAccepted(f.variants, r);
    }
  }

  /**
   What validation guarantees of evaluation: a present flag that was accepted always resolves, to one of its
   own variants and to a value of its declared type, for every context and whatever cycles the snapshot has.
   */
  lemma AcceptedFlagsResolveInType(e: Engine, key: string, ctx: EvalContext)
    requires key in e.snapshot.flags && FlagAccepted(e.snapshot.flags[key])
    ensures var r := Evaluate(e, key, ctx, []);
            ServesOwnVariant(e.snapshot.flags[key], r) && TypeMatches(e.snapshot.flags[key].valueType, r.value.value)
  {
    AcceptedRefersToOwnVariants(e.snapshot.flags[key]);
    ValidFlagsAlwaysResolve(e, key, ctx, []);
  }
}
