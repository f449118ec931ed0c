/** The evaluation engine as it runs: early-return loops over a stack that is pushed and popped in place. */
module FlagEngine {
  import opened Basics
  import opened FlagModel
  import opened FlagSemantics

  /** The keys of the flags whose rules are being evaluated, outermost first. */
  class FlagStack {
    var keys: seq<string>

    constructor ()
      ensures keys == []
    {
      keys := [];
    }
  }

  method EvaluateFlag(e: Engine, flagKey: string, ctx: EvalContext) returns (r: Outcome)
    ensures r == Evaluate(e, flagKey, ctx, [])
  {
    var stack := new FlagStack();
    r := EvaluateInner(e, flagKey, ctx, stack);
  }

  method EvaluateInner(e: Engine, flagKey: string, ctx: EvalContext, stack: FlagStack) returns (r: Outcome)
    modifies stack
    ensures stack.keys == old(stack.keys)
    ensures r == Evaluate(e, flagKey, ctx, stack.keys)
    decreases Unvisited(e.snapshot, stack.keys), 0
  {
    if flagKey in stack.keys {
      return Err(DependencyCycle(flagKey));
    }
    if flagKey !in e.snapshot.flags {
      return Err(UnknownFlag(flagKey));
    }
    var flag := e.snapshot.flags[flagKey];
    if flag.archived || !flag.enabled {
      return ResolveVariant(flag, flag.defaultVariantKey, Disabled);
    }
    assert flagKey in Unvisited(e.snapshot, stack.keys) && flagKey !in Unvisited(e.snapshot, stack.keys + [flagKey]);
    stack.keys := stack.keys + [flagKey];
    r := RunRules(e, flag, flagKey, ctx, stack);
    stack.keys := stack.keys[..|stack.keys| - 1];
  }

  method RunRules(e: Engine, flag: Flag, flagKey: string, ctx: EvalContext, stack: FlagStack) returns (r: Outcome)
    modifies stack
    ensures stack.keys == old(stack.keys)
    ensures r == ResolveRules(e, flag, flagKey, flag.rules, ctx, FlagsUnder(e, ctx, stack.keys))
    decreases Unvisited(e.snapshot, stack.keys), 4
  {
    ghost var flags := FlagsUnder(e, ctx, stack.keys);
    for i := 0 to |flag.rules|
      invariant stack.keys == old(stack.keys)
      invariant ResolveRules(e, flag, flagKey, flag.rules[i..], ctx, flags)
             == ResolveRules(e, flag, flagKey, flag.rules, ctx, flags)
    {
      var rule := flag.rules[i];
      var matched := RunRule(e, rule, ctx, stack);
      if !matched {
        continue;
      }
      if rule.distributions != [] {
        var variantKey := PickDistribution(e.prim, flagKey, rule, ctx);
        return ResolveVariant(flag, variantKey, Split);
      }
      if rule.variantKey.Some? {
        return ResolveVariant(flag, rule.variantKey.value, TargetingMatch);
      }
    }
    return ResolveVariant(flag, flag.defaultVariantKey, Default);
  }

  method RunRule(e: Engine, rule: Rule, ctx: EvalContext, stack: FlagStack) returns (matched: bool)
    modifies stack
    ensures stack.keys == old(stack.keys)
    ensures matched == RuleMatches(e, rule, ctx, FlagsUnder(e, ctx, stack.keys))
    decreases Unvisited(e.snapshot, stack.keys), 3
  {
    if rule.segmentKey.Some? {
      var key := rule.segmentKey.value;
      if key !in e.snapshot.segments || !SegmentMatches(e.prim, e.snapshot.segments[key], ctx) {
        return false;
      }
    }
    for i := 0 to |rule.constraintGroups|
      invariant stack.keys == old(stack.keys)
      invariant forall j | 0 <= j < i ::
          GroupMatches(e.prim, rule.constraintGroups[j], ctx, FlagsUnder(e, ctx, stack.keys))
    {
      var ok := RunGroup(e, rule.constraintGroups[i], ctx, stack);
      if !ok {
        return false;
      }
    }
    return true;
  }

  method RunGroup(e: Engine, group: ConstraintGroup, ctx: EvalContext, stack: FlagStack) returns (matched: bool)
    modifies stack
    ensures stack.keys == old(stack.keys)
    ensures matched == GroupMatches(e.prim, group, ctx, FlagsUnder(e, ctx, stack.keys))
    decreases Unvisited(e.snapshot, stack.keys), 2
  {
    if group.constraints == [] {
      return true;
    }
    for i := 0 to |group.constraints|
      invariant stack.keys == old(stack.keys)
      invariant forall j | 0 <= j < i ::
          !ConstraintMatches(e.prim, group.constraints[j], ctx, FlagsUnder(e, ctx, stack.keys))
    {
      var c := group.constraints[i];
      var ok;
      if c.operator == FlagMatches {
        var r := EvaluateInner(e, c.attribute, ctx, stack);
        ok := r.Ok? && Str(r.value.variant) in c.values;
      } else {
        ok := AttrMatches(e.prim, c, ctx);
      }
      assert ok == ConstraintMatches(e.prim, c, ctx, FlagsUnder(e, ctx, stack.keys));
      if ok {
        return true;
      }
    }
    return false;
  }

  method PickDistribution(prim: Primitives, flagKey: string, rule: Rule, ctx: EvalContext) returns (variantKey: string)
    requires rule.distributions != []
    ensures variantKey == Picked(rule.distributions, BucketOf(prim, flagKey, rule.bucketSalt, ctx.targetingKey))
  {
    var bucket := BucketOf(prim, flagKey, rule.bucketSalt, ctx.targetingKey);
    var cumulative: U32 := 0;
    for i := 0 to |rule.distributions|
      invariant i < |rule.distributions| ==>
          PickIndex(rule.distributions, bucket, i, cumulative) == PickIndex(rule.distributions, bucket)
      invariant i == |rule.distributions| ==> PickIndex(rule.distributions, bucket) == i - 1
    {
      var d := rule.distributions[i];
      cumulative := WrappingAdd(cumulative, d.weight);
      if bucket < cumulative {
        return d.variantKey;
      }
    }
    return rule.distributions[|rule.distributions| - 1].variantKey;
  }
}
