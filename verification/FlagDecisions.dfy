/**
 What evaluation decides, told of the flag, the context and the answer alone: which variant is
 served for each operator, segment and split, with which reason, and which errors come out.
 */
module FlagDecisions {
  import opened Basics
  import opened FlagModel
  import opened FlagSemantics
  import opened FlagRollout

  // ---- What is served ----

  /** The answer is the first variant under `key`, for this reason. */
  ghost predicate Gives(f: Flag, r: Outcome, key: string, reason: Reason) {
    && r.Ok? && r.value.variant == key && r.value.reason == reason
    && exists i :: 0 <= i < |f.variants| && f.variants[i] == Variant(key, r.value.value)
         && forall j | 0 <= j < i :: f.variants[j].key != key
  }

  lemma {:induction false} FindVariantIsFirst(vs: seq<Variant>, key: string) returns (i: nat)
    requires FindVariant(vs, key).Some?
    ensures i < |vs| && FindVariant(vs, key) == Some(vs[i]) && vs[i].key == key
    ensures forall j | 0 <= j < i :: vs[j].key != key
  {
    if vs[0].key == key {
      i := 0;
    } else {
      var k := FindVariantIsFirst(vs[1..], key);
      i := k + 1;
    }
  }

  lemma VariantIsGiven(f: Flag, key: string, reason: Reason)
    requires HasVariant(f.variants, key)
    ensures Gives(f, ResolveVariant(f, key, reason), key, reason)
  {
    FindVariantFinds(f.variants, key);
    var i := FindVariantIsFirst(f.variants, key);
    assert f.variants[i] == Variant(key, ResolveVariant(f, key, reason).value.value);
  }

  /** A flag that is archived or not enabled answers its default, as disabled, whatever its rules. */
  lemma InactiveFlagsServeTheDefault(e: Engine, key: string, ctx: EvalContext)
    requires key in e.snapshot.flags
    requires var f := e.snapshot.flags[key];
             (f.archived || !f.enabled) && HasVariant(f.variants, f.defaultVariantKey)
    ensures var f := e.snapshot.flags[key]; Gives(f, Evaluate(e, key, ctx, []), f.defaultVariantKey, Disabled)
  {
    var f := e.snapshot.flags[key];
    VariantIsGiven(f, f.defaultVariantKey, Disabled);
  }

  /** An enabled flag whose one rule, to serve `r.variantKey`, can decide; its default can be served too. */
  ghost predicate HasOneRule(e: Engine, key: string, r: Rule) {
    && key in e.snapshot.flags
    && var f := e.snapshot.flags[key];
    && !f.archived && f.enabled && f.rules == [r] && HasVariant(f.variants, f.defaultVariantKey)
    && r.distributions == [] && r.variantKey.Some? && HasVariant(f.variants, r.variantKey.value)
  }

  /** The flag answers its rule's variant when `matched`, and its default otherwise. */
  ghost predicate Serves(e: Engine, key: string, r: Rule, ctx: EvalContext, matched: bool)
    requires HasOneRule(e, key, r)
  {
    var f := e.snapshot.flags[key];
    if matched then Gives(f, Evaluate(e, key, ctx, []), r.variantKey.value, TargetingMatch)
    else Gives(f, Evaluate(e, key, ctx, []), f.defaultVariantKey, Default)
  }

  lemma RuleServes(e: Engine, key: string, r: Rule, ctx: EvalContext)
    requires HasOneRule(e, key, r)
    ensures Serves(e, key, r, ctx, RuleMatches(e, r, ctx, FlagsUnder(e, ctx, [key])))
  {
    var f := e.snapshot.flags[key];
    var flags := FlagsUnder(e, ctx, [key]);
    assert [] + [key] == [key];
    assert f.rules[1..] == [];
    assert ResolveRules(e, f, key, [], ctx, flags) == ResolveVariant(f, f.defaultVariantKey, Default);
    VariantIsGiven(f, f.defaultVariantKey, Default);
    VariantIsGiven(f, r.variantKey.value, TargetingMatch);
  }

  // ---- One constraint ----

  /** The rule asks for one constraint and nothing else. */
  ghost predicate Asks(r: Rule, c: Constraint) {
    r.segmentKey.None? && r.constraintGroups == [ConstraintGroup([c])]
  }

  lemma ConstraintServes(e: Engine, key: string, r: Rule, c: Constraint, ctx: EvalContext)
    requires HasOneRule(e, key, r) && Asks(r, c)
    ensures Serves(e, key, r, ctx, ConstraintMatches(e.prim, c, ctx, FlagsUnder(e, ctx, [key])))
  {
    var g, flags := r.constraintGroups[0], FlagsUnder(e, ctx, [key]);
    RuleServes(e, key, r, ctx);
    assert GroupMatches(e.prim, g, ctx, flags) <==> ConstraintMatches(e.prim, c, ctx, flags) by {
      assert g.constraints[0] == c;
    }
    assert forall h :: h in r.constraintGroups <==> h == g;
  }

  /** `j` is the number `n`, written as an integer or as a double. */
  predicate IsNumber(j: Json, n: real) {
    (j.Int? && j.i as real == n) || (j.Float? && j.f == n)
  }

  predicate IsSomeNumber(j: Json) {
    j.Int? || j.Float?
  }

  /** On numbers the four comparisons test the attribute against the operand, in that order. */
  lemma NumberOperatorsServe(
    e: Engine, key: string, r: Rule, c: Constraint, ctx: EvalContext, attribute: real, operand: real)
    requires HasOneRule(e, key, r) && Asks(r, c) && c.attribute in ctx.attributes && c.values != []
    requires IsNumber(ctx.attributes[c.attribute], attribute) && IsNumber(c.values[0], operand)
    ensures c.operator == Gt ==> Serves(e, key, r, ctx, attribute > operand)
    ensures c.operator == Gte ==> Serves(e, key, r, ctx, attribute >= operand)
    ensures c.operator == Lt ==> Serves(e, key, r, ctx, attribute < operand)
    ensures c.operator == Lte ==> Serves(e, key, r, ctx, attribute <= operand)
  {
    ConstraintServes(e, key, r, c, ctx);
  }

  /** Where one side is not a number, they never hold. */
  lemma NumberOperatorsNeedNumbers(e: Engine, key: string, r: Rule, c: Constraint, ctx: EvalContext)
    requires HasOneRule(e, key, r) && Asks(r, c)
    requires c.operator == Gt || c.operator == Gte || c.operator == Lt || c.operator == Lte
    requires c.attribute !in ctx.attributes || !IsSomeNumber(ctx.attributes[c.attribute])
             || c.values == [] || !IsSomeNumber(c.values[0])
    ensures Serves(e, key, r, ctx, false)
  {
    ConstraintServes(e, key, r, c, ctx);
  }

  /** `t` stands somewhere in `s`. */
  ghost predicate Within(t: string, s: string) {
    exists a: string, b: string :: s == a + t + b
  }

  lemma {:induction false} InfixStands(s: string, t: string) returns (a: string, b: string)
    requires HasInfix(s, t)
    ensures s == a + t + b
  {
    if t <= s {
      a, b := "", s[|t|..];
    } else {
      var c, d := InfixStands(s[1..], t);
      a, b := [s[0]] + c, d;
      assert s == [s[0]] + s[1..];
    }
  }

  lemma {:induction false} StandingIsInfix(a: string, t: string, b: string)
    ensures HasInfix(a + t + b, t)
  {
    if a == "" {
      assert a + t + b == t + b;
    } else {
      StandingIsInfix(a[1..], t, b);
      assert (a + t + b)[1..] == a[1..] + t + b;
    }
  }

  lemma InfixIsWithin(s: string, t: string)
    ensures HasInfix(s, t) <==> Within(t, s)
  {
    if HasInfix(s, t) {
      var a, b := InfixStands(s, t);
    }
    if a: string, b: string :| s == a + t + b {
      StandingIsInfix(a, t, b);
    }
  }

  /** On strings: containment anywhere, at the start, at the end, and the pattern, attribute first. */
  lemma StringOperatorsServe(
    e: Engine, key: string, r: Rule, c: Constraint, ctx: EvalContext, s: string, t: string)
    requires HasOneRule(e, key, r) && Asks(r, c) && c.attribute in ctx.attributes && c.values != []
    requires ctx.attributes[c.attribute] == Str(s) && c.values[0] == Str(t)
    ensures c.operator == Contains ==> Serves(e, key, r, ctx, Within(t, s))
    ensures c.operator == StartsWith ==> Serves(e, key, r, ctx, |t| <= |s| && s[..|t|] == t)
    ensures c.operator == EndsWith ==> Serves(e, key, r, ctx, |t| <= |s| && s[|s| - |t|..] == t)
    ensures c.operator == Regex ==> Serves(e, key, r, ctx, e.prim.regexMatch(s, t))
  {
    ConstraintServes(e, key, r, c, ctx);
    StringVerdicts(e.prim, c, ctx, s, t);
  }

  lemma StringVerdicts(prim: Primitives, c: Constraint, ctx: EvalContext, s: string, t: string)
    requires c.attribute in ctx.attributes && c.values != []
    requires ctx.attributes[c.attribute] == Str(s) && c.values[0] == Str(t)
    ensures c.operator == Contains ==> AttrMatches(prim, c, ctx) == Within(t, s)
    ensures c.operator == StartsWith ==> AttrMatches(prim, c, ctx) == (|t| <= |s| && s[..|t|] == t)
    ensures c.operator == EndsWith ==> AttrMatches(prim, c, ctx) == (|t| <= |s| && s[|s| - |t|..] == t)
    ensures c.operator == Regex ==> AttrMatches(prim, c, ctx) == prim.regexMatch(s, t)
  {
    InfixIsWithin(s, t);
  }

  lemma StringOperatorsNeedStrings(e: Engine, key: string, r: Rule, c: Constraint, ctx: EvalContext)
    requires HasOneRule(e, key, r) && Asks(r, c)
    requires c.operator == Contains || c.operator == StartsWith || c.operator == EndsWith || c.operator == Regex
    requires c.attribute !in ctx.attributes || !ctx.attributes[c.attribute].Str? || c.values == [] || !c.values[0].Str?
    ensures Serves(e, key, r, ctx, false)
  {
    ConstraintServes(e, key, r, c, ctx);
  }

  /** Equality is with the first operand, membership with any; their negations hold of a missing attribute. */
  lemma EqualityOperatorsServe(e: Engine, key: string, r: Rule, c: Constraint, ctx: EvalContext)
    requires HasOneRule(e, key, r) && Asks(r, c)
    ensures var present := c.attribute in ctx.attributes;
            var equal := present && c.values != [] && ctx.attributes[c.attribute] == c.values[0];
            var member := present && exists i :: 0 <= i < |c.values| && c.values[i] == ctx.attributes[c.attribute];
            && (c.operator == Exists ==> Serves(e, key, r, ctx, present))
            && (c.operator == Eq ==> Serves(e, key, r, ctx, equal))
            && (c.operator == Neq ==> Serves(e, key, r, ctx, !equal))
            && (c.operator == In ==> Serves(e, key, r, ctx, member))
            && (c.operator == NotIn ==> Serves(e, key, r, ctx, !member))
  {
    ConstraintServes(e, key, r, c, ctx);
  }

  /** A prerequisite holds when the other flag resolves, under this one, to one of the listed variants. */
  lemma PrerequisiteServes(e: Engine, key: string, r: Rule, c: Constraint, ctx: EvalContext)
    requires HasOneRule(e, key, r) && Asks(r, c) && c.operator == FlagMatches
    ensures var other := Evaluate(e, c.attribute, ctx, [key]);
            Serves(e, key, r, ctx,
              other.Ok? && exists i :: 0 <= i < |c.values| && c.values[i] == Str(other.value.variant))
  {
    ConstraintServes(e, key, r, c, ctx);
  }

  // ---- Groups ----

  /** Groups are joined by "and", the constraints of one by "or"; an empty group asks for nothing. */
  lemma GroupsServe(e: Engine, key: string, r: Rule, ctx: EvalContext, alone: Constraint -> bool)
    requires HasOneRule(e, key, r) && r.segmentKey.None?
    requires forall c :: alone(c) == ConstraintMatches(e.prim, c, ctx, FlagsUnder(e, ctx, [key]))
    ensures Serves(e, key, r, ctx,
              forall g | g in r.constraintGroups :: g.constraints == [] || exists c :: c in g.constraints && alone(c))
  {
    RuleServes(e, key, r, ctx);
    forall g | g in r.constraintGroups
      ensures GroupMatches(e.prim, g, ctx, FlagsUnder(e, ctx, [key]))
         <==> g.constraints == [] || exists c :: c in g.constraints && alone(c)
    {
    }
  }

  // ---- Segments ----

  /** The rule asks for segment `k` and nothing else. */
  ghost predicate AsksSegment(r: Rule, k: string) {
    r.segmentKey == Some(k) && r.constraintGroups == []
  }

  /** The engine with segment `k` made of these constraints. */
  function WithSegment(e: Engine, k: string, cs: seq<Constraint>): Engine {
    e.(snapshot := e.snapshot.(segments := e.snapshot.segments[k := Segment(k, "", cs)]))
  }

  /** A rule for a segment that does not exist never serves. */
  lemma MissingSegmentBlocks(e: Engine, key: string, r: Rule, k: string, ctx: EvalContext)
    requires HasOneRule(e, key, r) && r.segmentKey == Some(k) && k !in e.snapshot.segments
    ensures Serves(e, key, r, ctx, false)
  {
    RuleServes(e, key, r, ctx);
  }

  /** A segment matches when each of its constraints would as a segment of its own; without any, always. */
  lemma SegmentNeedsAll(e: Engine, key: string, r: Rule, k: string, ctx: EvalContext)
    requires HasOneRule(e, key, r) && AsksSegment(r, k) && k in e.snapshot.segments
    ensures Serves(e, key, r, ctx,
              forall c | c in e.snapshot.segments[k].constraints :: Serves(WithSegment(e, k, [c]), key, r, ctx, true))
  {
    SegmentServes(e, key, r, k, ctx);
    forall c | c in e.snapshot.segments[k].constraints
      ensures Serves(WithSegment(e, k, [c]), key, r, ctx, true) <==> AttrMatches(e.prim, c, ctx)
    {
      SegmentOfOne(e, key, r, k, c, ctx);
    }
  }

  lemma SegmentServes(e: Engine, key: string, r: Rule, k: string, ctx: EvalContext)
    requires HasOneRule(e, key, r) && AsksSegment(r, k) && k in e.snapshot.segments
    ensures Serves(e, key, r, ctx, SegmentMatches(e.prim, e.snapshot.segments[k], ctx))
  {
    RuleServes(e, key, r, ctx);
  }

  lemma SegmentOfOne(e: Engine, key: string, r: Rule, k: string, c: Constraint, ctx: EvalContext)
    requires HasOneRule(e, key, r) && AsksSegment(r, k)
    ensures Serves(WithSegment(e, k, [c]), key, r, ctx, true) <==> AttrMatches(e.prim, c, ctx)
  {
    var one := WithSegment(e, k, [c]);
    RuleServes(one, key, r, ctx);
    assert one.snapshot.segments[k].constraints[0] == c;
  }

  /** The flag with its rule asking for the constraint itself in place of the segment. */
  function Inlined(e: Engine, key: string, r: Rule, c: Constraint): Engine
    requires key in e.snapshot.flags
  {
    var inline := r.(segmentKey := None, constraintGroups := [ConstraintGroup([c])]);
    e.(snapshot := e.snapshot.(flags := e.snapshot.flags[key := e.snapshot.flags[key].(rules := [inline])]))
  }

  /** A segment of one constraint serves like the constraint itself, but a prerequisite in a segment never holds. */
  lemma SegmentOfOneIsItsConstraint(e: Engine, key: string, r: Rule, k: string, c: Constraint, ctx: EvalContext)
    requires HasOneRule(e, key, r) && AsksSegment(r, k)
    ensures var inline := r.(segmentKey := None, constraintGroups := [ConstraintGroup([c])]);
            && HasOneRule(Inlined(e, key, r, c), key, inline)
            && (c.operator != FlagMatches ==>
                  Serves(WithSegment(e, k, [c]), key, r, ctx, Serves(Inlined(e, key, r, c), key, inline, ctx, true)))
            && (c.operator == FlagMatches ==> Serves(WithSegment(e, k, [c]), key, r, ctx, false))
  {
    var inline := r.(segmentKey := None, constraintGroups := [ConstraintGroup([c])]);
    var e2 := Inlined(e, key, r, c);
    assert e2.snapshot.flags[key].rules == [inline];
    SegmentOfOne(e, key, r, k, c, ctx);
    RuleServes(WithSegment(e, k, [c]), key, r, ctx);
    ConstraintServes(e2, key, inline, c, ctx);
  }

  // ---- Splits ----

  /** What the rollout hashes: the flag, the rule's salt unless it is empty, and who is asking. */
  function RolloutText(key: string, salt: string, who: string): string {
    if salt == "" then key + ":" + who else key + ":" + salt + ":" + who
  }

  /** A split serves the entry whose share of the 100 buckets holds the hash of flag, salt and targeting key. */
  lemma SplitServes(e: Engine, key: string, r: Rule, ctx: EvalContext) returns (i: nat)
    requires key in e.snapshot.flags && r.distributions != [] && r.segmentKey.None? && r.constraintGroups == []
    requires WeightSum(r.distributions) == 100
    requires var f := e.snapshot.flags[key];
             && !f.archived && f.enabled && f.rules == [r]
             && forall d | d in r.distributions :: HasVariant(f.variants, d.variantKey)
    ensures var bucket := e.prim.digest(RolloutText(key, r.bucketSalt, ctx.targetingKey)) % 100;
            && i < |r.distributions|
            && PrefixSum(r.distributions, i) <= bucket < PrefixSum(r.distributions, i + 1)
            && Gives(e.snapshot.flags[key], Evaluate(e, key, ctx, []), r.distributions[i].variantKey, Split)
  {
    var f := e.snapshot.flags[key];
    var bucket := BucketOf(e.prim, key, r.bucketSalt, ctx.targetingKey);
    assert HashInput(key, r.bucketSalt, ctx.targetingKey) == RolloutText(key, r.bucketSalt, ctx.targetingKey);
    i := PickIndex(r.distributions, bucket);
    FallbackNeverUsed(r.distributions, bucket);
    assert r.distributions[i] in r.distributions;
    VariantIsGiven(f, r.distributions[i].variantKey, Split);
  }

  // ---- Errors ----

  /** A flag that is not there is not found; a cycle and an unknown variant are parse errors. */
  lemma ErrorsAre(e: Engine, key: string, ctx: EvalContext, stack: seq<string>)
    ensures key in stack ==>
              Evaluate(e, key, ctx, stack).Err? && Evaluate(e, key, ctx, stack).error.Code() == ParseError
    ensures key !in stack && key !in e.snapshot.flags ==>
              Evaluate(e, key, ctx, stack).Err? && Evaluate(e, key, ctx, stack).error.Code() == FlagNotFound
    ensures key !in stack && key in e.snapshot.flags && Evaluate(e, key, ctx, stack).Err? ==>
              Evaluate(e, key, ctx, stack).error.Code() == ParseError
  {
    if key !in stack && key in e.snapshot.flags {
      var f := e.snapshot.flags[key];
      RulesErr(e, f, key, f.rules, ctx, FlagsUnder(e, ctx, stack + [key]));
    }
  }

  lemma {:induction false} RulesErr(
    e: Engine, f: Flag, key: string, rules: seq<Rule>, ctx: EvalContext, flags: string -> Outcome)
    ensures ResolveRules(e, f, key, rules, ctx, flags).Err? ==>
              ResolveRules(e, f, key, rules, ctx, flags).error.Code() == ParseError
  {
    if rules != [] {
      RulesErr(e, f, key, rules[1..], ctx, flags);
    }
  }

  /** A disabled flag whose default variant is not there is such an error. */
  lemma UnknownVariantIsAnError(e: Engine, key: string, ctx: EvalContext)
    requires key in e.snapshot.flags
    requires var f := e.snapshot.flags[key]; !f.enabled && !HasVariant(f.variants, f.defaultVariantKey)
    ensures Evaluate(e, key, ctx, []).Err? && Evaluate(e, key, ctx, []).error.Code() == ParseError
  {
    var f := e.snapshot.flags[key];
    FindVariantFinds(f.variants, f.defaultVariantKey);
  }
}
