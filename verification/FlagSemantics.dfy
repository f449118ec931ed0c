/**
 What evaluating a flag means. A rule is read against an oracle that says how other flags
 resolve, so the same reading serves the engine, whose oracle carries the stack of flags under
 evaluation, and the plain semantics, whose oracle is the meaning itself.
 */
module FlagSemantics {
  import opened Basics
  import opened FlagModel

  datatype Reason = Static | Default | TargetingMatch | Split | Disabled | Error

  datatype ErrorCode = FlagNotFound | ParseError | General

  datatype EvalError =
    | UnknownFlag(flagKey: string)
    | DependencyCycle(flagKey: string)
    | UnknownVariant(flagKey: string, variantKey: string)
  {
    function Code(): ErrorCode {
      if UnknownFlag? then FlagNotFound else ParseError
    }
  }

  datatype Resolution = Resolution(value: Json, variant: string, reason: Reason)

  type Outcome = Result<Resolution, EvalError>

  datatype EvalContext = EvalContext(targetingKey: string, attributes: map<string, Json>)

  /** The foreign code evaluation rests on: regex matching (haystack, pattern), and SHA-256 read as a number. */
  datatype Primitives = Primitives(regexMatch: (string, string) -> bool, digest: string -> nat)

  datatype Engine = Engine(snapshot: Snapshot, prim: Primitives)

  // ---- Attribute constraints ----

  predicate HasInfix(a: string, b: string) {
    b <= a || (a != "" && HasInfix(a[1..], b))
  }

  predicate HasPrefix(a: string, b: string) {
    b <= a
  }

  predicate HasSuffix(a: string, b: string) {
    |b| <= |a| && a[|a| - |b|..] == b
  }

  predicate StringOp(attr: Option<Json>, operand: Option<Json>, f: (string, string) -> bool) {
    attr.Some? && operand.Some? && attr.value.Str? && operand.value.Str? && f(attr.value.s, operand.value.s)
  }

  predicate NumberOp(attr: Option<Json>, operand: Option<Json>, f: (real, real) -> bool) {
    && attr.Some? && operand.Some?
    && attr.value.AsF64().Some? && operand.value.AsF64().Some?
    && f(attr.value.AsF64().value, operand.value.AsF64().value)
  }

  predicate AttrMatches(prim: Primitives, c: Constraint, ctx: EvalContext) {
    var attr := Get(ctx.attributes, c.attribute);
    var first := if c.values == [] then None else Some(c.values[0]);
    match c.operator
    case Exists => attr.Some?
    case Eq => attr.Some? && first == attr
    case Neq => attr.None? || first != attr
    case In => attr.Some? && attr.value in c.values
    case NotIn => attr.None? || attr.value !in c.values
    case Contains => StringOp(attr, first, HasInfix)
    case StartsWith => StringOp(attr, first, HasPrefix)
    case EndsWith => StringOp(attr, first, HasSuffix)
    case Regex => StringOp(attr, first, prim.regexMatch)
    case Gt => NumberOp(attr, first, (a, b) => a > b)
    case Gte => NumberOp(attr, first, (a, b) => a >= b)
    case Lt => NumberOp(attr, first, (a, b) => a < b)
    case Lte => NumberOp(attr, first, (a, b) => a <= b)
    case FlagMatches => false
  }

  predicate SegmentMatches(prim: Primitives, s: Segment, ctx: EvalContext) {
    forall c | c in s.constraints :: AttrMatches(prim, c, ctx)
  }

  // ---- Rules, read against an oracle for other flags ----

  predicate ConstraintMatches(prim: Primitives, c: Constraint, ctx: EvalContext, flags: string -> Outcome) {
    if c.operator == FlagMatches then
      flags(c.attribute).Ok? && Str(flags(c.attribute).value.variant) in c.values
    else
      AttrMatches(prim, c, ctx)
  }

  predicate GroupMatches(prim: Primitives, g: ConstraintGroup, ctx: EvalContext, flags: string -> Outcome) {
    g.constraints == [] || exists c | c in g.constraints :: ConstraintMatches(prim, c, ctx, flags)
  }

  /** A missing segment never matches. */
  predicate SegmentOk(e: Engine, rule: Rule, ctx: EvalContext) {
    rule.segmentKey.None? ||
    (rule.segmentKey.value in e.snapshot.segments &&
     SegmentMatches(e.prim, e.snapshot.segments[rule.segmentKey.value], ctx))
  }

  predicate RuleMatches(e: Engine, rule: Rule, ctx: EvalContext, flags: string -> Outcome) {
    SegmentOk(e, rule, ctx) &&
    forall g | g in rule.constraintGroups :: GroupMatches(e.prim, g, ctx, flags)
  }

  function ResolveVariant(flag: Flag, variantKey: string, reason: Reason): Outcome {
    match FindVariant(flag.variants, variantKey)
    case None => Err(UnknownVariant(flag.key, variantKey))
    case Some(v) => Ok(Resolution(v.value, v.key, reason))
  }

  /** A rule with neither a split nor a variant decides nothing, even when it matches. */
  predicate Decides(rule: Rule) {
    rule.distributions != [] || rule.variantKey.Some?
  }

  function Serve(e: Engine, flag: Flag, flagKey: string, rule: Rule, ctx: EvalContext): Outcome
    requires Decides(rule)
  {
    if rule.distributions != [] then
      ResolveVariant(flag, Picked(rule.distributions, BucketOf(e.prim, flagKey, rule.bucketSalt, ctx.targetingKey)),
          Split)
    else
      ResolveVariant(flag, rule.variantKey.value, TargetingMatch)
  }

  function ResolveRules(e: Engine, flag: Flag, flagKey: string, rules: seq<Rule>, ctx: EvalContext,
                        flags: string -> Outcome): Outcome
  {
    if rules == [] then ResolveVariant(flag, flag.defaultVariantKey, Default)
    else if RuleMatches(e, rules[0], ctx, flags) && Decides(rules[0]) then Serve(e, flag, flagKey, rules[0], ctx)
    else ResolveRules(e, flag, flagKey, rules[1..], ctx, flags)
  }

  /** One unfolding of evaluation: everything but the cycle check, which belongs to the engine. */
  function Step(e: Engine, flagKey: string, ctx: EvalContext, flags: string -> Outcome): Outcome {
    if flagKey !in e.snapshot.flags then Err(UnknownFlag(flagKey))
    else
      var flag := e.snapshot.flags[flagKey];
      if flag.Active() then ResolveRules(e, flag, flagKey, flag.rules, ctx, flags)
      else ResolveVariant(flag, flag.defaultVariantKey, Disabled)
  }

  // ---- Percentage rollout ----

  /** The text the rollout hash reads. An empty salt leaves the form used before salts existed. */
  function HashInput(flagKey: string, salt: string, targetingKey: string): string {
    flagKey + (if salt == "" then "" else ":" + salt) + ":" + targetingKey
  }

  function BucketOf(prim: Primitives, flagKey: string, salt: string, targetingKey: string): (b: nat)
    ensures b < 100
  {
    prim.digest(HashInput(flagKey, salt, targetingKey)) % 100
  }

  /** The first entry whose running total, summed in 32 bits, exceeds the bucket; the last entry if none does. */
  function PickIndex(ds: seq<Distribution>, bucket: nat, from: nat := 0, cumulative: U32 := 0): (i: nat)
    requires from < |ds|
    ensures from <= i < |ds|
    decreases |ds| - from
  {
    var sum := WrappingAdd(cumulative, ds[from].weight);
    if bucket < sum || from == |ds| - 1 then from else PickIndex(ds, bucket, from + 1, sum)
  }

  function Picked(ds: seq<Distribution>, bucket: nat): string
    requires ds != []
  {
    ds[PickIndex(ds, bucket)].variantKey
  }

  // ---- Evaluation with a stack ----

  /** The flags still open to recursion: the measure that bounds evaluation on cyclic snapshots. */
  function Unvisited(s: Snapshot, stack: seq<string>): set<string> {
    set k | k in s.flags && k !in stack
  }

  function Evaluate(e: Engine, flagKey: string, ctx: EvalContext, stack: seq<string>): Outcome
    decreases Unvisited(e.snapshot, stack), 0
  {
    if flagKey in stack then Err(DependencyCycle(flagKey))
    else if flagKey !in e.snapshot.flags then Err(UnknownFlag(flagKey))
    else
      assert flagKey in Unvisited(e.snapshot, stack) && flagKey !in Unvisited(e.snapshot, stack + [flagKey]);
      Step(e, flagKey, ctx, FlagsUnder(e, ctx, stack + [flagKey]))
  }

  /** How other flags resolve while the flags on the stack are under evaluation. */
  function FlagsUnder(e: Engine, ctx: EvalContext, stack: seq<string>): string -> Outcome
    decreases Unvisited(e.snapshot, stack), 1
  {
    k => Evaluate(e, k, ctx, stack)
  }
}
