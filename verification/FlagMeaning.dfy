/**
 What the engine's stack buys and costs: evaluation depends only on the flags it can reach, on
 acyclic snapshots it is the plain recursive meaning and nothing else is, and on well-formed
 snapshots it always serves one of the flag's own variants, cycles or not.
 */
module FlagMeaning {
  import opened Basics
  import opened FlagModel
  import opened FlagSemantics

  // ---- The prerequisite graph ----

  ghost predicate RuleMentions(r: Rule, d: string) {
    exists g, c :: g in r.constraintGroups && c in g.constraints && c.operator == FlagMatches && c.attribute == d
  }

  /** Evaluating `a` may consult `b`. Archived and disabled flags consult nothing. */
  ghost predicate DependsOn(s: Snapshot, a: string, b: string) {
    a in s.flags && s.flags[a].Active() && exists r :: r in s.flags[a].rules && RuleMentions(r, b)
  }

  ghost predicate IsWalk(s: Snapshot, w: seq<string>) {
    w != [] && forall i | 0 < i < |w| :: DependsOn(s, w[i - 1], w[i])
  }

  ghost predicate Reaches(s: Snapshot, a: string, b: string) {
    exists w :: IsWalk(s, w) && w[0] == a && w[|w| - 1] == b
  }

  ghost predicate AcyclicFrom(s: Snapshot, k: string) {
    forall a, b :: Reaches(s, k, a) && DependsOn(s, a, b) ==> !Reaches(s, b, a)
  }

  ghost predicate Acyclic(s: Snapshot) {
    forall a, b :: DependsOn(s, a, b) ==> !Reaches(s, b, a)
  }

  lemma ReachesSelf(s: Snapshot, a: string)
    ensures Reaches(s, a, a)
  {
    assert IsWalk(s, [a]);
  }

  lemma ReachesThrough(s: Snapshot, a: string, d: string, k: string)
    requires DependsOn(s, a, d) && Reaches(s, d, k)
    ensures Reaches(s, a, k)
  {
    var w :| IsWalk(s, w) && w[0] == d && w[|w| - 1] == k;
    assert IsWalk(s, [a] + w);
  }

  lemma AcyclicFromNext(s: Snapshot, a: string, d: string)
    requires AcyclicFrom(s, a) && DependsOn(s, a, d)
    ensures AcyclicFrom(s, d)
    ensures !Reaches(s, d, a)
  {
    ReachesSelf(s, a);
    forall x, y | Reaches(s, d, x) && DependsOn(s, x, y)
      ensures !Reaches(s, y, x)
    {
      ReachesThrough(s, a, d, x);
    }
  }

  // ---- Evaluation looks only at what it can reach ----

  ghost predicate SameSegment(e1: Engine, e2: Engine, r: Rule) {
    r.segmentKey.Some? ==>
      Get(e1.snapshot.segments, r.segmentKey.value) == Get(e2.snapshot.segments, r.segmentKey.value)
  }

  /** Rules read the same way when their segments and the flags they mention agree. */
  lemma {:induction false} RulesReadAlike(e1: Engine, e2: Engine, flag: Flag, key: string, rules: seq<Rule>,
                                          ctx: EvalContext, f1: string -> Outcome, f2: string -> Outcome)
    requires e1.prim == e2.prim
    requires forall r | r in rules :: SameSegment(e1, e2, r)
    requires forall r, d | r in rules && RuleMentions(r, d) :: f1(d) == f2(d)
    ensures ResolveRules(e1, flag, key, rules, ctx, f1) == ResolveRules(e2, flag, key, rules, ctx, f2)
  {
    if rules != [] {
      var r := rules[0];
      assert SameSegment(e1, e2, r);
      forall g | g in r.constraintGroups
        ensures GroupMatches(e1.prim, g, ctx, f1) == GroupMatches(e2.prim, g, ctx, f2)
      {
        forall c | c in g.constraints
          ensures ConstraintMatches(e1.prim, c, ctx, f1) == ConstraintMatches(e2.prim, c, ctx, f2)
        {
          if c.operator == FlagMatches {
            assert RuleMentions(r, c.attribute);
          }
        }
      }
      assert RuleMatches(e1, r, ctx, f1) == RuleMatches(e2, r, ctx, f2);
      RulesReadAlike(e1, e2, flag, key, rules[1..], ctx, f1, f2);
    }
  }

  /** Two engines hold the same definition of flag `k`, segments included. */
  ghost predicate SameFlag(e1: Engine, e2: Engine, k: string) {
    && Get(e1.snapshot.flags, k) == Get(e2.snapshot.flags, k)
    && (k in e1.snapshot.flags ==> forall r | r in e1.snapshot.flags[k].rules :: SameSegment(e1, e2, r))
  }

  /** Evaluation is fixed by the definitions and the stack entries within reach of the flag. */
  lemma {:induction false} EvaluationIsLocal(e1: Engine, e2: Engine, key: string, ctx: EvalContext,
                                             st1: seq<string>, st2: seq<string>)
    requires e1.prim == e2.prim
    requires forall k | Reaches(e1.snapshot, key, k) :: SameFlag(e1, e2, k) && (k in st1 <==> k in st2)
    ensures Evaluate(e1, key, ctx, st1) == Evaluate(e2, key, ctx, st2)
    decreases Unvisited(e1.snapshot, st1)
  {
    ReachesSelf(e1.snapshot, key);
    assert SameFlag(e1, e2, key);
    if key !in st1 && key in e1.snapshot.flags && e1.snapshot.flags[key].Active() {
      var flag := e1.snapshot.flags[key];
      var t1, t2 := st1 + [key], st2 + [key];
      assert key in Unvisited(e1.snapshot, st1) && key !in Unvisited(e1.snapshot, t1);
      forall r, d | r in flag.rules && RuleMentions(r, d)
        ensures FlagsUnder(e1, ctx, t1)(d) == FlagsUnder(e2, ctx, t2)(d)
      {
        assert DependsOn(e1.snapshot, key, d);
        forall k | Reaches(e1.snapshot, d, k)
          ensures SameFlag(e1, e2, k) && (k in t1 <==> k in t2)
        {
          ReachesThrough(e1.snapshot, key, d, k);
        }
        EvaluationIsLocal(e1, e2, d, ctx, t1, t2);
      }
      RulesReadAlike(e1, e2, flag, key, flag.rules, ctx, FlagsUnder(e1, ctx, t1), FlagsUnder(e2, ctx, t2));
    }
  }

  // ---- The stack-free meaning ----

  /** `m` gives every flag the value its definition asks for, reading other flags through `m` itself. */
  ghost predicate IsMeaning(e: Engine, ctx: EvalContext, m: string -> Outcome) {
    forall k :: m(k) == Step(e, k, ctx, m)
  }

  /** On an acyclic snapshot the engine's answers satisfy the plain recursive semantics. */
  lemma EvaluateIsAMeaning(e: Engine, ctx: EvalContext)
    requires Acyclic(e.snapshot)
    ensures IsMeaning(e, ctx, FlagsUnder(e, ctx, []))
  {
    var m := FlagsUnder(e, ctx, []);
    forall k
      ensures m(k) == Step(e, k, ctx, m)
    {
      assert m(k) == Evaluate(e, k, ctx, []);
      if k in e.snapshot.flags && e.snapshot.flags[k].Active() {
        var flag := e.snapshot.flags[k];
        assert [] + [k] == [k];
        forall r, d | r in flag.rules && RuleMentions(r, d)
          ensures FlagsUnder(e, ctx, [k])(d) == m(d)
        {
          assert DependsOn(e.snapshot, k, d);
          EvaluationIsLocal(e, e, d, ctx, [k], []);
        }
        RulesReadAlike(e, e, flag, k, flag.rules, ctx, FlagsUnder(e, ctx, [k]), m);
      }
    }
  }

  /** Whatever satisfies the plain semantics agrees with the engine wherever no cycle is in reach. */
  lemma {:induction false} MeaningIsEvaluate(
    e: Engine, ctx: EvalContext, m: string -> Outcome, key: string, stack: seq<string>)
    requires IsMeaning(e, ctx, m) && AcyclicFrom(e.snapshot, key)
    requires forall k | Reaches(e.snapshot, key, k) :: k !in stack
    ensures m(key) == Evaluate(e, key, ctx, stack)
    decreases Unvisited(e.snapshot, stack)
  {
    ReachesSelf(e.snapshot, key);
    assert m(key) == Step(e, key, ctx, m);
    if key in e.snapshot.flags && e.snapshot.flags[key].Active() {
      var flag := e.snapshot.flags[key];
      var t := stack + [key];
      assert key in Unvisited(e.snapshot, stack) && key !in Unvisited(e.snapshot, t);
      forall r, d | r in flag.rules && RuleMentions(r, d)
        ensures m(d) == FlagsUnder(e, ctx, t)(d)
      {
        assert DependsOn(e.snapshot, key, d);
        AcyclicFromNext(e.snapshot, key, d);
        forall k | Reaches(e.snapshot, d, k)
          ensures k !in t
        {
          ReachesThrough(e.snapshot, key, d, k);
        }
        MeaningIsEvaluate(e, ctx, m, d, t);
      }
      RulesReadAlike(e, e, flag, key, flag.rules, ctx, m, FlagsUnder(e, ctx, t));
    }
  }

  /** A rule serving `serve` when flag `dep` resolves to `want`. */
  function Prerequisite(dep: string, want: string, serve: string): Rule {
    Rule(0, None, Some(serve), [],
         [ConstraintGroup([Constraint(dep, FlagMatches, [Str(want)])])], "")
  }

  function Switch(key: string, rules: seq<Rule>): Flag {
    Flag(key, Boolean, true, "off", false, [Variant("on", Bool(true)), Variant("off", Bool(false))], rules)
  }

  /** Two flags that cannot both be right: `a` follows `b`, and `b` opposes `a`. */
  function Paradox(): Snapshot {
    Snapshot(1, map["a" := Switch("a", [Prerequisite("b", "on", "on")]),
                    "b" := Switch("b", [Prerequisite("a", "off", "on")])], map[])
  }

  lemma PrerequisiteReads(
    e: Engine, dep: string, want: string, serve: string, ctx: EvalContext, flags: string -> Outcome)
    ensures RuleMatches(e, Prerequisite(dep, want, serve), ctx, flags)
        <==> flags(dep).Ok? && flags(dep).value.variant == want
  {
    var r := Prerequisite(dep, want, serve);
    var g := r.constraintGroups[0];
    var c := g.constraints[0];
    assert Str(want) in c.values;
    assert GroupMatches(e.prim, g, ctx, flags) <==> ConstraintMatches(e.prim, c, ctx, flags);
    assert forall h :: h in r.constraintGroups <==> h == g;
  }

  lemma SwitchFollows(e: Engine, key: string, dep: string, want: string, ctx: EvalContext, flags: string -> Outcome)
    ensures var f := Switch(key, [Prerequisite(dep, want, "on")]);
            var r := ResolveRules(e, f, key, f.rules, ctx, flags);
            r.Ok? && r.value.variant == if flags(dep).Ok? && flags(dep).value.variant == want then "on" else "off"
  {
    var f := Switch(key, [Prerequisite(dep, want, "on")]);
    PrerequisiteReads(e, dep, want, "on", ctx, flags);
    assert f.variants[0] == Variant("on", Bool(true)) && f.variants[1..] == [Variant("off", Bool(false))];
    assert FindVariant(f.variants, "off") == FindVariant(f.variants[1..], "off") == Some(Variant("off", Bool(false)));
    assert f.rules[1..] == [];
    assert ResolveRules(e, f, key, [], ctx, flags) == ResolveVariant(f, "off", Default);
  }

  /** Acyclicity is needed: on this snapshot nothing satisfies the plain semantics, the engine's answers included. */
  lemma CyclicSnapshotHasNoMeaning(prim: Primitives, ctx: EvalContext, m: string -> Outcome)
    ensures !IsMeaning(Engine(Paradox(), prim), ctx, m)
  {
    var e := Engine(Paradox(), prim);
    if IsMeaning(e, ctx, m) {
      SwitchFollows(e, "a", "b", "on", ctx, m);
      SwitchFollows(e, "b", "a", "off", ctx, m);
    }
  }

  // ---- Totality ----

  /** What `validate_desired` demands of one flag's variant references. */
  ghost predicate RefersToOwnVariants(f: Flag) {
    && HasVariant(f.variants, f.defaultVariantKey)
    && (forall r | r in f.rules ::
          && (r.variantKey.Some? ==> HasVariant(f.variants, r.variantKey.value))
          && (forall d | d in r.distributions :: HasVariant(f.variants, d.variantKey)))
  }

  ghost predicate ServesOwnVariant(f: Flag, r: Outcome) {
    r.Ok? && Variant(r.value.variant, r.value.value) in f.variants
  }

  lemma {:induction false} RulesServeOwnVariant(e: Engine, f: Flag, key: string, rules: seq<Rule>, ctx: EvalContext,
                                                flags: string -> Outcome)
    requires RefersToOwnVariants(f)
    requires forall r | r in rules :: r in f.rules
    ensures ServesOwnVariant(f, ResolveRules(e, f, key, rules, ctx, flags))
  {
    FindVariantFinds(f.variants, f.defaultVariantKey);
    if rules != [] {
      var r := rules[0];
      if RuleMatches(e, r, ctx, flags) && Decides(r) {
        assert r in f.rules;
        if r.distributions != [] {
          var i := PickIndex(r.distributions, BucketOf(e.prim, key, r.bucketSalt, ctx.targetingKey));
          assert r.distributions[i] in r.distributions;
          FindVariantFinds(f.variants, r.distributions[i].variantKey);
        } else {
          FindVariantFinds(f.variants, r.variantKey.value);
        }
      } else {
        RulesServeOwnVariant(e, f, key, rules[1..], ctx, flags);
      }
    }
  }

  /** A present flag whose references are its own always resolves, whatever cycles the snapshot has. */
  lemma ValidFlagsAlwaysResolve(e: Engine, key: string, ctx: EvalContext, stack: seq<string>)
    requires key in e.snapshot.flags && RefersToOwnVariants(e.snapshot.flags[key])
    requires key !in stack
    ensures ServesOwnVariant(e.snapshot.flags[key], Evaluate(e, key, ctx, stack))
  {
    var f := e.snapshot.flags[key];
    FindVariantFinds(f.variants, f.defaultVariantKey);
    if f.Active() {
      RulesServeOwnVariant(e, f, key, f.rules, ctx, FlagsUnder(e, ctx, stack + [key]));
    }
  }

  // ---- Operators ----

  /** How the attribute operators relate: complements, single-value membership, and the order they test. */
  lemma OperatorLaws(prim: Primitives, a: string, vs: seq<Json>, ctx: EvalContext)
    ensures AttrMatches(prim, Constraint(a, Neq, vs), ctx) == !AttrMatches(prim, Constraint(a, Eq, vs), ctx)
    ensures AttrMatches(prim, Constraint(a, NotIn, vs), ctx) == !AttrMatches(prim, Constraint(a, In, vs), ctx)
    ensures AttrMatches(prim, Constraint(a, In, vs), ctx) <==>
              exists v :: v in vs && AttrMatches(prim, Constraint(a, Eq, [v]), ctx)
    ensures AttrMatches(prim, Constraint(a, Gt, vs), ctx) ==> AttrMatches(prim, Constraint(a, Gte, vs), ctx)
    ensures AttrMatches(prim, Constraint(a, Lt, vs), ctx) ==> AttrMatches(prim, Constraint(a, Lte, vs), ctx)
    ensures AttrMatches(prim, Constraint(a, Gte, vs), ctx) && AttrMatches(prim, Constraint(a, Lte, vs), ctx) ==>
              !AttrMatches(prim, Constraint(a, Gt, vs), ctx) && !AttrMatches(prim, Constraint(a, Lt, vs), ctx)
    ensures var ge, le := AttrMatches(prim, Constraint(a, Gte, vs), ctx),
            AttrMatches(prim, Constraint(a, Lte, vs), ctx);
            (ge || le) <==> a in ctx.attributes && ctx.attributes[a].AsF64().Some? && vs != [] && vs[0].AsF64().Some?
    ensures AttrMatches(prim, Constraint(a, StartsWith, vs), ctx) ==>
            AttrMatches(prim, Constraint(a, Contains, vs), ctx)
    ensures AttrMatches(prim, Constraint(a, EndsWith, vs), ctx) ==> AttrMatches(prim, Constraint(a, Contains, vs), ctx)
    ensures AttrMatches(prim, Constraint(a, Eq, vs), ctx) ==> AttrMatches(prim, Constraint(a, Exists, vs), ctx)
  {
    if AttrMatches(prim, Constraint(a, In, vs), ctx) {
      var v := ctx.attributes[a];
      assert v in vs && AttrMatches(prim, Constraint(a, Eq, [v]), ctx);
    }
    if AttrMatches(prim, Constraint(a, EndsWith, vs), ctx) {
      SuffixIsContained(ctx.attributes[a].s, vs[0].s);
    }
  }

  lemma {:induction false} SuffixIsContained(a: string, b: string)
    requires HasSuffix(a, b)
    ensures HasInfix(a, b)
  {
    if |a| == |b| {
      assert a == b;
    } else {
      SuffixIsContained(a[1..], b);
    }
  }
}
