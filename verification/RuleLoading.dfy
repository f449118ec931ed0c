/** Loading a rule file: every condition is expanded before any rule is evaluated. */
module RuleLoading {
  import opened Basics
  import opened Matchers
  import opened Rules
  import opened CheckExpansion

  function EnvOf(rule: RuleDef, globals: map<string, Matcher>): Checks {
    Checks(rule.checks, globals)
  }

  ghost predicate GroupResolves(g: ActionGroup, env: Checks) {
    g.when.Some? ==> AllPathsClean(env, g.when.value, {})
  }

  /** Every reference in the rule's conditions can be followed to the end. */
  ghost predicate RuleResolves(rule: RuleDef, globals: map<string, Matcher>) {
    && AllPathsClean(EnvOf(rule, globals), rule.when, {})
    && forall i | 0 <= i < |rule.actions| :: GroupResolves(rule.actions[i], EnvOf(rule, globals))
  }

  /** `b` is `a` with its gate expanded. */
  predicate GroupExpanded(a: ActionGroup, b: ActionGroup, env: Checks) {
    && b == a.(when := b.when) && a.when.Some? == b.when.Some?
    && (a.when.Some? ==> Expand(a.when.value, env, {}) == Ok(b.when.value))
  }

  /** `b` is `a` with each of its conditions expanded, and nothing else changed. */
  predicate RuleExpanded(a: RuleDef, b: RuleDef, globals: map<string, Matcher>) {
    && b == a.(when := b.when, actions := b.actions) && |a.actions| == |b.actions|
    && Expand(a.when, EnvOf(a, globals), {}) == Ok(b.when)
    && forall i | 0 <= i < |a.actions| :: GroupExpanded(a.actions[i], b.actions[i], EnvOf(a, globals))
  }

  /** The rules before `i` resolve, `i` does not, and the error names it. */
  ghost predicate FirstFailure(
    rules: seq<RuleDef>, globals: map<string, Matcher>, i: nat, e: (string, ExpandError))
  {
    && i < |rules| && e.0 == rules[i].name
    && !RuleResolves(rules[i], globals)
    && forall j | 0 <= j < i :: RuleResolves(rules[j], globals)
  }

  method ResolveRule(rule: RuleDef, globals: map<string, Matcher>) returns (r: Result<RuleDef, ExpandError>)
    ensures r.Ok? <==> RuleResolves(rule, globals)
    ensures r.Ok? ==> RuleExpanded(rule, r.value, globals)
  {
    var env := EnvOf(rule, globals);
    var visiting := new Visiting();
    ExpandsIffPathsClean(rule.when, env, {});
    var when := ResolveInMatcher(rule.when, env, visiting);
    if when.Err? {
      return Err(when.error);
    }
    var groups: seq<ActionGroup> := [];
    for i := 0 to |rule.actions|
      invariant visiting.names == {} && |groups| == i
      invariant forall j | 0 <= j < i ::
          GroupExpanded(rule.actions[j], groups[j], env) && GroupResolves(rule.actions[j], env)
    {
      var g := rule.actions[i];
      if g.when.Some? {
        ExpandsIffPathsClean(g.when.value, env, {});
        var gate := ResolveInMatcher(g.when.value, env, visiting);
        if gate.Err? {
          return Err(gate.error);
        }
        g := g.(when := Some(gate.value));
      }
      groups := groups + [g];
    }
    return Ok(rule.(when := when.value, actions := groups));
  }

  /** The rules come back expanded, in order, or the first rule that cannot be resolved is named. */
  method ResolveChecks(rules: seq<RuleDef>, globals: map<string, Matcher>)
    returns (r: Result<seq<RuleDef>, (string, ExpandError)>)
    ensures r.Ok? <==> forall i | 0 <= i < |rules| :: RuleResolves(rules[i], globals)
    ensures r.Ok? ==> |r.value| == |rules| && forall i | 0 <= i < |rules| :: RuleExpanded(rules[i], r.value[i], globals)
    ensures r.Err? ==> exists i :: FirstFailure(rules, globals, i, r.error)
  {
    var done: seq<RuleDef> := [];
    for i := 0 to |rules|
      invariant |done| == i
      invariant forall j | 0 <= j < i :: RuleExpanded(rules[j], done[j], globals)
      invariant forall j | 0 <= j < i :: RuleResolves(rules[j], globals)
    {
      var rule := ResolveRule(rules[i], globals);
      if rule.Err? {
        assert FirstFailure(rules, globals, i, (rules[i].name, rule.error));
        return Err((rules[i].name, rule.error));
      }
      done := done + [rule.value];
    }
    return Ok(done);
  }

  /** In a loaded rule, `global.k` has become the file's check k, and any other name the rule's own check. */
  lemma LoadedNamesAre(a: RuleDef, b: RuleDef, globals: map<string, Matcher>, k: string)
    requires RuleExpanded(a, b, globals)
    ensures a.when == Ref("global." + k) ==> k in globals && (RefFree(globals[k]) ==> b.when == globals[k])
    ensures a.when == Ref(k) && !("global." <= k) ==>
              k in a.checks && (RefFree(a.checks[k]) ==> b.when == a.checks[k])
  {
    GlobalNamesReadTheFile(EnvOf(a, globals), k);
    if !("global." <= k) {
      OtherNamesReadTheRule(EnvOf(a, globals), k);
    }
  }

  lemma ExpandedConditionMeansTheSame(m: Matcher, env: Checks, w: World, rule: string)
    requires Expand(m, env, {}).Ok?
    ensures MeansTheSame(Expand(m, env, {}).value, m, w, rule, OwnReading(env, w, rule))
  {
    ExpansionHasAReading(m, env, w, rule);
    ExpandKeepsMeaning(m, env, {}, w, rule, OwnReading(env, w, rule));
  }

  /**
   * A loaded rule has no reference left, so matching it and collecting its resources cannot panic,
   * and each of its conditions says what it said with the checks in place.
   */
  lemma LoadedRuleMeansTheSame(a: RuleDef, b: RuleDef, globals: map<string, Matcher>, w: World)
    requires RuleExpanded(a, b, globals)
    ensures RuleRefFree(b)
    ensures MeansTheSame(b.when, a.when, w, a.name, OwnReading(EnvOf(a, globals), w, a.name))
    ensures forall i | 0 <= i < |a.actions| && a.actions[i].when.Some? ::
        MeansTheSame(b.actions[i].when.value, a.actions[i].when.value, w, a.name,
                     OwnReading(EnvOf(a, globals), w, a.name))
  {
    var env := EnvOf(a, globals);
    ExpandedConditionMeansTheSame(a.when, env, w, a.name);
    forall i | 0 <= i < |a.actions|
      ensures GroupRefFree(b.actions[i])
      ensures a.actions[i].when.Some? ==>
          MeansTheSame(b.actions[i].when.value, a.actions[i].when.value, w, a.name, OwnReading(env, w, a.name))
    {
      assert GroupExpanded(a.actions[i], b.actions[i], env);
      if a.actions[i].when.Some? {
        ExpandedConditionMeansTheSame(a.actions[i].when.value, env, w, a.name);
      }
    }
  }
}
