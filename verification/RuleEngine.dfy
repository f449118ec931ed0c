/** Preparing a rule file: expand the checks, then sort. */
module RuleEngine {
  import opened Basics
  import opened Matchers
  import opened Rules
  import opened CheckExpansion
  import opened RuleLoading
  import opened RuleRuns
  import opened RuleOrder
  import opened RuleFixpoint

  /** `resolved` is the file's rules, in order, with every condition expanded. */
  ghost predicate AllExpanded(rules: seq<RuleDef>, resolved: seq<RuleDef>, globals: map<string, Matcher>) {
    |resolved| == |rules| && forall i | 0 <= i < |rules| :: RuleExpanded(rules[i], resolved[i], globals)
  }

  /** `out` is what the file's rules become: expanded, sorted, and free of references. */
  ghost predicate Prepared(rules: seq<RuleDef>, globals: map<string, Matcher>, out: seq<RuleDef>) {
    && AllRefFree(out)
    && exists resolved, order :: AllExpanded(rules, resolved, globals) && IsTopoSort(resolved, out, order)
  }

  lemma SortedStayRefFree(
    rules: seq<RuleDef>, resolved: seq<RuleDef>, globals: map<string, Matcher>, out: seq<RuleDef>, order: seq<nat>,
        w: World)
    requires AllExpanded(rules, resolved, globals) && IsTopoSort(resolved, out, order)
    ensures AllRefFree(out)
  {
    SortTakesFrom(resolved, out, order);
    forall q | 0 <= q < |out|
      ensures RuleRefFree(out[q])
    {
      var i :| 0 <= i < |resolved| && resolved[i] == out[q];
      LoadedRuleMeansTheSame(rules[i], resolved[i], globals, w);
    }
  }

  /**
   * Whatever rules come out can be matched, explained and run without meeting a reference;
   * a file with a reference that cannot be followed never gets that far.
   */
  method FromRules(rules: seq<RuleDef>, globals: map<string, Matcher>)
    returns (r: Result<seq<RuleDef>, (string, ExpandError)>)
    ensures r.Ok? <==> forall i | 0 <= i < |rules| :: RuleResolves(rules[i], globals)
    ensures r.Ok? ==> Prepared(rules, globals, r.value)
  {
    var resolved := ResolveChecks(rules, globals);
    if resolved.Err? {
      return Err(resolved.error);
    }
    var out := TopoSort(resolved.value);
    ghost var order :| IsTopoSort(resolved.value, out, order);
    ghost var nowhere := World(None, (_: Leaf) => false, (_: Leaf, _: string) => false, (_: char) => false);
    SortedStayRefFree(rules, resolved.value, globals, out, order, nowhere);
    assert Prepared(rules, globals, out);
    return Ok(out);
  }

  lemma {:induction false} SameNames(rules: seq<RuleDef>, resolved: seq<RuleDef>, globals: map<string, Matcher>)
    requires AllExpanded(rules, resolved, globals) && UniqueNames(rules)
    ensures UniqueNames(resolved)
  {
    forall i, j | 0 <= i < j < |resolved|
      ensures resolved[i].name != resolved[j].name
    {
      assert RuleExpanded(rules[i], resolved[i], globals) && RuleExpanded(rules[j], resolved[j], globals);
    }
  }

  /** From the file to the run: the executed rules are the least closed set over the file's rules, expanded. */
  lemma PreparedRunIsLeastFixpoint(rules: seq<RuleDef>, globals: map<string, Matcher>, out: seq<RuleDef>, w: World)
    requires UniqueNames(rules) && Prepared(rules, globals, out) && AllBlind(out, w)
    ensures exists resolved ::
      AllExpanded(rules, resolved, globals) && LeastClosed(resolved, w, Loop(Run, out, |out|, w).executed)
  {
    var resolved, order :| AllExpanded(rules, resolved, globals) && IsTopoSort(resolved, out, order);
    SameNames(rules, resolved, globals);
    ExecutedIsLeastFixpoint(resolved, out, order, w);
  }
}
