/** The rule loops as they run, with the actions they perform. */
module RuleLoops {
  import opened Matchers
  import opened Rules
  import opened RuleMatching
  import opened RuleRuns

  // ---- What a log says was done ----

  /** The actions that ran, each with its rule; a dry run performs none. */
  function Performed(name: string, actions: seq<ActionRun>): seq<(string, string)> {
    if actions == [] then []
    else
      var last := actions[|actions| - 1];
      Performed(name, actions[..|actions| - 1]) + if last.ran then [(name, last.action)] else []
  }

  function Effects(log: seq<MatchedRule>): seq<(string, string)> {
    if log == [] then []
    else
      var last := log[|log| - 1];
      Effects(log[..|log| - 1]) + if last.dryRun then [] else Performed(last.name, last.actions)
  }

  lemma PerformedStep(name: string, actions: seq<ActionRun>, a: ActionRun)
    ensures Performed(name, actions + [a]) == Performed(name, actions) + if a.ran then [(name, a.action)] else []
  {
    assert (actions + [a])[..|actions|] == actions;
  }

  lemma {:induction false} SkippedPerformsNothing(name: string, actions: seq<ActionRun>, run: seq<string>)
    ensures Performed(name, actions + Marked(run, false)) == Performed(name, actions)
    decreases |run|
  {
    if run != [] {
      var a := ActionRun(run[0], false);
      PerformedStep(name, actions, a);
      SkippedPerformsNothing(name, actions + [a], run[1..]);
      assert actions + Marked(run, false) == actions + [a] + Marked(run[1..], false);
    } else {
      assert actions + [] == actions;
    }
  }

  lemma EffectsStep(log: seq<MatchedRule>, m: MatchedRule)
    ensures Effects(log + [m]) == Effects(log) + if m.dryRun then [] else Performed(m.name, m.actions)
  {
    assert (log + [m])[..|log|] == log;
  }

  /** The outside world the actions change. */
  class Actuator {
    var performed: seq<(string, string)>

    constructor ()
      ensures performed == []
    {
      performed := [];
    }

    method Execute(rule: string, action: string)
      modifies this
      ensures performed == old(performed) + [(rule, action)]
    {
      performed := performed + [(rule, action)];
    }
  }

  // ---- One rule ----

  method PushRuns(log: seq<ActionRun>, run: seq<string>, ran: bool) returns (longer: seq<ActionRun>)
    ensures longer == log + Marked(run, ran)
  {
    longer := log;
    for k := 0 to |run|
      invariant longer + Marked(run[k..], ran) == log + Marked(run, ran)
    {
      MarkedStep(run, k, ran);
      longer := longer + [ActionRun(run[k], ran)];
    }
  }

  /** What was performed since `before` is what the rule's log says. */
  ghost predicate Done(
    before: seq<(string, string)>, after: seq<(string, string)>, rule: RuleDef, log: seq<ActionRun>)
  {
    after == before + if rule.dryRun then [] else Performed(rule.name, log)
  }

  lemma DoneStep(
    before: seq<(string, string)>, after: seq<(string, string)>, rule: RuleDef, log: seq<ActionRun>, action: string)
    requires Done(before, after, rule, log)
    ensures Done(before, if rule.dryRun then after else after + [(rule.name, action)], rule,
                 log + [ActionRun(action, true)])
  {
    PerformedStep(rule.name, log, ActionRun(action, true));
  }

  method DispatchActions(
    rule: RuleDef, run: seq<string>, actuator: Actuator, log: seq<ActionRun>, ghost before: seq<(string, string)>)
    returns (longer: seq<ActionRun>)
    requires Done(before, actuator.performed, rule, log)
    modifies actuator
    ensures longer == log + Marked(run, true)
    ensures Done(before, actuator.performed, rule, longer)
  {
    longer := log;
    for k := 0 to |run|
      invariant longer + Marked(run[k..], true) == log + Marked(run, true)
      invariant Done(before, actuator.performed, rule, longer)
    {
      MarkedStep(run, k, true);
      longer := Dispatch(rule, run[k], actuator, longer, before);
    }
  }

  method Dispatch(
    rule: RuleDef, action: string, actuator: Actuator, log: seq<ActionRun>, ghost before: seq<(string, string)>)
    returns (longer: seq<ActionRun>)
    requires Done(before, actuator.performed, rule, log)
    modifies actuator
    ensures longer == log + [ActionRun(action, true)]
    ensures Done(before, actuator.performed, rule, longer)
  {
    DoneStep(before, actuator.performed, rule, log, action);
    if !rule.dryRun {
      actuator.Execute(rule.name, action);
    }
    longer := log + [ActionRun(action, true)];
  }

  method MatchGate(g: ActionGroup, w: World, rule: string, cache: ResourceCache) returns (open: bool)
    requires GroupRefFree(g)
    modifies cache
    ensures (open, cache.results) == Gate(g, w, rule, old(cache.results))
  {
    open := true;
    if g.when.Some? {
      open := Matches(g.when.value, w, rule, cache);
    }
  }

  /** The check made under the lock of a serial group, with a memo of its own. */
  method Revalidate(rule: RuleDef, g: ActionGroup, w: World) returns (ok: bool)
    requires RuleRefFree(rule) && GroupRefFree(g)
    ensures ok == StillHolds(g, w, rule)
  {
    var recheck := new ResourceCache();
    var ruleOk := Matches(rule.when, w, rule.name, recheck);
    var groupOk := MatchGate(g, w, rule.name, recheck);
    ok := ruleOk && groupOk;
  }

  method RunActionGroup(
    rule: RuleDef, g: ActionGroup, w: World, cache: ResourceCache, actuator: Actuator, log: seq<ActionRun>,
    ghost before: seq<(string, string)>)
    returns (longer: seq<ActionRun>)
    requires RuleRefFree(rule) && GroupRefFree(g) && Done(before, actuator.performed, rule, log)
    modifies cache, actuator
    ensures cache.results == Gate(g, w, rule.name, old(cache.results)).1
    ensures longer == log + Marked(g.run,
      Gate(g, w, rule.name, old(cache.results)).0 && (g.serial.Some? ==> StillHolds(g, w, rule)))
    ensures Done(before, actuator.performed, rule, longer)
  {
    var open := MatchGate(g, w, rule.name, cache);
    if open && g.serial.Some? {
      open := Revalidate(rule, g, w);
    }
    if !open {
      longer := PushRuns(log, g.run, false);
      SkippedPerformsNothing(rule.name, log, g.run);
      return;
    }
    longer := DispatchActions(rule, g.run, actuator, log, before);
  }

  method ExecuteActions(rule: RuleDef, w: World, cache: ResourceCache, actuator: Actuator)
    returns (log: seq<ActionRun>)
    requires RuleRefFree(rule)
    modifies cache, actuator
    ensures (log, cache.results) == GroupRuns(Run, rule, |rule.actions|, w, old(cache.results))
    ensures Done(old(actuator.performed), actuator.performed, rule, log)
  {
    log := [];
    for k := 0 to |rule.actions|
      invariant (log, cache.results) == GroupRuns(Run, rule, k, w, old(cache.results))
      invariant Done(old(actuator.performed), actuator.performed, rule, log)
    {
      log := RunActionGroup(rule, rule.actions[k], w, cache, actuator, log, old(actuator.performed));
    }
  }

  method ExplainActions(rule: RuleDef, w: World, cache: ResourceCache) returns (log: seq<ActionRun>)
    requires RuleRefFree(rule)
    modifies cache
    ensures (log, cache.results) == GroupRuns(Explain, rule, |rule.actions|, w, old(cache.results))
  {
    log := [];
    for k := 0 to |rule.actions|
      invariant (log, cache.results) == GroupRuns(Explain, rule, k, w, old(cache.results))
    {
      var g := rule.actions[k];
      var open := MatchGate(g, w, rule.name, cache);
      log := PushRuns(log, g.run, open);
    }
  }

  method HadRan(actions: seq<ActionRun>) returns (any: bool)
    ensures any == AnyRan(actions)
  {
    for k := 0 to |actions|
      invariant forall j | 0 <= j < k :: !actions[j].ran
    {
      if actions[k].ran {
        return true;
      }
    }
    any := false;
  }

  // ---- The loops ----

  method ExplainRule(rule: RuleDef, w: World, cache: ResourceCache, log: seq<MatchedRule>, executed: set<string>)
    returns (longer: seq<MatchedRule>, more: set<string>)
    requires RuleRefFree(rule)
    modifies cache
    ensures Progress(longer, more, cache.results)
      == Step(Explain, rule, w, Progress(log, executed, old(cache.results)))
  {
    longer, more := log, executed;
    if rule.disabled || !DependenciesMet(rule, executed) {
      return;
    }
    var matched := Matches(rule.when, w, rule.name, cache);
    if !matched {
      return;
    }
    var actions := ExplainActions(rule, w, cache);
    var any := HadRan(actions);
    if any {
      more := executed + {rule.name};
    }
    longer := log + [MatchedRule(rule.name, rule.dryRun, actions)];
  }

  method RunRule(
    rule: RuleDef, w: World, cache: ResourceCache, actuator: Actuator, log: seq<MatchedRule>, executed: set<string>)
    returns (longer: seq<MatchedRule>, more: set<string>, ghost done: seq<(string, string)>)
    requires RuleRefFree(rule)
    modifies cache, actuator
    ensures Progress(longer, more, cache.results) == Step(Run, rule, w, Progress(log, executed, old(cache.results)))
    ensures actuator.performed == old(actuator.performed) + done && Effects(longer) == Effects(log) + done
  {
    longer, more, done := log, executed, [];
    if rule.disabled || !DependenciesMet(rule, executed) {
      return;
    }
    var matched := Matches(rule.when, w, rule.name, cache);
    if !matched {
      return;
    }
    var actions := ExecuteActions(rule, w, cache, actuator);
    EffectsStep(log, MatchedRule(rule.name, rule.dryRun, actions));
    longer := log + [MatchedRule(rule.name, rule.dryRun, actions)];
    done := if rule.dryRun then [] else Performed(rule.name, actions);
    var any := HadRan(actions);
    if any {
      more := executed + {rule.name};
    }
  }

  method ExplainRules(rules: seq<RuleDef>, w: World) returns (log: seq<MatchedRule>)
    requires AllRefFree(rules)
    ensures log == Loop(Explain, rules, |rules|, w).log
  {
    log := [];
    var cache := new ResourceCache();
    var executed: set<string> := {};
    for i := 0 to |rules|
      invariant Loop(Explain, rules, i, w) == Progress(log, executed, cache.results)
    {
      log, executed := ExplainRule(rules[i], w, cache, log, executed);
    }
  }

  /** The log is the specified one, and the actions performed are exactly those it says ran, in its order. */
  method RunRules(rules: seq<RuleDef>, w: World, actuator: Actuator) returns (log: seq<MatchedRule>)
    requires AllRefFree(rules)
    modifies actuator
    ensures log == Loop(Run, rules, |rules|, w).log
    ensures actuator.performed == old(actuator.performed) + Effects(log)
  {
    log := [];
    var cache := new ResourceCache();
    var executed: set<string> := {};
    for i := 0 to |rules|
      invariant Loop(Run, rules, i, w) == Progress(log, executed, cache.results)
      invariant actuator.performed == old(actuator.performed) + Effects(log)
    {
      ghost var done;
      log, executed, done := RunRule(rules[i], w, cache, actuator, log, executed);
    }
  }
}
