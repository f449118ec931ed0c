/** The two rule loops: the one that explains what would happen, and the one that does it. */
module RuleRuns {
  import opened Basics
  import opened Matchers
  import opened Rules
  import opened RuleMatching

  datatype ActionRun = ActionRun(action: string, ran: bool)

  datatype MatchedRule = MatchedRule(name: string, dryRun: bool, actions: seq<ActionRun>)

  datatype Mode = Explain | Run

  /** What a loop carries from rule to rule. */
  datatype Progress = Progress(log: seq<MatchedRule>, executed: set<string>, memo: Memo)

  ghost predicate AllRefFree(rules: seq<RuleDef>) {
    forall i | 0 <= i < |rules| :: RuleRefFree(rules[i])
  }

  // ---- One rule ----

  function Marked(actions: seq<string>, ran: bool): seq<ActionRun> {
    if actions == [] then [] else [ActionRun(actions[0], ran)] + Marked(actions[1..], ran)
  }

  lemma {:induction false} MarkedIs(actions: seq<string>, ran: bool)
    ensures |Marked(actions, ran)| == |actions|
    ensures forall k | 0 <= k < |actions| :: Marked(actions, ran)[k] == ActionRun(actions[k], ran)
  {
    if actions != [] {
      MarkedIs(actions[1..], ran);
    }
  }

  lemma MarkedStep(run: seq<string>, k: nat, ran: bool)
    requires k < |run|
    ensures Marked(run[k..], ran) == [ActionRun(run[k], ran)] + Marked(run[k + 1..], ran)
  {
    assert run[k..][1..] == run[k + 1..];
  }

  predicate AnyRan(actions: seq<ActionRun>) {
    exists k :: 0 <= k < |actions| && actions[k].ran
  }

  lemma AnyRanOfBoth(a: seq<ActionRun>, b: seq<ActionRun>)
    ensures AnyRan(a + b) <==> AnyRan(a) || AnyRan(b)
  {
    if AnyRan(a) {
      var k :| 0 <= k < |a| && a[k].ran;
      assert (a + b)[k].ran;
    }
    if AnyRan(b) {
      var k :| 0 <= k < |b| && b[k].ran;
      assert (a + b)[|a| + k].ran;
    }
  }

  lemma AnyMarkedRan(actions: seq<string>, ran: bool)
    ensures AnyRan(Marked(actions, ran)) <==> ran && actions != []
  {
    MarkedIs(actions, ran);
    if actions != [] {
      assert Marked(actions, ran)[0].ran == ran;
    }
  }

  function Gate(g: ActionGroup, w: World, rule: string, memo: Memo): (bool, Memo)
    requires GroupRefFree(g)
  {
    if g.when.None? then (true, memo) else Memoised(g.when.value, w, rule, memo)
  }

  /** Under a lock the rule and the gate are asked again, with a memo of their own. */
  predicate StillHolds(g: ActionGroup, w: World, rule: RuleDef)
    requires GroupRefFree(g) && RuleRefFree(rule)
  {
    var (ruleOk, memo) := Memoised(rule.when, w, rule.name, map[]);
    var (groupOk, _) := Gate(g, w, rule.name, memo);
    ruleOk && groupOk
  }

  /** What the first `n` groups of the rule do, and the memo after them. */
  function GroupRuns(mode: Mode, rule: RuleDef, n: nat, w: World, memo: Memo): (seq<ActionRun>, Memo)
    requires RuleRefFree(rule) && n <= |rule.actions|
  {
    if n == 0 then ([], memo)
    else
      var (before, m) := GroupRuns(mode, rule, n - 1, w, memo);
      var g := rule.actions[n - 1];
      var (open, after) := Gate(g, w, rule.name, m);
      var ran := open && (mode == Run && g.serial.Some? ==> StillHolds(g, w, rule));
      (before + Marked(g.run, ran), after)
  }

  predicate DependenciesMet(rule: RuleDef, executed: set<string>) {
    forall d | d in rule.dependsOn :: d in executed
  }

  function Step(mode: Mode, rule: RuleDef, w: World, p: Progress): Progress
    requires RuleRefFree(rule)
  {
    if rule.disabled || !DependenciesMet(rule, p.executed) then p
    else
      var (matched, memo) := Memoised(rule.when, w, rule.name, p.memo);
      if !matched then p.(memo := memo)
      else
        var (actions, after) := GroupRuns(mode, rule, |rule.actions|, w, memo);
        Progress(
          p.log + [MatchedRule(rule.name, rule.dryRun, actions)],
          if AnyRan(actions) then p.executed + {rule.name} else p.executed,
          after)
  }

  /** Where a loop over the rules stands after the first `n`. */
  function Loop(mode: Mode, rules: seq<RuleDef>, n: nat, w: World): Progress
    requires AllRefFree(rules) && n <= |rules|
  {
    if n == 0 then Progress([], {}, map[]) else Step(mode, rules[n - 1], w, Loop(mode, rules, n - 1, w))
  }

  // ---- The same without a memo ----

  predicate GroupHolds(g: ActionGroup, w: World, rule: string) {
    g.when.Some? ==> Holds(g.when.value, w, rule)
  }

  function PlainRuns(rule: RuleDef, n: nat, w: World): seq<ActionRun>
    requires n <= |rule.actions|
  {
    if n == 0 then []
    else PlainRuns(rule, n - 1, w) + Marked(rule.actions[n - 1].run, GroupHolds(rule.actions[n - 1], w, rule.name))
  }

  /** The log and the executed names, told by what the conditions mean. */
  function PlainLoop(rules: seq<RuleDef>, n: nat, w: World): (seq<MatchedRule>, set<string>)
    requires n <= |rules|
  {
    if n == 0 then ([], {})
    else
      var (log, executed) := PlainLoop(rules, n - 1, w);
      var rule := rules[n - 1];
      if rule.disabled || !DependenciesMet(rule, executed) || !Holds(rule.when, w, rule.name) then (log, executed)
      else
        var actions := PlainRuns(rule, |rule.actions|, w);
        (log + [MatchedRule(rule.name, rule.dryRun, actions)],
         if AnyRan(actions) then executed + {rule.name} else executed)
  }

  ghost predicate BlindRule(rule: RuleDef, w: World) {
    && BlindCondition(rule.when, w)
    && forall i | 0 <= i < |rule.actions| && rule.actions[i].when.Some? :: BlindCondition(rule.actions[i].when.value, w)
  }

  ghost predicate AllBlind(rules: seq<RuleDef>, w: World) {
    forall i | 0 <= i < |rules| :: BlindRule(rules[i], w)
  }

  lemma GateIsHolds(g: ActionGroup, w: World, rule: string, memo: Memo)
    requires GroupRefFree(g) && Honest(memo, w) && (g.when.Some? ==> BlindCondition(g.when.value, w))
    ensures Gate(g, w, rule, memo).0 == GroupHolds(g, w, rule)
    ensures Honest(Gate(g, w, rule, memo).1, w)
  {
    if g.when.Some? {
      MemoisedIsHolds(g.when.value, w, rule, memo);
    }
  }

  lemma {:induction false} GroupRunsArePlain(mode: Mode, rule: RuleDef, n: nat, w: World, memo: Memo)
    requires RuleRefFree(rule) && n <= |rule.actions| && BlindRule(rule, w) && Honest(memo, w)
    requires Holds(rule.when, w, rule.name)
    ensures GroupRuns(mode, rule, n, w, memo).0 == PlainRuns(rule, n, w)
    ensures Honest(GroupRuns(mode, rule, n, w, memo).1, w)
  {
    if n > 0 {
      GroupRunsArePlain(mode, rule, n - 1, w, memo);
      var g := rule.actions[n - 1];
      GateIsHolds(g, w, rule.name, GroupRuns(mode, rule, n - 1, w, memo).1);
      MemoisedIsHolds(rule.when, w, rule.name, map[]);
      GateIsHolds(g, w, rule.name, Memoised(rule.when, w, rule.name, map[]).1);
    }
  }

  lemma {:induction false} LoopIsPlain(mode: Mode, rules: seq<RuleDef>, n: nat, w: World)
    requires AllRefFree(rules) && AllBlind(rules, w) && n <= |rules|
    ensures (Loop(mode, rules, n, w).log, Loop(mode, rules, n, w).executed) == PlainLoop(rules, n, w)
    ensures Honest(Loop(mode, rules, n, w).memo, w)
  {
    if n > 0 {
      LoopIsPlain(mode, rules, n - 1, w);
      var rule, p := rules[n - 1], Loop(mode, rules, n - 1, w);
      MemoisedIsHolds(rule.when, w, rule.name, p.memo);
      if Holds(rule.when, w, rule.name) {
        GroupRunsArePlain(mode, rule, |rule.actions|, w, Memoised(rule.when, w, rule.name, p.memo).1);
      }
    }
  }

  /**
   * When no memoised leaf looks at the rule's name, the explanation is exactly the log of the run:
   * same rules, same order, same `ran` on every action, dry runs and serial groups included;
   * and both are what the conditions say without any memo.
   */
  lemma ExplainPredictsRun(rules: seq<RuleDef>, w: World)
    requires AllRefFree(rules) && AllBlind(rules, w)
    ensures Loop(Explain, rules, |rules|, w).log == Loop(Run, rules, |rules|, w).log == PlainLoop(rules, |rules|, w).0
    ensures Loop(Explain, rules, |rules|, w).executed == Loop(Run, rules, |rules|, w).executed
  {
    LoopIsPlain(Explain, rules, |rules|, w);
    LoopIsPlain(Run, rules, |rules|, w);
  }

  // ---- Leaves that look at the rule's name ----

  ghost predicate NoSerialGroups(rules: seq<RuleDef>) {
    forall i, k | 0 <= i < |rules| && 0 <= k < |rules[i].actions| :: rules[i].actions[k].serial.None?
  }

  lemma {:induction false} SameGroupRuns(rule: RuleDef, n: nat, w: World, memo: Memo)
    requires RuleRefFree(rule) && n <= |rule.actions|
    requires forall k | 0 <= k < |rule.actions| :: rule.actions[k].serial.None?
    ensures GroupRuns(Explain, rule, n, w, memo) == GroupRuns(Run, rule, n, w, memo)
  {
    if n > 0 {
      SameGroupRuns(rule, n - 1, w, memo);
    }
  }

  /** Without serial groups the two loops agree on everything, whatever the leaves look at. */
  lemma {:induction false} ExplainPredictsRunWithoutSerial(rules: seq<RuleDef>, n: nat, w: World)
    requires AllRefFree(rules) && NoSerialGroups(rules) && n <= |rules|
    ensures Loop(Explain, rules, n, w) == Loop(Run, rules, n, w)
  {
    if n > 0 {
      ExplainPredictsRunWithoutSerial(rules, n - 1, w);
      var rule, p := rules[n - 1], Loop(Run, rules, n - 1, w);
      SameGroupRuns(rule, |rule.actions|, w, Memoised(rule.when, w, rule.name, p.memo).1);
    }
  }

  function PlainRule(name: string, when: Matcher, serial: Option<string>): RuleDef {
    RuleDef(name, false, false, 0, [], map[], when, [ActionGroup(None, serial, ["merge"])])
  }

  lemma PlainRuleStep(mode: Mode, name: string, leaf: Leaf, serial: Option<string>, w: World, p: Progress)
    ensures
      var rule := PlainRule(name, Leaf(leaf), serial);
      var (matched, memo) := Memoised(Leaf(leaf), w, name, p.memo);
      var ran := matched && (mode == Run && serial.Some? ==> Verdict(w, leaf, name));
      && RuleRefFree(rule)
      && Step(mode, rule, w, p).memo == memo
      && Step(mode, rule, w, p).executed == if ran then p.executed + {name} else p.executed
  {
    PlainRuleActions(mode, name, leaf, serial, w, Memoised(Leaf(leaf), w, name, p.memo).1);
    var ran := mode == Run && serial.Some? ==> Verdict(w, leaf, name);
    assert [ActionRun("merge", ran)][0].ran == ran;
  }

  lemma PlainRuleActions(mode: Mode, name: string, leaf: Leaf, serial: Option<string>, w: World, memo: Memo)
    ensures
      var rule := PlainRule(name, Leaf(leaf), serial);
      var ran := mode == Run && serial.Some? ==> Verdict(w, leaf, name);
      RuleRefFree(rule) && GroupRuns(mode, rule, 1, w, memo) == ([ActionRun("merge", ran)], memo)
  {
    var rule := PlainRule(name, Leaf(leaf), serial);
    var ran := mode == Run && serial.Some? ==> Verdict(w, leaf, name);
    assert GroupRuns(mode, rule, 0, w, memo) == ([], memo);
    assert StillHolds(rule.actions[0], w, rule) == Verdict(w, leaf, name);
    assert Marked(["merge"], ran) == [ActionRun("merge", ran)];
    assert [] + [ActionRun("merge", ran)] == [ActionRun("merge", ran)];
  }

  /**
   * With a serial group they can differ: the second rule matches through the memo of the first,
   * and is dropped when it asks again under the lock.
   */
  lemma SerialGroupBreaksThePrediction(w: World)
    requires forall leaf, rule :: w.flag(leaf, rule) <==> rule == "first"
    ensures
      var leaf := Leaf(FeatureFlag("rollout", false, map[]));
      var rules := [PlainRule("first", leaf, None), PlainRule("second", leaf, Some("lock"))];
      && AllRefFree(rules)
      && "second" in Loop(Explain, rules, 2, w).executed
      && "second" !in Loop(Run, rules, 2, w).executed
  {
    var leaf := FeatureFlag("rollout", false, map[]);
    var rules := [PlainRule("first", Leaf(leaf), None), PlainRule("second", Leaf(leaf), Some("lock"))];
    forall mode: Mode
      ensures Loop(mode, rules, 1, w).memo == map[leaf := true]
      ensures Loop(mode, rules, 1, w).executed == {"first"}
    {
      PlainRuleStep(mode, "first", leaf, None, w, Loop(mode, rules, 0, w));
      assert Loop(mode, rules, 1, w) == Step(mode, rules[0], w, Loop(mode, rules, 0, w));
    }
    PlainRuleStep(Explain, "second", leaf, Some("lock"), w, Loop(Explain, rules, 1, w));
    PlainRuleStep(Run, "second", leaf, Some("lock"), w, Loop(Run, rules, 1, w));
  }
}
