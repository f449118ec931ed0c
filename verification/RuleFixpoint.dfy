/** Which rules a run executes, whatever order it takes them in. */
module RuleFixpoint {
  import opened Basics
  import opened Matchers
  import opened Rules
  import opened RuleMatching
  import opened RuleRuns
  import opened RuleOrder

  ghost predicate UniqueNames(rules: seq<RuleDef>) {
    forall i, j | 0 <= i < j < |rules| :: rules[i].name != rules[j].name
  }

  /** Enabled, matching, and with an action that runs. */
  ghost predicate Fires(rule: RuleDef, w: World) {
    && !rule.disabled && Holds(rule.when, w, rule.name)
    && exists k :: 0 <= k < |rule.actions| && GroupHolds(rule.actions[k], w, rule.name) && rule.actions[k].run != []
  }

  /** Closed under: a rule that fires and whose dependencies are all in is in. */
  ghost predicate Closed(rules: seq<RuleDef>, w: World, s: set<string>) {
    forall i | 0 <= i < |rules| && Fires(rules[i], w) && DependenciesMet(rules[i], s) :: rules[i].name in s
  }

  // ---- The sorted rules, by name ----

  lemma {:induction false} InsertKeepsUnique(r: RuleDef, rules: seq<RuleDef>)
    requires UniqueNames(rules) && forall i | 0 <= i < |rules| :: rules[i].name != r.name
    ensures UniqueNames(InsertByPriority(r, rules))
  {
    if rules != [] && rules[0].priority > r.priority {
      var rest := InsertByPriority(r, rules[1..]);
      InsertKeepsUnique(r, rules[1..]);
      InsertKeepsRules(r, rules[1..]);
      forall j | 0 <= j < |rest|
        ensures rest[j].name != rules[0].name
      {
        assert rest[j] in multiset(rest);
        assert rest[j] == r || rest[j] in rules[1..];
      }
    }
  }

  lemma {:induction false} SortKeepsUnique(rules: seq<RuleDef>)
    requires UniqueNames(rules)
    ensures UniqueNames(ByPriority(rules))
  {
    if rules != [] {
      var rest := ByPriority(rules[1..]);
      SortKeepsUnique(rules[1..]);
      ByPriorityIsStable(rules[1..], 0);
      forall j | 0 <= j < |rest|
        ensures rest[j].name != rules[0].name
      {
        assert rest[j] in multiset(rest);
        assert rest[j] in rules[1..];
      }
      InsertKeepsUnique(rules[0], rest);
    }
  }

  lemma {:induction false} KnownDepsAre(rules: seq<RuleDef>, deps: seq<string>, j: nat)
    ensures j in KnownDeps(rules, deps) <==> exists d :: d in deps && IndexOf(rules, d) == Some(j)
  {
    if deps != [] {
      var front, last := deps[..|deps| - 1], deps[|deps| - 1];
      assert deps == front + [last];
      KnownDepsAre(rules, front, j);
    }
  }

  // ---- What the sort gives the loop ----

  /** Every sorted rule is one of the file's. */
  ghost predicate TakenFrom(rules: seq<RuleDef>, out: seq<RuleDef>) {
    forall q | 0 <= q < |out| :: out[q] in rules
  }

  ghost predicate DependenciesFirst(out: seq<RuleDef>) {
    forall k, q | 0 <= k < |out| && 0 <= q < |out| && out[k].name in out[q].dependsOn :: k < q
  }

  predicate Names(out: seq<RuleDef>, name: string) {
    exists k :: 0 <= k < |out| && out[k].name == name
  }

  predicate DependenciesNamed(out: seq<RuleDef>, r: RuleDef) {
    forall d | d in r.dependsOn :: Names(out, d)
  }

  /** No rule is missing whose dependencies are all there. */
  ghost predicate NoneMissing(rules: seq<RuleDef>, out: seq<RuleDef>) {
    forall i | 0 <= i < |rules| && DependenciesNamed(out, rules[i]) :: rules[i] in out
  }

  lemma SortTakesFrom(rules: seq<RuleDef>, out: seq<RuleDef>, order: seq<nat>)
    requires IsTopoSort(rules, out, order)
    ensures TakenFrom(rules, out)
  {
    ByPriorityIsStable(rules, 0);
    forall q | 0 <= q < |out|
      ensures out[q] in rules
    {
      assert out[q] in multiset(ByPriority(rules));
    }
  }

  lemma SortPutsDependenciesFirst(rules: seq<RuleDef>, out: seq<RuleDef>, order: seq<nat>)
    requires UniqueNames(rules) && IsTopoSort(rules, out, order)
    ensures DependenciesFirst(out)
  {
    SortKeepsUnique(rules);
    forall k, q | 0 <= k < |out| && 0 <= q < |out| && out[k].name in out[q].dependsOn
      ensures k < q
    {
      DependencySortedBefore(ByPriority(rules), out, order, k, q);
    }
  }

  lemma DependencySortedBefore(sorted: seq<RuleDef>, out: seq<RuleDef>, order: seq<nat>, k: nat, q: nat)
    requires UniqueNames(sorted) && TopoOrder(DepGraph(sorted), order)
    requires forall i | 0 <= i < |order| :: order[i] < |sorted|
    requires out == Picked(sorted, order) && k < |out| && q < |out| && out[k].name in out[q].dependsOn
    ensures k < q
  {
    var g := DepGraph(sorted);
    var j := IndexOf(sorted, out[k].name).value;
    assert order[k] == j;
    KnownDepsAre(sorted, out[q].dependsOn, j);
    var turn :| Schedule(g, order, turn);
    var p := DependenciesComeFirst(g, order, turn, q, j);
    assert p == k;
  }

  lemma SortMissesNone(rules: seq<RuleDef>, out: seq<RuleDef>, order: seq<nat>)
    requires UniqueNames(rules) && IsTopoSort(rules, out, order)
    ensures NoneMissing(rules, out)
  {
    SortKeepsUnique(rules);
    forall i | 0 <= i < |rules| && DependenciesNamed(out, rules[i])
      ensures rules[i] in out
    {
      var place := PlaceOf(rules, rules[i]);
      NamedDependenciesSort(ByPriority(rules), out, order, place);
    }
  }

  lemma NamedDependenciesSort(sorted: seq<RuleDef>, out: seq<RuleDef>, order: seq<nat>, i: nat)
    requires UniqueNames(sorted) && TopoOrder(DepGraph(sorted), order)
    requires forall i | 0 <= i < |order| :: order[i] < |sorted|
    requires out == Picked(sorted, order) && i < |sorted| && DependenciesNamed(out, sorted[i])
    ensures sorted[i] in out
  {
    var g := DepGraph(sorted);
    forall j | j in g[i]
      ensures j in order
    {
      NamedDependencyOrdered(sorted, out, order, sorted[i].dependsOn, j);
    }
    var turn :| Schedule(g, order, turn);
    assert i in order;
    var q :| 0 <= q < |order| && order[q] == i;
    assert out[q] == sorted[i];
  }

  lemma NamedDependencyOrdered(
    sorted: seq<RuleDef>, out: seq<RuleDef>, order: seq<nat>, deps: seq<string>, j: nat)
    requires UniqueNames(sorted) && forall i | 0 <= i < |order| :: order[i] < |sorted|
    requires out == Picked(sorted, order) && j in KnownDeps(sorted, deps)
    requires forall d | d in deps :: Names(out, d)
    ensures j in order
  {
    KnownDepsAre(sorted, deps, j);
    var d :| d in deps && IndexOf(sorted, d) == Some(j);
    assert Names(out, d);
    var p :| 0 <= p < |out| && out[p].name == d;
    assert sorted[order[p]].name == sorted[j].name;
  }

  lemma PlaceOf(rules: seq<RuleDef>, r: RuleDef) returns (i: nat)
    requires r in rules
    ensures i < |ByPriority(rules)| && ByPriority(rules)[i] == r
  {
    ByPriorityIsStable(rules, 0);
    assert r in multiset(ByPriority(rules));
    i :| 0 <= i < |ByPriority(rules)| && ByPriority(rules)[i] == r;
  }

  // ---- What the loop executes ----

  /** The names executed among the first `n` sorted rules. */
  ghost function ExecutedBy(out: seq<RuleDef>, n: nat, w: World): set<string>
    requires n <= |out|
  {
    if n == 0 then {}
    else
      var before := ExecutedBy(out, n - 1, w);
      before + if Fires(out[n - 1], w) && DependenciesMet(out[n - 1], before) then {out[n - 1].name} else {}
  }

  lemma {:induction false} AnyRanIs(rule: RuleDef, n: nat, w: World)
    requires n <= |rule.actions|
    ensures AnyRan(PlainRuns(rule, n, w)) <==>
      exists k :: 0 <= k < n && GroupHolds(rule.actions[k], w, rule.name) && rule.actions[k].run != []
  {
    if n > 0 {
      AnyRanIs(rule, n - 1, w);
      var g := rule.actions[n - 1];
      AnyRanOfBoth(PlainRuns(rule, n - 1, w), Marked(g.run, GroupHolds(g, w, rule.name)));
      AnyMarkedRan(g.run, GroupHolds(g, w, rule.name));
    }
  }

  lemma {:induction false} LoopExecutes(out: seq<RuleDef>, n: nat, w: World)
    requires n <= |out|
    ensures PlainLoop(out, n, w).1 == ExecutedBy(out, n, w)
  {
    if n > 0 {
      LoopExecutes(out, n - 1, w);
      AnyRanIs(out[n - 1], |out[n - 1].actions|, w);
    }
  }

  lemma {:induction false} ExecutedAt(out: seq<RuleDef>, n: nat, w: World, name: string) returns (q: nat)
    requires n <= |out| && name in ExecutedBy(out, n, w)
    ensures q < n && out[q].name == name && name in ExecutedBy(out, q + 1, w)
  {
    if name in ExecutedBy(out, n - 1, w) {
      q := ExecutedAt(out, n - 1, w, name);
    } else {
      q := n - 1;
    }
  }

  lemma {:induction false} ExecutedGrows(out: seq<RuleDef>, m: nat, n: nat, w: World)
    requires m <= n <= |out|
    ensures ExecutedBy(out, m, w) <= ExecutedBy(out, n, w)
  {
    if m < n {
      ExecutedGrows(out, m, n - 1, w);
    }
  }

  lemma {:induction false} ExecutedWithinClosed(
    rules: seq<RuleDef>, out: seq<RuleDef>, n: nat, w: World, s: set<string>)
    requires TakenFrom(rules, out) && n <= |out| && Closed(rules, w, s)
    ensures ExecutedBy(out, n, w) <= s
  {
    if n > 0 {
      ExecutedWithinClosed(rules, out, n - 1, w, s);
      if Fires(out[n - 1], w) && DependenciesMet(out[n - 1], ExecutedBy(out, n - 1, w)) {
        assert DependenciesMet(out[n - 1], s);
        var i :| 0 <= i < |rules| && rules[i] == out[n - 1];
        assert rules[i].name in s;
      }
    }
  }

  lemma DependencyMetInTime(out: seq<RuleDef>, q: nat, w: World, d: string)
    requires DependenciesFirst(out) && q < |out| && d in out[q].dependsOn && d in ExecutedBy(out, |out|, w)
    ensures d in ExecutedBy(out, q, w)
  {
    var k := ExecutedAt(out, |out|, w, d);
    assert k < q;
    ExecutedGrows(out, k + 1, q, w);
  }

  /** When its turn comes, a sorted rule finds executed whatever of its dependencies is ever executed. */
  lemma DependenciesMetInTime(out: seq<RuleDef>, q: nat, w: World)
    requires DependenciesFirst(out) && q < |out| && DependenciesMet(out[q], ExecutedBy(out, |out|, w))
    ensures DependenciesMet(out[q], ExecutedBy(out, q, w))
  {
    forall d | d in out[q].dependsOn
      ensures d in ExecutedBy(out, q, w)
    {
      DependencyMetInTime(out, q, w, d);
    }
  }

  /** A rule whose dependencies are all executed was not dropped by the sort. */
  lemma ReadyRuleIsSorted(rules: seq<RuleDef>, out: seq<RuleDef>, w: World, i: nat) returns (q: nat)
    requires NoneMissing(rules, out) && i < |rules| && DependenciesMet(rules[i], ExecutedBy(out, |out|, w))
    ensures q < |out| && out[q] == rules[i]
  {
    forall d | d in rules[i].dependsOn
      ensures Names(out, d)
    {
      var k := ExecutedAt(out, |out|, w, d);
    }
    assert DependenciesNamed(out, rules[i]);
    q :| 0 <= q < |out| && out[q] == rules[i];
  }

  lemma ExecutedIsClosed(rules: seq<RuleDef>, out: seq<RuleDef>, w: World)
    requires NoneMissing(rules, out) && DependenciesFirst(out)
    ensures Closed(rules, w, ExecutedBy(out, |out|, w))
  {
    forall i | 0 <= i < |rules| && Fires(rules[i], w) && DependenciesMet(rules[i], ExecutedBy(out, |out|, w))
      ensures rules[i].name in ExecutedBy(out, |out|, w)
    {
      var q := ReadyRuleIsSorted(rules, out, w, i);
      DependenciesMetInTime(out, q, w);
      assert out[q].name in ExecutedBy(out, q + 1, w);
      ExecutedGrows(out, q + 1, |out|, w);
    }
  }

  /** `s` is the least set closed under "fires, with every dependency executed". */
  ghost predicate LeastClosed(rules: seq<RuleDef>, w: World, s: set<string>) {
    Closed(rules, w, s) && forall other | Closed(rules, w, other) :: s <= other
  }

  lemma RunExecutes(out: seq<RuleDef>, w: World)
    requires AllRefFree(out) && AllBlind(out, w)
    ensures Loop(Run, out, |out|, w).executed == ExecutedBy(out, |out|, w)
  {
    LoopIsPlain(Run, out, |out|, w);
    LoopExecutes(out, |out|, w);
  }

  /**
   * The executed rules are the least set closed under "fires, with every dependency executed", over the
   * rules as written: neither the priorities nor the rules the sort drops make a difference.
   */
  lemma ExecutedIsLeastFixpoint(rules: seq<RuleDef>, out: seq<RuleDef>, order: seq<nat>, w: World)
    requires UniqueNames(rules) && IsTopoSort(rules, out, order)
    requires AllRefFree(out) && AllBlind(out, w)
    ensures LeastClosed(rules, w, Loop(Run, out, |out|, w).executed)
  {
    RunExecutes(out, w);
    SortTakesFrom(rules, out, order);
    SortMissesNone(rules, out, order);
    SortPutsDependenciesFirst(rules, out, order);
    ExecutedIsClosed(rules, out, w);
    forall other | Closed(rules, w, other)
      ensures ExecutedBy(out, |out|, w) <= other
    {
      ExecutedWithinClosed(rules, out, |out|, w, other);
    }
  }

  /** `b` has every rule of `a`, perhaps elsewhere and with another priority. */
  ghost predicate RewrittenIn(a: seq<RuleDef>, b: seq<RuleDef>) {
    forall r | r in a :: exists p :: r.(priority := p) in b
  }

  /** So two ways of writing the same rules, in any order and with any priorities, execute the same names. */
  lemma PrioritiesDoNotMatter(
    rules1: seq<RuleDef>, out1: seq<RuleDef>, order1: seq<nat>,
    rules2: seq<RuleDef>, out2: seq<RuleDef>, order2: seq<nat>, w: World)
    requires UniqueNames(rules1) && IsTopoSort(rules1, out1, order1) && AllRefFree(out1) && AllBlind(out1, w)
    requires UniqueNames(rules2) && IsTopoSort(rules2, out2, order2) && AllRefFree(out2) && AllBlind(out2, w)
    requires RewrittenIn(rules1, rules2) && RewrittenIn(rules2, rules1)
    ensures Loop(Run, out1, |out1|, w).executed == Loop(Run, out2, |out2|, w).executed
  {
    ExecutedIsLeastFixpoint(rules1, out1, order1, w);
    ExecutedIsLeastFixpoint(rules2, out2, order2, w);
    LeastOfRewritten(rules1, rules2, w, Loop(Run, out1, |out1|, w).executed, Loop(Run, out2, |out2|, w).executed);
  }

  lemma LeastOfRewritten(a: seq<RuleDef>, b: seq<RuleDef>, w: World, s: set<string>, t: set<string>)
    requires RewrittenIn(a, b) && RewrittenIn(b, a) && LeastClosed(a, w, s) && LeastClosed(b, w, t)
    ensures s == t
  {
    ClosedForRewritten(a, b, w, t);
    ClosedForRewritten(b, a, w, s);
  }

  lemma ClosedForRewritten(a: seq<RuleDef>, b: seq<RuleDef>, w: World, s: set<string>)
    requires Closed(b, w, s) && RewrittenIn(a, b)
    ensures Closed(a, w, s)
  {
    forall i | 0 <= i < |a| && Fires(a[i], w) && DependenciesMet(a[i], s)
      ensures a[i].name in s
    {
      assert a[i] in a;
      var p :| a[i].(priority := p) in b;
      var j :| 0 <= j < |b| && b[j] == a[i].(priority := p);
      var k :| 0 <= k < |a[i].actions| && GroupHolds(a[i].actions[k], w, a[i].name) && a[i].actions[k].run != [];
      assert GroupHolds(b[j].actions[k], w, b[j].name);
      assert Fires(b[j], w) && DependenciesMet(b[j], s);
    }
  }

  /** A rule the sort drops, being on or behind a dependency cycle, would never have been executed. */
  lemma DroppedRulesNeverExecute(rules: seq<RuleDef>, out: seq<RuleDef>, order: seq<nat>, w: World, r: RuleDef)
    requires UniqueNames(rules) && IsTopoSort(rules, out, order) && AllRefFree(out) && AllBlind(out, w)
    requires r in rules && r !in out
    ensures r.name !in Loop(Run, out, |out|, w).executed
  {
    RunExecutes(out, w);
    SortTakesFrom(rules, out, order);
    if r.name in ExecutedBy(out, |out|, w) {
      var q := ExecutedAt(out, |out|, w, r.name);
    }
  }
}
