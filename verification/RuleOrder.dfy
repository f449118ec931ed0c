/** The order rules are evaluated in: dependencies first, then priority. */
module RuleOrder {
  import opened Basics
  import opened Rules

  // ---- Stable sort by descending priority ----

  function InsertByPriority(r: RuleDef, rules: seq<RuleDef>): seq<RuleDef> {
    if rules == [] || rules[0].priority <= r.priority then [r] + rules
    else [rules[0]] + InsertByPriority(r, rules[1..])
  }

  function ByPriority(rules: seq<RuleDef>): seq<RuleDef> {
    if rules == [] then [] else InsertByPriority(rules[0], ByPriority(rules[1..]))
  }

  function OfPriority(rules: seq<RuleDef>, p: int): seq<RuleDef> {
    if rules == [] then []
    else (if rules[0].priority == p then [rules[0]] else []) + OfPriority(rules[1..], p)
  }

  ghost predicate Descending(rules: seq<RuleDef>) {
    forall i, j | 0 <= i < j < |rules| :: rules[i].priority >= rules[j].priority
  }

  lemma {:induction false} InsertKeepsRules(r: RuleDef, rules: seq<RuleDef>)
    ensures multiset(InsertByPriority(r, rules)) == multiset{r} + multiset(rules)
  {
    if rules != [] {
      InsertKeepsRules(r, rules[1..]);
      assert rules == [rules[0]] + rules[1..];
    }
  }

  lemma {:induction false} InsertKeepsDescending(r: RuleDef, rules: seq<RuleDef>)
    requires Descending(rules)
    ensures Descending(InsertByPriority(r, rules))
  {
    if rules != [] && rules[0].priority > r.priority {
      var rest := InsertByPriority(r, rules[1..]);
      InsertKeepsDescending(r, rules[1..]);
      InsertKeepsRules(r, rules[1..]);
      forall j | 0 <= j < |rest|
        ensures rest[j].priority <= rules[0].priority
      {
        assert rest[j] in multiset(rest);
      }
    }
  }

  lemma {:induction false} InsertIsStable(r: RuleDef, rules: seq<RuleDef>, p: int)
    requires Descending(rules)
    ensures OfPriority(InsertByPriority(r, rules), p) == (if r.priority == p then [r] else []) + OfPriority(rules, p)
  {
    if rules == [] || rules[0].priority <= r.priority {
      OfPriorityStep(r, rules, p);
    } else {
      var head, tail := rules[0], rules[1..];
      assert rules == [head] + tail;
      OfPriorityStep(head, InsertByPriority(r, tail), p);
      OfPriorityStep(head, tail, p);
      InsertIsStable(r, tail, p);
    }
  }

  lemma OfPriorityStep(r: RuleDef, rules: seq<RuleDef>, p: int)
    ensures OfPriority([r] + rules, p) == if r.priority == p then [r] + OfPriority(rules, p) else OfPriority(rules, p)
  {
    assert ([r] + rules)[1..] == rules;
  }

  /** The sort keeps every rule, puts higher priorities first, and leaves equal priorities in file order. */
  lemma {:induction false} ByPriorityIsStable(rules: seq<RuleDef>, p: int)
    ensures multiset(ByPriority(rules)) == multiset(rules)
    ensures Descending(ByPriority(rules))
    ensures OfPriority(ByPriority(rules), p) == OfPriority(rules, p)
  {
    if rules != [] {
      var rest := ByPriority(rules[1..]);
      ByPriorityIsStable(rules[1..], p);
      InsertKeepsRules(rules[0], rest);
      InsertKeepsDescending(rules[0], rest);
      InsertIsStable(rules[0], rest, p);
      assert rules == [rules[0]] + rules[1..];
    }
  }

  // ---- The dependency graph ----

  /** Where a name leads: to its last holder. */
  function IndexOf(rules: seq<RuleDef>, name: string): (r: Option<nat>)
    ensures r.Some? ==> r.value < |rules| && rules[r.value].name == name
    ensures r.None? ==> forall i | 0 <= i < |rules| :: rules[i].name != name
  {
    if rules == [] then None
    else if rules[|rules| - 1].name == name then Some(|rules| - 1)
    else IndexOf(rules[..|rules| - 1], name)
  }

  /** The dependencies that name a rule, with repetitions. */
  function KnownDeps(rules: seq<RuleDef>, deps: seq<string>): (s: seq<nat>)
    ensures forall d | d in s :: d < |rules|
  {
    if deps == [] then []
    else
      KnownDeps(rules, deps[..|deps| - 1]) +
      match IndexOf(rules, deps[|deps| - 1])
      case None => []
      case Some(d) => [d]
  }

  /** For each rule, the rules it waits for. */
  type Graph = seq<seq<nat>>

  ghost predicate InRange(g: Graph) {
    forall i, d | 0 <= i < |g| && d in g[i] :: d < |g|
  }

  function DepGraph(rules: seq<RuleDef>): (g: Graph)
    ensures |g| == |rules|
  {
    seq(|rules|, i requires 0 <= i < |rules| => KnownDeps(rules, rules[i].dependsOn))
  }

  lemma DepGraphInRange(rules: seq<RuleDef>)
    ensures InRange(DepGraph(rules))
  {
  }

  predicate Within(deps: seq<nat>, done: seq<nat>) {
    forall d | d in deps :: d in done
  }

  /** All of `deps` come within the first `t` of `order`, and not sooner. */
  predicate ReadyAt(order: seq<nat>, deps: seq<nat>, t: nat) {
    t <= |order| && Within(deps, order[..t]) && (t > 0 ==> !Within(deps, order[..t - 1]))
  }

  /** `turn[q]` is when the rule at `q` became ready. */
  ghost predicate Turns(g: Graph, order: seq<nat>, turn: seq<nat>) {
    && |turn| == |order|
    && forall q | 0 <= q < |order| :: order[q] < |g| && turn[q] <= q && ReadyAt(order, g[order[q]], turn[q])
  }

  /** Whoever became ready sooner goes first; among those ready at once, the higher in the priority order. */
  ghost predicate InTurn(order: seq<nat>, turn: seq<nat>) {
    && |turn| == |order|
    && forall p, q | 0 <= p < q < |order| :: turn[p] < turn[q] || (turn[p] == turn[q] && order[p] < order[q])
  }

  /** Every rule whose dependencies are all in the order is in it too. */
  ghost predicate Complete(g: Graph, order: seq<nat>) {
    forall i | 0 <= i < |g| && Within(g[i], order) :: i in order
  }

  ghost predicate Schedule(g: Graph, order: seq<nat>, turn: seq<nat>) {
    Distinct(order) && Complete(g, order) && Turns(g, order, turn) && InTurn(order, turn)
  }

  ghost predicate TopoOrder(g: Graph, order: seq<nat>) {
    exists turn :: Schedule(g, order, turn)
  }

  // ---- There is one such order ----

  lemma ReadyOnce(order: seq<nat>, deps: seq<nat>, s: nat, t: nat)
    requires ReadyAt(order, deps, s) && ReadyAt(order, deps, t)
    ensures s == t
  {
  }

  lemma ReadyInPrefix(a: seq<nat>, b: seq<nat>, k: nat, deps: seq<nat>, t: nat)
    requires k <= |a| && k <= |b| && a[..k] == b[..k] && t <= k && ReadyAt(a, deps, t)
    ensures ReadyAt(b, deps, t) && Within(deps, b)
  {
    assert a[..t] == a[..k][..t] == b[..k][..t] == b[..t];
    if t > 0 {
      assert a[..t - 1] == a[..k][..t - 1] == b[..k][..t - 1] == b[..t - 1];
    }
    assert forall d | d in b[..t] :: d in b;
  }

  /** The next rule of `a` stands in `b` too, not before `k`, and became ready at the same moment. */
  lemma Found(g: Graph, a: seq<nat>, b: seq<nat>, ta: seq<nat>, tb: seq<nat>, k: nat) returns (q: nat)
    requires Distinct(a) && Complete(g, b) && Turns(g, a, ta) && Turns(g, b, tb)
    requires k < |a| && k <= |b| && a[..k] == b[..k]
    ensures k <= q < |b| && b[q] == a[k] && tb[q] == ta[k]
  {
    ReadyInPrefix(a, b, k, g[a[k]], ta[k]);
    assert a[k] in b;
    q :| 0 <= q < |b| && b[q] == a[k];
    ReadyOnce(b, g[a[k]], ta[k], tb[q]);
  }

  /** Two orders that agree on their first `k` have the same rule next, unless both end. */
  lemma SameNext(g: Graph, a: seq<nat>, b: seq<nat>, ta: seq<nat>, tb: seq<nat>, k: nat)
    requires Schedule(g, a, ta) && Schedule(g, b, tb)
    requires k < |a| && k <= |b| && a[..k] == b[..k]
    ensures k < |b| && a[k] == b[k]
  {
    var q := Found(g, a, b, ta, tb, k);
    var r := Found(g, b, a, tb, ta, k);
    if q != k || r != k {
      assert false;
    }
  }

  lemma {:induction false} SamePrefix(g: Graph, a: seq<nat>, b: seq<nat>, ta: seq<nat>, tb: seq<nat>, k: nat)
    requires Schedule(g, a, ta) && Schedule(g, b, tb) && k <= |a|
    ensures k <= |b| && a[..k] == b[..k]
  {
    if k > 0 {
      SamePrefix(g, a, b, ta, tb, k - 1);
      SameNext(g, a, b, ta, tb, k - 1);
      PrefixGrows(a, b, k - 1);
    }
  }

  lemma PrefixGrows(a: seq<nat>, b: seq<nat>, k: nat)
    requires k < |a| && k < |b| && a[..k] == b[..k] && a[k] == b[k]
    ensures a[..k + 1] == b[..k + 1]
  {
    assert a[..k + 1] == a[..k] + [a[k]] && b[..k + 1] == b[..k] + [b[k]];
  }

  /** The graph determines the order completely. */
  lemma TopoOrderIsUnique(g: Graph, a: seq<nat>, b: seq<nat>)
    requires TopoOrder(g, a) && TopoOrder(g, b)
    ensures a == b
  {
    var ta :| Schedule(g, a, ta);
    var tb :| Schedule(g, b, tb);
    OneStartsTheOther(g, a, b, ta, tb);
    OneStartsTheOther(g, b, a, tb, ta);
  }

  lemma OneStartsTheOther(g: Graph, a: seq<nat>, b: seq<nat>, ta: seq<nat>, tb: seq<nat>)
    requires Schedule(g, a, ta) && Schedule(g, b, tb)
    ensures a <= b
  {
    SamePrefix(g, a, b, ta, tb, |a|);
    assert a[..|a|] == a;
  }

  /** With nothing to wait for, the order is the priority order. */
  lemma IndependentRulesKeepPriorityOrder(g: Graph, order: seq<nat>)
    requires TopoOrder(g, order) && forall i | 0 <= i < |g| :: g[i] == []
    ensures order == seq(|g|, i => i)
  {
    var all := seq(|g|, i => i);
    var turn := seq(|g|, i => 0);
    forall i | 0 <= i < |g|
      ensures i in all
    {
      assert all[i] == i;
    }
    assert Schedule(g, all, turn);
    TopoOrderIsUnique(g, order, all);
  }

  // ---- Exactly the rules off the cycles ----

  /** A chain of dependencies, each waiting for the next. */
  ghost predicate IsWalk(g: Graph, w: seq<nat>) {
    (forall k | 0 <= k < |w| :: w[k] < |g|) && forall k | 0 < k < |w| :: w[k] in g[w[k - 1]]
  }

  /** `i` is on a dependency cycle or waits, directly or not, for one. */
  ghost predicate ReachesCycle(g: Graph, i: nat) {
    exists w :: IsWalk(g, w) && w != [] && w[0] == i && !Distinct(w)
  }

  lemma DependenciesComeFirst(g: Graph, order: seq<nat>, turn: seq<nat>, q: nat, d: nat) returns (p: nat)
    requires Turns(g, order, turn) && q < |order| && d in g[order[q]]
    ensures p < q && order[p] == d
  {
    assert d in order[..turn[q]];
    p :| 0 <= p < turn[q] && order[p] == d;
  }

  /** A walk from an ordered rule goes strictly backwards through the order. */
  lemma {:induction false} WalkGoesBack(
    g: Graph, order: seq<nat>, turn: seq<nat>, w: seq<nat>, q: nat)
    returns (pos: seq<nat>)
    requires Turns(g, order, turn) && IsWalk(g, w) && w != [] && q < |order| && order[q] == w[0]
    ensures |pos| == |w| && pos[0] == q
    ensures forall k | 0 <= k < |w| :: pos[k] < |order| && order[pos[k]] == w[k]
    ensures forall j, k | 0 <= j < k < |w| :: pos[k] < pos[j]
    decreases |w|
  {
    if |w| == 1 {
      pos := [q];
    } else {
      var p := DependenciesComeFirst(g, order, turn, q, w[1]);
      var rest := w[1..];
      assert forall k | 0 < k < |rest| :: rest[k] == w[k + 1] && rest[k - 1] == w[k];
      var tail := WalkGoesBack(g, order, turn, rest, p);
      pos := [q] + tail;
      assert forall k | 0 < k < |w| :: pos[k] == tail[k - 1] && w[k] == rest[k - 1];
    }
  }

  lemma OrderedReachesNoCycle(g: Graph, order: seq<nat>, q: nat)
    requires TopoOrder(g, order) && q < |order|
    ensures !ReachesCycle(g, order[q])
  {
    var turn :| Schedule(g, order, turn);
    forall w | IsWalk(g, w) && w != [] && w[0] == order[q]
      ensures Distinct(w)
    {
      var pos := WalkGoesBack(g, order, turn, w, q);
      assert forall j, k | 0 <= j < k < |w| :: order[pos[k]] == w[k] && order[pos[j]] == w[j];
    }
  }

  /** A rule left out waits for another one left out, so the chain can be drawn as long as one likes. */
  lemma {:induction false} LeftOutWalk(g: Graph, order: seq<nat>, i: nat, n: nat) returns (w: seq<nat>)
    requires InRange(g) && Complete(g, order) && i < |g| && i !in order
    ensures IsWalk(g, w) && |w| == n + 1 && w[0] == i
    decreases n
  {
    if n == 0 {
      w := [i];
    } else {
      var d :| d in g[i] && d !in order;
      var rest := LeftOutWalk(g, order, d, n - 1);
      w := [i] + rest;
      forall k | 0 < k < |w|
        ensures w[k] in g[w[k - 1]]
      {
        assert w[k] == rest[k - 1] && w[k - 1] == (if k == 1 then i else rest[k - 2]);
      }
    }
  }

  lemma {:induction false} DistinctIsShort(w: seq<nat>, bound: nat)
    requires Distinct(w) && forall x | x in w :: x < bound
    ensures |w| <= bound
    decreases bound
  {
    if w != [] {
      assert w[0] in w;
      var last := bound - 1;
      if last in w {
        var k :| 0 <= k < |w| && w[k] == last;
        var rest := w[..k] + w[k + 1..];
        assert forall x | x in rest :: x in w && x != last;
        DistinctIsShort(rest, last);
      } else {
        DistinctIsShort(w, last);
      }
    }
  }

  lemma LeftOutReachesCycle(g: Graph, order: seq<nat>, i: nat)
    requires InRange(g) && Complete(g, order) && i < |g| && i !in order
    ensures ReachesCycle(g, i)
  {
    var w := LeftOutWalk(g, order, i, |g|);
    if Distinct(w) {
      DistinctIsShort(w, |g|);
    }
  }

  /** The order holds exactly the rules that are neither on a dependency cycle nor downstream of one, each once. */
  lemma OrderedIffNoCycle(g: Graph, order: seq<nat>, i: nat)
    requires InRange(g) && TopoOrder(g, order) && i < |g|
    ensures i in order <==> !ReachesCycle(g, i)
    ensures multiset(order)[i] == if ReachesCycle(g, i) then 0 else 1
  {
    var turn :| Schedule(g, order, turn);
    if i in order {
      var q :| 0 <= q < |order| && order[q] == i;
      OrderedReachesNoCycle(g, order, q);
    } else {
      LeftOutReachesCycle(g, order, i);
    }
    DistinctCountsOnce(order, i);
  }

  lemma {:induction false} DistinctCountsOnce(s: seq<nat>, x: nat)
    requires Distinct(s)
    ensures multiset(s)[x] == if x in s then 1 else 0
  {
    if s != [] {
      var front, last := s[..|s| - 1], s[|s| - 1];
      assert s == front + [last];
      DistinctCountsOnce(front, x);
    }
  }

  // ---- The sort as it runs ----

  /** How many of `deps` are still to come. */
  function Missing(deps: seq<nat>, done: set<nat>): nat {
    if deps == [] then 0 else (if deps[0] in done then 0 else 1) + Missing(deps[1..], done)
  }

  lemma {:induction false} MissingNone(deps: seq<nat>, done: set<nat>)
    ensures Missing(deps, done) == 0 <==> forall d | d in deps :: d in done
  {
    if deps != [] {
      MissingNone(deps[1..], done);
      assert deps == [deps[0]] + deps[1..];
    }
  }

  lemma {:induction false} MissingAll(deps: seq<nat>)
    ensures Missing(deps, {}) == |deps|
  {
    if deps != [] {
      MissingAll(deps[1..]);
    }
  }

  lemma {:induction false} MissingOneLess(deps: seq<nat>, done: set<nat>, x: nat)
    requires x !in done
    ensures Missing(deps, done) == Missing(deps, done + {x}) + multiset(deps)[x]
  {
    if deps != [] {
      MissingOneLess(deps[1..], done, x);
      assert deps == [deps[0]] + deps[1..];
    }
  }

  /** `list` holds each of the first `n` rules, in order, once for each time it names `d`. */
  ghost predicate Waiters(g: Graph, d: nat, list: seq<nat>, n: nat)
    requires n <= |g|
  {
    && (forall j, k | 0 <= j < k < |list| :: list[j] <= list[k])
    && (forall x | x in list :: x < n)
    && forall i | 0 <= i < n :: multiset(list)[i] == multiset(g[i])[d]
  }

  /** As `Waiters`, when of the next rule's dependencies only `deps` have been entered. */
  ghost predicate WaitersPart(g: Graph, d: nat, list: seq<nat>, n: nat, deps: seq<nat>)
    requires n <= |g|
  {
    && (forall j, k | 0 <= j < k < |list| :: list[j] <= list[k])
    && (forall x | x in list :: x <= n)
    && (forall i | 0 <= i < n :: multiset(list)[i] == multiset(g[i])[d])
    && multiset(list)[n] == multiset(deps)[d]
  }

  lemma WaitersStart(g: Graph, d: nat, list: seq<nat>, n: nat)
    requires n < |g| && Waiters(g, d, list, n)
    ensures WaitersPart(g, d, list, n, [])
  {
    if n in list {
      assert false;
    }
  }

  lemma WaitersEnter(g: Graph, d: nat, list: seq<nat>, n: nat, deps: seq<nat>, x: nat)
    requires n < |g| && WaitersPart(g, d, list, n, deps)
    ensures WaitersPart(g, d, if d == x then list + [n] else list, n, deps + [x])
  {
    if d == x {
      var longer := list + [n];
      assert forall j | 0 <= j < |list| :: longer[j] == list[j] && list[j] in list;
    }
  }

  lemma WaitersDone(g: Graph, d: nat, list: seq<nat>, n: nat)
    requires n < |g| && WaitersPart(g, d, list, n, g[n])
    ensures Waiters(g, d, list, n + 1)
  {
  }

  method IndexNames(rules: seq<RuleDef>) returns (index: map<string, nat>)
    ensures forall name :: Get(index, name) == IndexOf(rules, name)
  {
    index := map[];
    for i := 0 to |rules|
      invariant forall name :: Get(index, name) == IndexOf(rules[..i], name)
    {
      index := index[rules[i].name := i];
      assert rules[..i + 1][..i] == rules[..i];
    }
    assert rules[..|rules|] == rules;
  }

  /** Enters one dependency of rule `i`, unless its name is unknown. */
  method EnterDependency(
    ghost g: Graph, dep: Option<nat>, i: nat, ghost deps: seq<nat>, inDegree: array<nat>, dependents: array<seq<nat>>)
    requires i < |g| == inDegree.Length == dependents.Length && (dep.Some? ==> dep.value < |g|)
    requires forall d | 0 <= d < |g| :: WaitersPart(g, d, dependents[d], i, deps)
    modifies inDegree, dependents
    ensures inDegree[..] == old(inDegree[..])[i := old(inDegree[i]) + if dep.Some? then 1 else 0]
    ensures forall d | 0 <= d < |g| ::
        WaitersPart(g, d, dependents[d], i, deps + if dep.Some? then [dep.value] else [])
  {
    if dep.Some? {
      forall d | 0 <= d < |g|
        ensures WaitersPart(g, d, if d == dep.value then dependents[d] + [i] else dependents[d], i, deps + [dep.value])
      {
        WaitersEnter(g, d, dependents[d], i, deps, dep.value);
      }
      dependents[dep.value] := dependents[dep.value] + [i];
      inDegree[i] := inDegree[i] + 1;
    } else {
      assert deps + [] == deps;
    }
  }

  lemma KnownDepsStep(rules: seq<RuleDef>, names: seq<string>, k: nat)
    requires k < |names|
    ensures KnownDeps(rules, names[..k + 1]) ==
      KnownDeps(rules, names[..k]) + match IndexOf(rules, names[k]) case None => [] case Some(d) => [d]
  {
    assert names[..k + 1][..k] == names[..k];
  }

  method EnterRule(
    rules: seq<RuleDef>, index: map<string, nat>, i: nat, inDegree: array<nat>, dependents: array<seq<nat>>)
    requires i < |rules| == inDegree.Length == dependents.Length && inDegree[i] == 0
    requires forall name :: Get(index, name) == IndexOf(rules, name)
    requires forall d | 0 <= d < |rules| :: Waiters(DepGraph(rules), d, dependents[d], i)
    modifies inDegree, dependents
    ensures inDegree[..] == old(inDegree[..])[i := |DepGraph(rules)[i]|]
    ensures forall d | 0 <= d < |rules| :: Waiters(DepGraph(rules), d, dependents[d], i + 1)
  {
    ghost var g := DepGraph(rules);
    var names := rules[i].dependsOn;
    forall d | 0 <= d < |g| ensures WaitersPart(g, d, dependents[d], i, []) { WaitersStart(g, d, dependents[d], i); }
    ghost var deps: seq<nat> := [];
    for k := 0 to |names|
      invariant deps == KnownDeps(rules, names[..k]) && inDegree[..] == old(inDegree[..])[i := |deps|]
      invariant forall d | 0 <= d < |g| :: WaitersPart(g, d, dependents[d], i, deps)
    {
      var dep := Get(index, names[k]);
      KnownDepsStep(rules, names, k);
      EnterDependency(g, dep, i, deps, inDegree, dependents);
      deps := deps + if dep.Some? then [dep.value] else [];
    }
    assert names[..|names|] == names;
    forall d | 0 <= d < |g| ensures Waiters(g, d, dependents[d], i + 1) { WaitersDone(g, d, dependents[d], i); }
  }

  method CountDependencies(rules: seq<RuleDef>) returns (inDegree: array<nat>, dependents: array<seq<nat>>)
    ensures fresh(inDegree) && fresh(dependents)
    ensures inDegree.Length == dependents.Length == |rules|
    ensures forall i | 0 <= i < |rules| :: inDegree[i] == |DepGraph(rules)[i]|
    ensures forall d | 0 <= d < |rules| :: Waiters(DepGraph(rules), d, dependents[d], |rules|)
  {
    var index := IndexNames(rules);
    var n := |rules|;
    inDegree := new nat[n](_ => 0);
    dependents := new seq<nat>[n](_ => []);
    for i := 0 to n
      invariant forall j | 0 <= j < n :: inDegree[j] == if j < i then |DepGraph(rules)[j]| else 0
      invariant forall d | 0 <= d < n :: Waiters(DepGraph(rules), d, dependents[d], i)
    {
      ghost var before := inDegree[..];
      EnterRule(rules, index, i, inDegree, dependents);
      assert forall j | 0 <= j < n :: inDegree[j] == inDegree[..][j];
    }
  }

  function SetOf(s: seq<nat>): set<nat> {
    set x | x in s
  }

  /** `all` starts with the rules already ordered and goes on with the queue; `turn` says when each became ready. */
  ghost predicate Front(g: Graph, order: seq<nat>, all: seq<nat>, turn: seq<nat>) {
    && order <= all && Distinct(all) && InTurn(all, turn) && Turns(g, all, turn)
    && forall q | 0 <= q < |all| :: turn[q] <= |order|
  }

  lemma TurnsExtend(g: Graph, order: seq<nat>, all: seq<nat>, turn: seq<nat>, x: nat)
    requires Turns(g, all, turn) && order <= all && Distinct(order)
    requires order != [] && x < |g| && Within(g[x], order) && order[|order| - 1] in g[x]
    ensures Turns(g, all + [x], turn + [|order|])
  {
    var more, n := all + [x], |order|;
    assert more[..n] == order && more[..n - 1] == order[..n - 1];
    LastIsNew(order);
    assert ReadyAt(more, g[x], n);
    forall q | 0 <= q < |all|
      ensures ReadyAt(more, g[more[q]], turn[q])
    {
      assert more[..|all|] == all[..|all|];
      ReadyInPrefix(all, more, |all|, g[all[q]], turn[q]);
    }
  }

  /** What is pushed while `order`'s last rule is dealt with became ready just then. */
  lemma PushKeepsFront(g: Graph, order: seq<nat>, all: seq<nat>, turn: seq<nat>, x: nat)
    requires Front(g, order, all, turn) && order != [] && x < |g| && x !in all
    requires Within(g[x], order) && order[|order| - 1] in g[x]
    requires forall q | 0 <= q < |all| && turn[q] == |order| :: all[q] < x
    ensures Front(g, order, all + [x], turn + [|order|])
  {
    PrefixDistinct(order, all);
    TurnsExtend(g, order, all, turn, x);
    InTurnExtends(order, all, turn, x);
    DistinctExtends(all, x);
    assert forall q | 0 <= q < |all| + 1 :: (turn + [|order|])[q] <= |order|;
  }

  lemma PrefixDistinct(order: seq<nat>, all: seq<nat>)
    requires order <= all && Distinct(all)
    ensures Distinct(order)
  {
    assert forall k | 0 <= k < |order| :: order[k] == all[k];
  }

  lemma DistinctExtends(all: seq<nat>, x: nat)
    requires Distinct(all) && x !in all
    ensures Distinct(all + [x])
  {
  }

  lemma InTurnExtends(order: seq<nat>, all: seq<nat>, turn: seq<nat>, x: nat)
    requires InTurn(all, turn) && forall q | 0 <= q < |all| :: turn[q] <= |order|
    requires forall q | 0 <= q < |all| && turn[q] == |order| :: all[q] < x
    ensures InTurn(all + [x], turn + [|order|])
  {
  }

  lemma LastIsNew(s: seq<nat>)
    requires s != [] && Distinct(s)
    ensures s[|s| - 1] !in s[..|s| - 1]
  {
  }

  /**
   * Each rule's degree counts its dependencies not yet ordered, and those in `pending`
   * not yet taken off; the rules in `all` are those whose degree is 0.
   */
  ghost predicate Degrees(g: Graph, degree: seq<nat>, done: seq<nat>, pending: seq<nat>, all: seq<nat>) {
    && |degree| == |g|
    && (forall i | 0 <= i < |g| :: degree[i] == Missing(g[i], SetOf(done)) + multiset(pending)[i])
    && forall i | 0 <= i < |g| :: i in all <==> degree[i] == 0
  }

  /** Taking one off cannot underflow, and a rule is pushed at most once. */
  lemma DegreesStep(g: Graph, degree: seq<nat>, done: seq<nat>, list: seq<nat>, k: nat, all: seq<nat>)
    requires k < |list| && list[k] < |g| && Degrees(g, degree, done, list[k..], all)
    ensures degree[list[k]] > 0 && list[k] !in all
    ensures Degrees(g, degree[list[k] := degree[list[k]] - 1], done, list[k + 1..],
                    if degree[list[k]] == 1 then all + [list[k]] else all)
    ensures degree[list[k]] == 1 ==> Missing(g[list[k]], SetOf(done)) == 0
  {
    assert list[k..] == [list[k]] + list[k + 1..];
  }

  lemma DegreesStart(g: Graph, degree: seq<nat>, order: seq<nat>, idx: nat, list: seq<nat>, all: seq<nat>)
    requires idx < |g| && idx !in order && Waiters(g, idx, list, |g|) && Degrees(g, degree, order, [], all)
    ensures Degrees(g, degree, order + [idx], list, all)
  {
    assert SetOf(order + [idx]) == SetOf(order) + {idx};
    forall i | 0 <= i < |g|
      ensures degree[i] == Missing(g[i], SetOf(order + [idx])) + multiset(list)[i]
    {
      MissingOneLess(g[i], SetOf(order), idx);
    }
  }

  /** The rules pushed while the last of `done` is dealt with are among those waiting for it. */
  ghost predicate PushedFrom(done: seq<nat>, all: seq<nat>, turn: seq<nat>, list: seq<nat>) {
    |turn| == |all| && forall q | 0 <= q < |all| && turn[q] == |done| :: all[q] in list
  }

  /** Deals with the rules waiting for `idx`, which has just been ordered. */
  method Release(
    ghost g: Graph, idx: nat, ghost order: seq<nat>, list: seq<nat>,
    inDegree: array<nat>, queue: seq<nat>, ghost turn: seq<nat>)
    returns (longer: seq<nat>, ghost turns: seq<nat>)
    requires idx < |g| && idx !in order && Waiters(g, idx, list, |g|)
    requires Front(g, order, order + [idx] + queue, turn)
    requires Degrees(g, inDegree[..], order, [], order + [idx] + queue)
    modifies inDegree
    ensures Front(g, order + [idx], order + [idx] + longer, turns)
    ensures Degrees(g, inDegree[..], order + [idx], [], order + [idx] + longer)
  {
    longer, turns := queue, turn;
    ghost var done := order + [idx];
    ReleaseStart(g, inDegree[..], order, idx, queue, list, turn);
    for k := 0 to |list|
      invariant Releasing(g, inDegree[..], done, list, k, done + longer, turns)
    {
      longer, turns := TakeOff(g, done, list, k, inDegree, longer, turns);
    }
    ReleaseEnd(g, inDegree[..], done, list, done + longer, turns);
  }

  /** Takes one off a waiting rule's degree, and queues the rule when that was the last. */
  method TakeOff(
    ghost g: Graph, ghost done: seq<nat>, list: seq<nat>, k: nat,
    inDegree: array<nat>, queue: seq<nat>, ghost turn: seq<nat>)
    returns (longer: seq<nat>, ghost turns: seq<nat>)
    requires done != [] && Waiters(g, done[|done| - 1], list, |g|)
    requires k < |list| && Releasing(g, inDegree[..], done, list, k, done + queue, turn)
    modifies inDegree
    ensures Releasing(g, inDegree[..], done, list, k + 1, done + longer, turns)
  {
    var x := list[k];
    ReleaseStep(g, inDegree[..], done, list, k, done + queue, turn);
    longer, turns := queue, turn;
    inDegree[x] := inDegree[x] - 1;
    if inDegree[x] == 0 {
      assert done + (queue + [x]) == done + queue + [x];
      longer, turns := queue + [x], turn + [|done|];
    }
  }

  lemma ReleaseStart(
    g: Graph, degree: seq<nat>, order: seq<nat>, idx: nat, queue: seq<nat>, list: seq<nat>, turn: seq<nat>)
    requires idx < |g| && idx !in order && Waiters(g, idx, list, |g|)
    requires Front(g, order, order + [idx] + queue, turn) && Degrees(g, degree, order, [], order + [idx] + queue)
    ensures Releasing(g, degree, order + [idx], list, 0, order + [idx] + queue, turn)
  {
    DegreesStart(g, degree, order, idx, list, order + [idx] + queue);
    assert list[0..] == list;
  }

  lemma ReleaseEnd(g: Graph, degree: seq<nat>, done: seq<nat>, list: seq<nat>, all: seq<nat>, turn: seq<nat>)
    requires Releasing(g, degree, done, list, |list|, all, turn)
    ensures Front(g, done, all, turn) && Degrees(g, degree, done, [], all)
  {
    assert list[|list|..] == [];
  }

  /** Where the work on the rules waiting for the last of `done` stands after `k` of them. */
  ghost predicate Releasing(
    g: Graph, degree: seq<nat>, done: seq<nat>, list: seq<nat>, k: nat, all: seq<nat>, turn: seq<nat>)
  {
    && k <= |list| && Front(g, done, all, turn)
    && Degrees(g, degree, done, list[k..], all) && PushedFrom(done, all, turn, list[..k])
  }

  lemma ReleaseStep(
    g: Graph, degree: seq<nat>, done: seq<nat>, list: seq<nat>, k: nat, all: seq<nat>, turn: seq<nat>)
    requires done != [] && Waiters(g, done[|done| - 1], list, |g|)
    requires k < |list| && Releasing(g, degree, done, list, k, all, turn)
    ensures list[k] < |g| == |degree| && degree[list[k]] > 0
    ensures degree[list[k]] > 1 ==>
      Releasing(g, degree[list[k] := degree[list[k]] - 1], done, list, k + 1, all, turn)
    ensures degree[list[k]] == 1 ==>
      Releasing(g, degree[list[k] := 0], done, list, k + 1, all + [list[k]], turn + [|done|])
  {
    assert list[k] in list;
    DegreesStep(g, degree, done, list, k, all);
    PushedGrows(done, all, turn, list, k);
    if degree[list[k]] == 1 {
      ReleasePushes(g, done, list, k, all, turn);
    }
  }

  lemma ReleasePushes(g: Graph, done: seq<nat>, list: seq<nat>, k: nat, all: seq<nat>, turn: seq<nat>)
    requires done != [] && Waiters(g, done[|done| - 1], list, |g|) && Front(g, done, all, turn)
    requires k < |list| && list[k] < |g| && list[k] !in all && Missing(g[list[k]], SetOf(done)) == 0
    requires PushedFrom(done, all, turn, list[..k])
    ensures Front(g, done, all + [list[k]], turn + [|done|])
  {
    ReleasedIsReady(g, done, list, k);
    forall q | 0 <= q < |all| && turn[q] == |done|
      ensures all[q] < list[k]
    {
      assert all[q] in list[..k] && all[q] in all;
    }
    PushKeepsFront(g, done, all, turn, list[k]);
  }

  lemma PushedGrows(done: seq<nat>, all: seq<nat>, turn: seq<nat>, list: seq<nat>, k: nat)
    requires k < |list| && PushedFrom(done, all, turn, list[..k])
    ensures PushedFrom(done, all, turn, list[..k + 1])
    ensures PushedFrom(done, all + [list[k]], turn + [|done|], list[..k + 1])
  {
    assert list[..k + 1] == list[..k] + [list[k]];
  }

  lemma ReleasedIsReady(g: Graph, done: seq<nat>, list: seq<nat>, k: nat)
    requires done != [] && k < |list| && Waiters(g, done[|done| - 1], list, |g|)
    requires list[k] < |g| && Missing(g[list[k]], SetOf(done)) == 0
    ensures Within(g[list[k]], done) && done[|done| - 1] in g[list[k]]
    ensures forall y | y in list[..k] :: y <= list[k]
  {
    MissingNone(g[list[k]], SetOf(done));
    assert multiset(list)[list[k]] > 0;
  }

  /** The queue loop: what is ready goes first in, first out. */
  method Drain(ghost g: Graph, inDegree: array<nat>, dependents: array<seq<nat>>) returns (order: seq<nat>)
    requires inDegree.Length == dependents.Length == |g|
    requires forall i | 0 <= i < |g| :: inDegree[i] == |g[i]|
    requires forall d | 0 <= d < |g| :: Waiters(g, d, dependents[d], |g|)
    modifies inDegree
    ensures TopoOrder(g, order)
  {
    order := [];
    var queue := Roots(g, inDegree);
    ghost var turn := seq(|queue|, i => 0);
    assert [] + queue == queue;
    DegreesBegin(g, inDegree[..], queue);
    while queue != []
      invariant Front(g, order, order + queue, turn)
      invariant Degrees(g, inDegree[..], order, [], order + queue)
      invariant forall d | 0 <= d < |g| :: Waiters(g, d, dependents[d], |g|)
      decreases |g| - |order|
    {
      var idx := queue[0];
      assert order + queue == order + [idx] + queue[1..];
      NextIsNew(g, order, queue, turn);
      queue, turn := Release(g, idx, order, dependents[idx], inDegree, queue[1..], turn);
      order := order + [idx];
    }
    assert order + [] == order;
    EmptyQueueEnds(g, inDegree[..], order, turn);
  }

  lemma DegreesBegin(g: Graph, degree: seq<nat>, queue: seq<nat>)
    requires |degree| == |g| && forall i | 0 <= i < |g| :: degree[i] == |g[i]|
    requires forall i | 0 <= i < |g| :: i in queue <==> degree[i] == 0
    ensures Degrees(g, degree, [], [], queue)
  {
    forall i | 0 <= i < |g| { MissingAll(g[i]); }
    assert SetOf([]) == {};
  }

  lemma NextIsNew(g: Graph, order: seq<nat>, queue: seq<nat>, turn: seq<nat>)
    requires Front(g, order, order + queue, turn) && queue != []
    ensures queue[0] < |g| && queue[0] !in order && |order| < |g|
  {
    var all := order + queue;
    assert all[|order|] == queue[0];
    forall x | x in all
      ensures x < |g|
    {
      var q :| 0 <= q < |all| && all[q] == x;
    }
    DistinctIsShort(all, |g|);
  }

  lemma EmptyQueueEnds(g: Graph, degree: seq<nat>, order: seq<nat>, turn: seq<nat>)
    requires Front(g, order, order, turn) && Degrees(g, degree, order, [], order)
    ensures TopoOrder(g, order)
  {
    forall i | 0 <= i < |g| && Within(g[i], order)
      ensures i in order
    {
      MissingNone(g[i], SetOf(order));
    }
    assert Schedule(g, order, turn);
  }

  /** The rules that wait for none, in priority order. */
  method Roots(ghost g: Graph, inDegree: array<nat>) returns (queue: seq<nat>)
    requires inDegree.Length == |g| && forall i | 0 <= i < |g| :: inDegree[i] == |g[i]|
    ensures Front(g, [], queue, seq(|queue|, i => 0))
    ensures forall i | 0 <= i < |g| :: i in queue <==> inDegree[i] == 0
  {
    queue := [];
    for i := 0 to inDegree.Length
      invariant forall j, k | 0 <= j < k < |queue| :: queue[j] < queue[k]
      invariant forall x | x in queue :: x < i && g[x] == []
      invariant forall j | 0 <= j < i :: j in queue <==> inDegree[j] == 0
    {
      assert forall j | 0 <= j < |queue| :: queue[j] in queue;
      if inDegree[i] == 0 {
        queue := queue + [i];
      }
    }
    assert forall q | 0 <= q < |queue| :: queue[q] in queue;
  }

  /** The rules at the given places. */
  function Picked(rules: seq<RuleDef>, order: seq<nat>): seq<RuleDef>
    requires forall q | 0 <= q < |order| :: order[q] < |rules|
  {
    seq(|order|, q requires 0 <= q < |order| => rules[order[q]])
  }

  ghost predicate IsTopoSort(rules: seq<RuleDef>, out: seq<RuleDef>, order: seq<nat>) {
    && TopoOrder(DepGraph(ByPriority(rules)), order)
    && (forall q | 0 <= q < |order| :: order[q] < |ByPriority(rules)|)
    && out == Picked(ByPriority(rules), order)
  }

  /** Takes the rules out of their slots; each is still there when its turn comes. */
  method TakeInOrder(rules: seq<RuleDef>, order: seq<nat>) returns (out: seq<RuleDef>)
    requires Distinct(order) && forall q | 0 <= q < |order| :: order[q] < |rules|
    ensures out == Picked(rules, order)
  {
    var slots := new Option<RuleDef>[|rules|](i requires 0 <= i < |rules| => Some(rules[i]));
    out := [];
    for q := 0 to |order|
      invariant |out| == q && forall k | 0 <= k < q :: out[k] == rules[order[k]]
      invariant forall k | q <= k < |order| :: slots[order[k]] == Some(rules[order[k]])
    {
      out := out + [slots[order[q]].value];
      slots[order[q]] := None;
    }
  }

  method TopoSort(rules: seq<RuleDef>) returns (out: seq<RuleDef>)
    ensures exists order :: IsTopoSort(rules, out, order)
  {
    var sorted := ByPriority(rules);
    var inDegree, dependents := CountDependencies(sorted);
    var order := Drain(DepGraph(sorted), inDegree, dependents);
    OrderInRange(DepGraph(sorted), order);
    out := TakeInOrder(sorted, order);
    assert IsTopoSort(rules, out, order);
  }

  /** What the sort keeps of the prioritised rules: each rule off the dependency cycles once, and no other. */
  lemma SortKeepsTheAcyclic(rules: seq<RuleDef>, out: seq<RuleDef>, order: seq<nat>, i: nat)
    requires IsTopoSort(rules, out, order) && i < |rules|
    ensures multiset(order)[i] == if ReachesCycle(DepGraph(ByPriority(rules)), i) then 0 else 1
  {
    ByPriorityIsStable(rules, 0);
    assert |multiset(rules)| == |rules| && |multiset(ByPriority(rules))| == |ByPriority(rules)|;
    DepGraphInRange(ByPriority(rules));
    OrderedIffNoCycle(DepGraph(ByPriority(rules)), order, i);
  }

  lemma OrderInRange(g: Graph, order: seq<nat>)
    requires TopoOrder(g, order)
    ensures Distinct(order) && forall q | 0 <= q < |order| :: order[q] < |g|
  {
    var turn :| Schedule(g, order, turn);
  }
}
