/** Matching a condition against the event, with the memo of leaf verdicts that one evaluation shares. */
module RuleMatching {
  import opened Matchers

  type Memo = map<Leaf, bool>

  /** The verdict and the memo afterwards; a leaf under an expression bypasses the memo. */
  function Memoised(m: Matcher, w: World, rule: string, memo: Memo): (bool, Memo)
    requires RefFree(m)
    decreases m, 1
  {
    match m
    case All(ms) => AllOf(m, 0, w, rule, memo)
    case Any(ms) => AnyOf(m, 0, w, rule, memo)
    case Not(x) => var (v, after) := Memoised(x, w, rule, memo); (!v, after)
    case LeafExpr(leaf, expr) => (ExprVerdict(w, leaf, expr, rule), memo)
    case Leaf(leaf) =>
      if leaf in memo then (memo[leaf], memo)
      else (Verdict(w, leaf, rule), memo[leaf := Verdict(w, leaf, rule)])
  }

  function AllOf(m: Matcher, i: nat, w: World, rule: string, memo: Memo): (bool, Memo)
    requires m.All? && RefFree(m) && i <= |m.ms|
    decreases m, 0, |m.ms| - i
  {
    if i == |m.ms| then (true, memo)
    else
      var (v, after) := Memoised(m.ms[i], w, rule, memo);
      if v then AllOf(m, i + 1, w, rule, after) else (false, after)
  }

  function AnyOf(m: Matcher, i: nat, w: World, rule: string, memo: Memo): (bool, Memo)
    requires m.Any? && RefFree(m) && i <= |m.ms|
    decreases m, 0, |m.ms| - i
  {
    if i == |m.ms| then (false, memo)
    else
      var (v, after) := Memoised(m.ms[i], w, rule, memo);
      if v then (true, after) else AnyOf(m, i + 1, w, rule, after)
  }

  // ---- The memo changes nothing ----

  function NoNames(): string -> bool {
    _ => false
  }

  /** What a condition says without any memo. */
  predicate Holds(m: Matcher, w: World, rule: string) {
    Meaning(m, w, rule, NoNames())
  }

  /** The leaf's verdict does not depend on which rule asks. */
  ghost predicate NameBlind(leaf: Leaf, w: World) {
    forall r1, r2 :: Verdict(w, leaf, r1) == Verdict(w, leaf, r2)
  }

  /** Every leaf that goes through the memo is name-blind; leaves under an expression need not be. */
  ghost predicate BlindCondition(m: Matcher, w: World) {
    match m
    case All(ms) => forall i | 0 <= i < |ms| :: BlindCondition(ms[i], w)
    case Any(ms) => forall i | 0 <= i < |ms| :: BlindCondition(ms[i], w)
    case Not(x) => BlindCondition(x, w)
    case Leaf(leaf) => NameBlind(leaf, w)
    case _ => true
  }

  ghost predicate Honest(memo: Memo, w: World) {
    forall leaf, rule | leaf in memo :: memo[leaf] == Verdict(w, leaf, rule)
  }

  lemma {:induction false} MemoisedIsHolds(m: Matcher, w: World, rule: string, memo: Memo)
    requires RefFree(m) && BlindCondition(m, w) && Honest(memo, w)
    ensures Memoised(m, w, rule, memo).0 == Holds(m, w, rule)
    ensures Honest(Memoised(m, w, rule, memo).1, w)
    decreases m, 1
  {
    match m {
      case All(_) => AllOfIsHolds(m, 0, w, rule, memo);
      case Any(_) => AnyOfIsHolds(m, 0, w, rule, memo);
      case Not(x) => MemoisedIsHolds(x, w, rule, memo);
      case _ =>
    }
  }

  lemma {:induction false} AllOfIsHolds(m: Matcher, i: nat, w: World, rule: string, memo: Memo)
    requires m.All? && RefFree(m) && BlindCondition(m, w) && i <= |m.ms| && Honest(memo, w)
    ensures AllOf(m, i, w, rule, memo).0 == forall k | i <= k < |m.ms| :: Holds(m.ms[k], w, rule)
    ensures Honest(AllOf(m, i, w, rule, memo).1, w)
    decreases m, 0, |m.ms| - i
  {
    if i < |m.ms| {
      var (v, after) := Memoised(m.ms[i], w, rule, memo);
      MemoisedIsHolds(m.ms[i], w, rule, memo);
      if v {
        AllOfIsHolds(m, i + 1, w, rule, after);
      }
    }
  }

  lemma {:induction false} AnyOfIsHolds(m: Matcher, i: nat, w: World, rule: string, memo: Memo)
    requires m.Any? && RefFree(m) && BlindCondition(m, w) && i <= |m.ms| && Honest(memo, w)
    ensures AnyOf(m, i, w, rule, memo).0 == exists k :: i <= k < |m.ms| && Holds(m.ms[k], w, rule)
    ensures Honest(AnyOf(m, i, w, rule, memo).1, w)
    decreases m, 0, |m.ms| - i
  {
    if i < |m.ms| {
      var (v, after) := Memoised(m.ms[i], w, rule, memo);
      MemoisedIsHolds(m.ms[i], w, rule, memo);
      if !v {
        AnyOfIsHolds(m, i + 1, w, rule, after);
      }
    }
  }

  /** Asking for one rule and then for another, through one memo, gives the second rule its own answer. */
  ghost predicate MemoServesEveryRule(leaf: Leaf, w: World) {
    forall r1, r2 :: Memoised(Leaf(leaf), w, r2, Memoised(Leaf(leaf), w, r1, map[]).1).0 == Verdict(w, leaf, r2)
  }

  /** The memo is keyed by the leaf alone, so it is right exactly for leaves that do not look at the rule. */
  lemma MemoServesIffNameBlind(leaf: Leaf, w: World)
    ensures MemoServesEveryRule(leaf, w) <==> NameBlind(leaf, w)
  {
    if MemoServesEveryRule(leaf, w) {
      forall r1, r2
        ensures Verdict(w, leaf, r1) == Verdict(w, leaf, r2)
      {
        assert Memoised(Leaf(leaf), w, r2, Memoised(Leaf(leaf), w, r1, map[]).1).0 == Verdict(w, leaf, r2);
      }
    }
    if NameBlind(leaf, w) {
      forall r1, r2
        ensures Memoised(Leaf(leaf), w, r2, Memoised(Leaf(leaf), w, r1, map[]).1).0 == Verdict(w, leaf, r2)
      {
        assert Verdict(w, leaf, r1) == Verdict(w, leaf, r2);
      }
    }
  }

  // ---- Matching as it runs ----

  class ResourceCache {
    var results: Memo

    constructor ()
      ensures results == map[]
    {
      results := map[];
    }
  }

  method Matches(m: Matcher, w: World, rule: string, cache: ResourceCache) returns (v: bool)
    requires RefFree(m)
    modifies cache
    ensures (v, cache.results) == Memoised(m, w, rule, old(cache.results))
    decreases m
  {
    match m
    case All(ms) =>
      for i := 0 to |ms|
        invariant AllOf(m, 0, w, rule, old(cache.results)) == AllOf(m, i, w, rule, cache.results)
      {
        var ok := Matches(ms[i], w, rule, cache);
        if !ok {
          return false;
        }
      }
      v := true;
    case Any(ms) =>
      for i := 0 to |ms|
        invariant AnyOf(m, 0, w, rule, old(cache.results)) == AnyOf(m, i, w, rule, cache.results)
      {
        var ok := Matches(ms[i], w, rule, cache);
        if ok {
          return true;
        }
      }
      v := false;
    case Not(x) =>
      v := Matches(x, w, rule, cache);
      v := !v;
    case LeafExpr(leaf, expr) =>
      v := ExprVerdict(w, leaf, expr, rule);
    case Leaf(leaf) =>
      if leaf in cache.results {
        return cache.results[leaf];
      }
      v := Verdict(w, leaf, rule);
      cache.results := cache.results[leaf := v];
  }
}
