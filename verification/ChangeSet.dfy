/** Which flags a config change is reported to touch, and why a client may trust the report. */
module ChangeSet {
  import opened Basics
  import opened FlagModel
  import opened FlagSemantics
  import opened FlagMeaning

  ghost predicate SegmentChanged(before: Snapshot, after: Snapshot, k: string) {
    Get(before.segments, k) != Get(after.segments, k)
  }

  /** Some rule of `f` names a segment that changed. */
  ghost predicate Touched(before: Snapshot, after: Snapshot, f: Flag) {
    exists r :: r in f.rules && r.segmentKey.Some? && SegmentChanged(before, after, r.segmentKey.value)
  }

  /** The report: flags added, removed or modified, and flags naming a segment that changed. */
  ghost predicate Reported(before: Snapshot, after: Snapshot, key: string) {
    || Get(before.flags, key) != Get(after.flags, key)
    || exists k :: k in after.flags && after.flags[k].key == key && Touched(before, after, after.flags[k])
  }

  // ---- Ordered sets of keys ----

  ghost predicate KeysAscend(keys: seq<string>) {
    forall i, j | 0 <= i < j < |keys| :: StringLess(keys[i], keys[j])
  }

  /** Insertion into a set kept in ascending order. */
  function InsertKey(keys: seq<string>, k: string): seq<string> {
    if keys == [] || StringLess(k, keys[0]) then [k] + keys
    else if keys[0] == k then keys
    else [keys[0]] + InsertKey(keys[1..], k)
  }

  lemma {:induction false} InsertKeyFacts(keys: seq<string>, k: string)
    requires KeysAscend(keys)
    ensures KeysAscend(InsertKey(keys, k))
    ensures forall x :: x in InsertKey(keys, k) <==> x == k || x in keys
  {
    if keys == [] {
    } else if StringLess(k, keys[0]) {
      FirstIsLeast(keys, k);
    } else if keys[0] != k {
      var rest := InsertKey(keys[1..], k);
      InsertKeyFacts(keys[1..], k);
      StringLessTotal(k, keys[0]);
      assert keys == [keys[0]] + keys[1..];
      forall j | 0 <= j < |rest|
        ensures StringLess(keys[0], rest[j])
      {
        assert rest[j] in rest;
      }
    }
  }

  lemma FirstIsLeast(keys: seq<string>, k: string)
    requires KeysAscend(keys) && keys != [] && StringLess(k, keys[0])
    ensures KeysAscend([k] + keys)
  {
    forall j | 0 < j < |keys|
      ensures StringLess(k, keys[j])
    {
      StringLessTransitive(k, keys[0], keys[j]);
    }
  }

  /** The report as a list: every reported key once, in ascending order. */
  ghost predicate ReportOf(before: Snapshot, after: Snapshot, keys: seq<string>) {
    KeysAscend(keys) && forall k :: k in keys <==> Reported(before, after, k)
  }

  /** What a replica broadcasts when it swaps snapshots. */
  datatype ConfigUpdate = ConfigUpdate(version: int, changed: seq<string>)

  method ChangedFlagKeys(before: Snapshot, after: Snapshot) returns (changed: seq<string>)
    ensures ReportOf(before, after, changed)
  {
    changed := [];
    var flagKeys := before.flags.Keys + after.flags.Keys;
    ghost var seen: set<string> := {};
    while flagKeys != {}
      invariant flagKeys + seen == before.flags.Keys + after.flags.Keys
      invariant KeysAscend(changed)
      invariant forall k :: k in changed <==> k in seen && Get(before.flags, k) != Get(after.flags, k)
      decreases flagKeys
    {
      var key :| key in flagKeys;
      if Get(before.flags, key) != Get(after.flags, key) {
        InsertKeyFacts(changed, key);
        changed := InsertKey(changed, key);
      }
      flagKeys, seen := flagKeys - {key}, seen + {key};
    }

    assert forall k :: k in changed <==> Get(before.flags, k) != Get(after.flags, k);

    var changedSegments := set k | k in before.segments.Keys + after.segments.Keys &&
        Get(before.segments, k) != Get(after.segments, k);
    assert forall k :: k in changedSegments <==> SegmentChanged(before, after, k);
    if changedSegments != {} {
      var keys := after.flags.Keys;
      ghost var direct := changed;
      seen := {};
      while keys != {}
        invariant keys + seen == after.flags.Keys
        invariant KeysAscend(changed)
        invariant forall k :: k in changed <==>
            k in direct || exists n ::
                n in seen && n in after.flags && after.flags[n].key == k && Touched(before, after, after.flags[n])
        decreases keys
      {
        var n :| n in keys;
        var flag := after.flags[n];
        var touched := exists r | r in flag.rules :: r.segmentKey.Some? && r.segmentKey.value in changedSegments;
        assert touched == Touched(before, after, flag);
        if touched {
          InsertKeyFacts(changed, flag.key);
          changed := InsertKey(changed, flag.key);
        }
        keys, seen := keys - {n}, seen + {n};
      }
    }
  }

  /**
   A flag that is not reported, and reaches no reported flag, evaluates the same in both
   snapshots: for every context and from every stack, whatever else changed.
   */
  lemma UnreportedFlagsAreUnchanged(prim: Primitives, before: Snapshot, after: Snapshot, key: string,
                                    ctx: EvalContext, stack: seq<string>)
    requires WellKeyed(after)
    requires forall k | Reaches(before, key, k) :: !Reported(before, after, k)
    ensures Evaluate(Engine(before, prim), key, ctx, stack) == Evaluate(Engine(after, prim), key, ctx, stack)
  {
    var e1, e2 := Engine(before, prim), Engine(after, prim);
    forall k | Reaches(before, key, k)
      ensures SameFlag(e1, e2, k)
    {
      assert Get(before.flags, k) == Get(after.flags, k);
      if k in before.flags {
        assert k in after.flags && after.flags[k].key == k;
        assert !Touched(before, after, after.flags[k]);
      }
    }
    EvaluationIsLocal(e1, e2, key, ctx, stack, stack);
  }

  /** The report alone is not closed under prerequisites: a flag can change its answer unreported. */
  lemma DependentsAreNotReported(prim: Primitives, ctx: EvalContext)
    ensures var off := Switch("base", []);
            var before := Snapshot(1, map["base" := off, "top" := Switch("top", [Prerequisite("base", "on", "on")])],
                map[]);
            var after := before.(version := 2, flags := before.flags["base" := off.(defaultVariantKey := "on")]);
            && !Reported(before, after, "top")
            && Evaluate(Engine(before, prim), "top", ctx, []) != Evaluate(Engine(after, prim), "top", ctx, [])
  {
    var off := Switch("base", []);
    var top := Switch("top", [Prerequisite("base", "on", "on")]);
    var before := Snapshot(1, map["base" := off, "top" := top], map[]);
    var after := before.(version := 2, flags := before.flags["base" := off.(defaultVariantKey := "on")]);
    var e1, e2 := Engine(before, prim), Engine(after, prim);
    SwitchFollows(e1, "top", "base", "on", ctx, FlagsUnder(e1, ctx, [] + ["top"]));
    SwitchFollows(e2, "top", "base", "on", ctx, FlagsUnder(e2, ctx, [] + ["top"]));
    assert off.variants[0] == Variant("on", Bool(true)) && off.variants[1..] == [Variant("off", Bool(false))];
    assert FindVariant(off.variants, "off") == FindVariant(off.variants[1..], "off") ==
        Some(Variant("off", Bool(false)));
    assert Evaluate(e1, "base", ctx, [] + ["top"]) == ResolveVariant(off, "off", Default);
    assert Evaluate(e2, "base", ctx, [] + ["top"]) == ResolveVariant(off.(defaultVariantKey := "on"), "on", Default);
  }
}
