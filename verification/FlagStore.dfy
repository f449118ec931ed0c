/**
 The store's write path as it runs: statement-by-statement writers inside a transaction, and
 `apply_config` from validation to commit. The snapshot it plans against is whatever the load
 returned; only the version check ties it to the state being written.
 */
module FlagStore {
  import opened Basics
  import opened FlagModel
  import opened FlagTables
  import opened FlagWrites
  import opened FlagValidation
  import opened ConfigDiff
  import opened ConfigApply

  lemma OwnedConcat<V>(id: nat, a: seq<V>, b: seq<V>)
    ensures Owned(id, a + b) == Owned(id, a) + Owned(id, b)
  {
  }

  /** Uncommitted tables, and how many statements have fired the version trigger. */
  class Transaction {
    var t: Tables
    var bumps: nat

    constructor (start: Tables)
      ensures t == start && bumps == 0
    {
      t, bumps := start, 0;
    }

    method UpsertSegmentTx(s: Segment)
      modifies this
      ensures t == UpsertSegment(old(t), s)
      ensures bumps > old(bumps)
    {
      var id := IdFor(t.segments, s.key, t.nextId);
      t := t.(segments := PutKeyed(t.segments, s.key, t.nextId, s.name), nextId := t.nextId + 1);
      t := t.(segmentConstraints := Without(t.segmentConstraints, {id}));
      bumps := bumps + 2;
      ghost var kept := t;
      for i := 0 to |s.constraints|
        invariant t == kept.(segmentConstraints := kept.segmentConstraints + Owned(id, s.constraints[..i]))
        invariant bumps > old(bumps)
      {
        assert s.constraints[..i + 1] == s.constraints[..i] + [s.constraints[i]];
        OwnedConcat(id, s.constraints[..i], [s.constraints[i]]);
        assert Owned(id, [s.constraints[i]]) == [Row(id, s.constraints[i])];
        ghost var before := t.segmentConstraints;
        t := t.(segmentConstraints := t.segmentConstraints + [Row(id, s.constraints[i])]);
        bumps := bumps + 1;
        assert t.segmentConstraints == kept.segmentConstraints + Owned(id, s.constraints[..i + 1]);
      }
      assert s.constraints[..|s.constraints|] == s.constraints;
    }

    /** Fails, leaving the transaction to be rolled back, when a weight breaks its CHECK. */
    method UpsertFlagTx(flag: Flag) returns (ok: bool)
      modifies this
      ensures ok <==> WeightsStorable(flag.rules)
      ensures ok ==> t == UpsertFlag(old(t), flag)
      ensures bumps > old(bumps)
    {
      var id := IdFor(t.flags, flag.key, t.nextId);
      t := t.(flags := PutKeyed(t.flags, flag.key, t.nextId,
                                FlagCols(flag.valueType, flag.enabled, flag.defaultVariantKey, flag.archived)),
              nextId := t.nextId + 1);
      var keys := VariantKeys(flag.variants);
      t := t.(variants := KeepVariants(t.variants, id, keys));
      bumps := bumps + 2;
      ghost var kept := t;
      for i := 0 to |flag.variants|
        invariant t == kept.(variants := t.variants)
        invariant PutVariants(t.variants, id, flag.variants[i..]) == PutVariants(kept.variants, id, flag.variants)
        invariant bumps > old(bumps)
      {
        t := t.(variants := PutVariant(t.variants, id, flag.variants[i]));
        bumps := bumps + 1;
      }
      ok := ReplaceRulesTx(id, flag.rules);
    }

    method ReplaceRulesTx(flagId: nat, rules: seq<Rule>) returns (ok: bool)
      modifies this
      ensures ok <==> WeightsStorable(rules)
      ensures ok ==> t == ReplaceRules(old(t), flagId, rules)
      ensures bumps > old(bumps)
    {
      t := DeleteRules(t, flagId);
      bumps := bumps + 1;
      ghost var cleared := t;
      for rank := 0 to |rules|
        invariant InsertRules(t, flagId, rules, rank) == InsertRules(cleared, flagId, rules, 0)
        invariant forall j | 0 <= j < rank :: forall d | d in rules[j].distributions :: d.weight <= 100
        invariant bumps > old(bumps)
      {
        ok := InsertRuleTx(flagId, rules[rank], rank);
        if !ok {
          assert rules[rank] in rules;
          return;
        }
      }
      ok := true;
    }

    method InsertRuleTx(flagId: nat, rule: Rule, rank: nat) returns (ok: bool)
      modifies this
      ensures ok <==> forall d | d in rule.distributions :: d.weight <= 100
      ensures ok ==> t == InsertRule(old(t), flagId, rule, rank)
      ensures bumps > old(bumps)
    {
      var id := t.nextId;
      t := t.(rules := t.rules + [Row(flagId, RuleRowFor(id, rule, rank))], nextId := id + 1);
      bumps := bumps + 1;
      ghost var base := t;
      for i := 0 to |rule.distributions|
        invariant t == base.(distributions := base.distributions + Owned(id, rule.distributions[..i]))
        invariant forall j | 0 <= j < i :: rule.distributions[j].weight <= 100
        invariant bumps > old(bumps)
      {
        var d := rule.distributions[i];
        if d.weight > 100 {
          assert d in rule.distributions;
          return false;
        }
        assert rule.distributions[..i + 1] == rule.distributions[..i] + [d];
        OwnedConcat(id, rule.distributions[..i], [d]);
        assert Owned(id, [d]) == [Row(id, d)];
        t := t.(distributions := t.distributions + [Row(id, d)]);
        bumps := bumps + 1;
        assert t.distributions == base.distributions + Owned(id, rule.distributions[..i + 1]);
      }
      assert rule.distributions[..|rule.distributions|] == rule.distributions;
      InsertConstraintsTx(id, rule.constraintGroups);
      ok := true;
    }

    method InsertConstraintsTx(id: nat, groups: seq<ConstraintGroup>)
      modifies this
      ensures t == old(t).(ruleConstraints := old(t.ruleConstraints) + Owned(id, GroupRows(groups, 0)))
      ensures bumps >= old(bumps)
    {
      ghost var base := t;
      for g := 0 to |groups|
        invariant t == base.(ruleConstraints := t.ruleConstraints)
        invariant t.ruleConstraints + Owned(id, GroupRows(groups, g)) ==
                base.ruleConstraints + Owned(id, GroupRows(groups, 0))
        invariant bumps >= old(bumps)
      {
        var cs := groups[g].constraints;
        ghost var before := t.ruleConstraints;
        for i := 0 to |cs|
          invariant t == base.(ruleConstraints := before + Owned(id, Owned(g, cs[..i])))
          invariant bumps >= old(bumps)
        {
          assert cs[..i + 1] == cs[..i] + [cs[i]];
          OwnedConcat(g, cs[..i], [cs[i]]);
          OwnedConcat(id, Owned(g, cs[..i]), Owned(g, [cs[i]]));
          assert Owned(id, Owned(g, [cs[i]])) == [Row(id, Row(g, cs[i]))];
          t := t.(ruleConstraints := t.ruleConstraints + [Row(id, Row(g, cs[i]))]);
          bumps := bumps + 1;
          assert t.ruleConstraints == before + Owned(id, Owned(g, cs[..i + 1]));
        }
        assert cs[..|cs|] == cs;
        OwnedConcat(id, Owned(g, cs), GroupRows(groups, g + 1));
        assert before + (Owned(id, Owned(g, cs)) + Owned(id, GroupRows(groups, g + 1)))
            == t.ruleConstraints + Owned(id, GroupRows(groups, g + 1));
      }
      assert t.ruleConstraints + [] == t.ruleConstraints;
    }

    method UpsertPass(changes: seq<ConfigChange>, flags: seq<Flag>, segments: seq<Segment>) returns (ok: bool)
      requires Backed(changes, flags, segments)
      modifies this
      ensures ok <==> WritesStorable(changes, flags)
      ensures ok ==> t == ApplyUpserts(old(t), changes, flags, segments)
      ensures bumps >= old(bumps)
      ensures ok && (exists c :: c in changes && c.op != Delete) ==> bumps > old(bumps)
    {
      ghost var start := t;
      for i := 0 to |changes|
        invariant ApplyUpserts(t, changes[i..], flags, segments) == ApplyUpserts(start, changes, flags, segments)
        invariant WritesStorable(changes[..i], flags)
        invariant bumps >= old(bumps)
        invariant (exists c :: c in changes[..i] && c.op != Delete) ==> bumps > old(bumps)
      {
        var c := changes[i];
        assert c in changes;
        assert changes[i..][0] == c && changes[i..][1..] == changes[i + 1..];
        assert changes[..i + 1] == changes[..i] + [c];
        if c.op != Delete {
          if c.kind == SegmentTarget {
            UpsertSegmentTx(FindSegment(segments, c.key).value);
          } else {
            ok := UpsertFlagTx(FindFlag(flags, c.key).value);
            if !ok {
              return;
            }
          }
        }
      }
      assert changes[..|changes|] == changes;
      ok := true;
    }

    method DeleteFlagsPass(changes: seq<ConfigChange>)
      modifies this
      ensures t == ApplyFlagDeletes(old(t), changes)
      ensures bumps >= old(bumps)
      ensures (exists c :: c in changes && c.kind == FlagTarget && c.op == Delete) ==> bumps > old(bumps)
    {
      ghost var start := t;
      for i := 0 to |changes|
        invariant ApplyFlagDeletes(t, changes[i..]) == ApplyFlagDeletes(start, changes)
        invariant bumps >= old(bumps)
        invariant (exists c :: c in changes[..i] && c.kind == FlagTarget && c.op == Delete) ==> bumps > old(bumps)
      {
        var c := changes[i];
        assert changes[i..][0] == c && changes[i..][1..] == changes[i + 1..];
        assert changes[..i + 1] == changes[..i] + [c];
        if c.kind == FlagTarget && c.op == Delete {
          t := DeleteFlag(t, c.key);
          bumps := bumps + 1;
        }
      }
      assert changes[..|changes|] == changes;
    }

    method DeleteSegmentsPass(changes: seq<ConfigChange>)
      modifies this
      ensures t == ApplySegmentDeletes(old(t), changes)
      ensures bumps >= old(bumps)
      ensures (exists c :: c in changes && c.kind == SegmentTarget && c.op == Delete) ==> bumps > old(bumps)
    {
      ghost var start := t;
      for i := 0 to |changes|
        invariant ApplySegmentDeletes(t, changes[i..]) == ApplySegmentDeletes(start, changes)
        invariant bumps >= old(bumps)
        invariant (exists c :: c in changes[..i] && c.kind == SegmentTarget && c.op == Delete) ==> bumps > old(bumps)
      {
        var c := changes[i];
        assert changes[i..][0] == c && changes[i..][1..] == changes[i + 1..];
        assert changes[..i + 1] == changes[..i] + [c];
        if c.kind == SegmentTarget && c.op == Delete {
          t := DeleteSegment(t, c.key);
          bumps := bumps + 1;
        }
      }
      assert changes[..|changes|] == changes;
    }

    /** The three passes of an apply. Each change found its declaration when the diff was made. */
    method ApplyAll(changes: seq<ConfigChange>, flags: seq<Flag>, segments: seq<Segment>) returns (ok: bool)
      requires Backed(changes, flags, segments)
      modifies this
      ensures ok <==> WritesStorable(changes, flags)
      ensures ok ==> t == ApplyChanges(old(t), changes, flags, segments)
      ensures ok && changes != [] ==> bumps > old(bumps)
    {
      ok := UpsertPass(changes, flags, segments);
      if ok {
        DeleteFlagsPass(changes);
        DeleteSegmentsPass(changes);
        assert changes != [] ==> changes[0] in changes;
      }
    }
  }

  datatype AppError = Invalid(fault: InvalidConfig) | Aborted | Rejected

  datatype ApplyOutcome = ApplyOutcome(changes: seq<ConfigChange>, fromVersion: int, toVersion: int, applied: bool)

  class Store {
    var tables: Tables
    var version: int

    constructor (initial: Tables, v: int)
      ensures tables == initial && version == v
    {
      tables, version := initial, v;
    }

    /**
     `apply_config` once `load_snapshot` has returned `current`. An expected version of 0 skips that check.
     The version to report is read after the commit, when other writers may have taken it `others` further.
     */
    method ApplyConfig(
      current: Snapshot, flags: seq<Flag>, segments: seq<Segment>, dryRun: bool, expectedVersion: int, others: nat)
      returns (r: Result<ApplyOutcome, AppError>)
      modifies this
      ensures r.Ok? ==> (forall f | f in flags :: FlagAccepted(f)) && IsDiff(current, flags, segments, r.value.changes)
      ensures r.Ok? && (dryRun || r.value.changes == []) ==>
                && r.value == ApplyOutcome(r.value.changes, current.version, current.version, !dryRun)
                && tables == old(tables) && version == old(version)
      ensures r.Ok? && !dryRun && r.value.changes != [] ==>
                && old(version) == current.version && (expectedVersion != 0 ==> expectedVersion == old(version))
                && tables == ApplyChanges(old(tables), r.value.changes, flags, segments)
                && WritesStorable(r.value.changes, flags)
                && version > old(version)
                && r.value == ApplyOutcome(r.value.changes, current.version, version + others, true)
      ensures r.Err? ==> tables == old(tables) && version == old(version)
      ensures r.Err? && r.error.Invalid? <==> exists f :: f in flags && !FlagAccepted(f)
      ensures r.Err? && r.error.Aborted? ==>
                !dryRun &&
                    (old(version) != current.version || (expectedVersion != 0 && expectedVersion != old(version)))
      ensures r.Err? && r.error.Rejected? ==>
                !dryRun && old(version) == current.version && exists f :: f in flags && !WeightsStorable(f.rules)
    {
      var valid := ValidateDesired(flags);
      if valid.Err? {
        return Err(Invalid(valid.error));
      }
      var changes := DiffConfig(current, flags, segments);
      if dryRun || changes == [] {
        return Ok(ApplyOutcome(changes, current.version, current.version, !dryRun));
      }
      var tx := new Transaction(tables);
      var locked := version;
      if locked != current.version || (expectedVersion != 0 && locked != expectedVersion) {
        return Err(Aborted);
      }
      DiffIsBacked(current, flags, segments, changes);
      var ok := tx.ApplyAll(changes, flags, segments);
      if !ok {
        ghost var c :| c in changes && c.kind == FlagTarget && FindFlag(flags, c.key).Some? &&
            !WeightsStorable(FindFlag(flags, c.key).value.rules);
        FindFlagFinds(flags, c.key);
        return Err(Rejected);
      }
      tables, version := tx.t, version + tx.bumps;
      return Ok(ApplyOutcome(changes, current.version, version + others, true));
    }
  }
}
