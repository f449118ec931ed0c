/**
 Applying a diff: the three ordered passes over the tables, and what they converge to. Writing a
 declared configuration and reading it back leaves nothing to plan, unless a declaration says
 something the tables cannot hold; and either way every flag evaluates as declared.
 */
module ConfigApply {
  import opened Basics
  import opened FlagModel
  import opened FlagSemantics
  import opened FlagTables
  import opened FlagWrites
  import opened FlagViews
  import opened ConfigDiff

  function FindFlag(flags: seq<Flag>, key: string): Option<Flag> {
    if flags == [] then None else if flags[0].key == key then Some(flags[0]) else FindFlag(flags[1..], key)
  }

  function FindSegment(segments: seq<Segment>, key: string): Option<Segment> {
    if segments == [] then None
    else if segments[0].key == key then Some(segments[0])
    else FindSegment(segments[1..], key)
  }

  // ---- The passes ----

  function ApplyUpsert(t: Tables, c: ConfigChange, flags: seq<Flag>, segments: seq<Segment>): Tables {
    if c.op == Delete then t
    else if c.kind == SegmentTarget then
      match FindSegment(segments, c.key) { case None => t case Some(s) => UpsertSegment(t, s) }
    else
      match FindFlag(flags, c.key) { case None => t case Some(f) => UpsertFlag(t, f) }
  }

  function ApplyUpserts(t: Tables, changes: seq<ConfigChange>, flags: seq<Flag>, segments: seq<Segment>): Tables
    decreases changes
  {
    if changes == [] then t
    else ApplyUpserts(ApplyUpsert(t, changes[0], flags, segments), changes[1..], flags, segments)
  }

  function ApplyFlagDelete(t: Tables, c: ConfigChange): Tables {
    if c.kind == FlagTarget && c.op == Delete then DeleteFlag(t, c.key) else t
  }

  function ApplyFlagDeletes(t: Tables, changes: seq<ConfigChange>): Tables
    decreases changes
  {
    if changes == [] then t else ApplyFlagDeletes(ApplyFlagDelete(t, changes[0]), changes[1..])
  }

  function ApplySegmentDelete(t: Tables, c: ConfigChange): Tables {
    if c.kind == SegmentTarget && c.op == Delete then DeleteSegment(t, c.key) else t
  }

  function ApplySegmentDeletes(t: Tables, changes: seq<ConfigChange>): Tables
    decreases changes
  {
    if changes == [] then t else ApplySegmentDeletes(ApplySegmentDelete(t, changes[0]), changes[1..])
  }

  /** Upserts first, then flag deletes, then segment deletes. */
  function ApplyChanges(t: Tables, changes: seq<ConfigChange>, flags: seq<Flag>, segments: seq<Segment>): Tables {
    ApplySegmentDeletes(ApplyFlagDeletes(ApplyUpserts(t, changes, flags, segments), changes), changes)
  }

  // ---- What the passes leave readable ----

  ghost predicate Upserts(changes: seq<ConfigChange>, kind: TargetKind, key: string) {
    exists c :: c in changes && c.kind == kind && c.key == key && c.op != Delete
  }

  ghost predicate Deletes(changes: seq<ConfigChange>, kind: TargetKind, key: string) {
    exists c :: c in changes && c.kind == kind && c.key == key && c.op == Delete
  }

  /** Every flag the changes write passes the weight check of the tables. */
  ghost predicate WritesStorable(changes: seq<ConfigChange>, flags: seq<Flag>) {
    forall c | c in changes && c.kind == FlagTarget && c.op != Delete ::
      FindFlag(flags, c.key).Some? ==> WeightsStorable(FindFlag(flags, c.key).value.rules)
  }

  /** Every create or update has a declaration behind it, so the pass's lookups succeed. */
  ghost predicate Backed(changes: seq<ConfigChange>, flags: seq<Flag>, segments: seq<Segment>) {
    forall c | c in changes && c.op != Delete ::
      if c.kind == FlagTarget then FindFlag(flags, c.key).Some? else FindSegment(segments, c.key).Some?
  }

  /** `f` is what declaration `d` reads back as after being written over some earlier variants. */
  ghost predicate IsStored(f: Flag, d: Flag) {
    exists live :: VariantKeysDistinct(live) && f == StoredFlag(live, d)
  }

  lemma {:induction false} FindFlagFinds(flags: seq<Flag>, key: string)
    ensures FindFlag(flags, key).Some? <==> Declares(flags, key)
    ensures FindFlag(flags, key).Some? ==> FindFlag(flags, key).value in flags && FindFlag(flags, key).value.key == key
  {
    if flags != [] {
      FindFlagFinds(flags[1..], key);
      if Declares(flags, key) && flags[0].key != key {
        var f :| f in flags && f.key == key;
        assert f in flags[1..];
      }
    }
  }

  lemma {:induction false} FindSegmentFinds(segments: seq<Segment>, key: string)
    ensures FindSegment(segments, key).Some? <==> DeclaresSegment(segments, key)
    ensures FindSegment(segments, key).Some? ==>
              FindSegment(segments, key).value in segments && FindSegment(segments, key).value.key == key
  {
    if segments != [] {
      FindSegmentFinds(segments[1..], key);
      if DeclaresSegment(segments, key) && segments[0].key != key {
        var s :| s in segments && s.key == key;
        assert s in segments[1..];
      }
    }
  }

  lemma LiveVariantsDistinct(t: Tables, key: string)
    requires TablesOk(t)
    ensures VariantKeysDistinct(LiveVariants(t, key))
  {
  }

  lemma ApplyUpsertOk(t: Tables, c: ConfigChange, flags: seq<Flag>, segments: seq<Segment>, k: string)
    requires TablesOk(t) && WritesStorable([c], flags) && Backed([c], flags, segments)
    ensures var u := ApplyUpsert(t, c, flags, segments);
            && TablesOk(u)
            && (if Upserts([c], FlagTarget, k)
                then FlagAt(u, k).Some? && IsStored(FlagAt(u, k).value, FindFlag(flags, k).value)
                else FlagAt(u, k) == FlagAt(t, k))
            && SegmentAt(u, k) == (if Upserts([c], SegmentTarget, k) then FindSegment(segments, k) else SegmentAt(t, k))
  {
    assert c in [c];
    if c.op != Delete {
      if c.kind == SegmentTarget {
        FindSegmentFinds(segments, c.key);
        var s := FindSegment(segments, c.key).value;
        UpsertSegmentOk(t, s);
        UpsertSegmentView(t, s, k);
      } else {
        FindFlagFinds(flags, c.key);
        var f := FindFlag(flags, c.key).value;
        UpsertFlagOk(t, f);
        UpsertFlagView(t, f, k);
        LiveVariantsDistinct(t, k);
      }
    }
  }

  lemma {:induction false} ApplyUpsertsOk(
    t: Tables, changes: seq<ConfigChange>, flags: seq<Flag>, segments: seq<Segment>, k: string)
    requires TablesOk(t) && WritesStorable(changes, flags) && Backed(changes, flags, segments)
    ensures var u := ApplyUpserts(t, changes, flags, segments);
            && TablesOk(u)
            && (if Upserts(changes, FlagTarget, k)
                then FlagAt(u, k).Some? && IsStored(FlagAt(u, k).value, FindFlag(flags, k).value)
                else FlagAt(u, k) == FlagAt(t, k))
            && SegmentAt(u, k) ==
                (if Upserts(changes, SegmentTarget, k) then FindSegment(segments, k) else SegmentAt(t, k))
    decreases changes
  {
    if changes != [] {
      var c := changes[0];
      assert Backed([c], flags, segments) && WritesStorable([c], flags);
      ApplyUpsertOk(t, c, flags, segments, k);
      ApplyUpsertsOk(ApplyUpsert(t, c, flags, segments), changes[1..], flags, segments, k);
      forall kind
        ensures Upserts(changes, kind, k) <==> Upserts([c], kind, k) || Upserts(changes[1..], kind, k)
      {
        assert forall d :: d in changes <==> d in [c] || d in changes[1..];
      }
    }
  }

  lemma {:induction false} ApplyFlagDeletesOk(t: Tables, changes: seq<ConfigChange>, k: string)
    requires TablesOk(t)
    ensures var u := ApplyFlagDeletes(t, changes);
            && TablesOk(u)
            && FlagAt(u, k) == (if Deletes(changes, FlagTarget, k) then None else FlagAt(t, k))
            && SegmentAt(u, k) == SegmentAt(t, k)
    decreases changes
  {
    if changes != [] {
      var c := changes[0];
      if c.kind == FlagTarget && c.op == Delete {
        DeleteFlagOk(t, c.key);
        DeleteFlagView(t, c.key, k);
      }
      ApplyFlagDeletesOk(ApplyFlagDelete(t, c), changes[1..], k);
      assert forall d :: d in changes <==> d == c || d in changes[1..];
    }
  }

  lemma {:induction false} ApplySegmentDeletesOk(t: Tables, changes: seq<ConfigChange>, k: string)
    requires TablesOk(t)
    ensures var u := ApplySegmentDeletes(t, changes);
            && TablesOk(u)
            && SegmentAt(u, k) == (if Deletes(changes, SegmentTarget, k) then None else SegmentAt(t, k))
            && FlagAt(u, k) == FlagAt(t, k)
    decreases changes
  {
    if changes != [] {
      var c := changes[0];
      if c.kind == SegmentTarget && c.op == Delete {
        DeleteSegmentOk(t, c.key);
        DeleteSegmentView(t, c.key, k);
      }
      ApplySegmentDeletesOk(ApplySegmentDelete(t, c), changes[1..], k);
      assert forall d :: d in changes <==> d == c || d in changes[1..];
    }
  }

  lemma ApplyChangesOk(t: Tables, changes: seq<ConfigChange>, flags: seq<Flag>, segments: seq<Segment>, k: string)
    requires TablesOk(t) && WritesStorable(changes, flags) && Backed(changes, flags, segments)
    ensures var u := ApplyChanges(t, changes, flags, segments);
            && TablesOk(u)
            && (if Deletes(changes, FlagTarget, k) then FlagAt(u, k) == None
                else if Upserts(changes, FlagTarget, k) then
                  FlagAt(u, k).Some? && IsStored(FlagAt(u, k).value, FindFlag(flags, k).value)
                else FlagAt(u, k) == FlagAt(t, k))
            && SegmentAt(u, k) == (if Deletes(changes, SegmentTarget, k) then None
                                   else if Upserts(changes, SegmentTarget, k) then FindSegment(segments, k)
                                   else SegmentAt(t, k))
  {
    var t1 := ApplyUpserts(t, changes, flags, segments);
    ApplyUpsertsOk(t, changes, flags, segments, k);
    ApplyFlagDeletesOk(t1, changes, k);
    ApplySegmentDeletesOk(ApplyFlagDeletes(t1, changes), changes, k);
  }

  // ---- Convergence ----

  ghost predicate DistinctFlagKeys(flags: seq<Flag>) {
    forall i, j | 0 <= i < j < |flags| :: flags[i].key != flags[j].key
  }

  ghost predicate DistinctSegmentKeys(segments: seq<Segment>) {
    forall i, j | 0 <= i < j < |segments| :: segments[i].key != segments[j].key
  }

  lemma FindFlagUnique(flags: seq<Flag>, f: Flag)
    requires DistinctFlagKeys(flags) && f in flags
    ensures FindFlag(flags, f.key) == Some(f)
  {
    FindFlagFinds(flags, f.key);
    var g := FindFlag(flags, f.key).value;
    var i :| 0 <= i < |flags| && flags[i] == f;
    var j :| 0 <= j < |flags| && flags[j] == g;
  }

  lemma FindSegmentUnique(segments: seq<Segment>, s: Segment)
    requires DistinctSegmentKeys(segments) && s in segments
    ensures FindSegment(segments, s.key) == Some(s)
  {
    FindSegmentFinds(segments, s.key);
    var g := FindSegment(segments, s.key).value;
    var i :| 0 <= i < |segments| && segments[i] == s;
    var j :| 0 <= j < |segments| && segments[j] == g;
  }

  /** `f` answers to declaration `d`: written from it, or already equal to it. */
  ghost predicate Reflects(f: Flag, d: Flag) {
    f.key == d.key && (IsStored(f, d) || FlagDiffFields(f, d) == [])
  }

  ghost predicate ReconciledAt(t: Tables, flags: seq<Flag>, segments: seq<Segment>, k: string) {
    && SegmentAt(t, k) == FindSegment(segments, k)
    && (FlagAt(t, k).Some? <==> FindFlag(flags, k).Some?)
    && (FlagAt(t, k).Some? ==> Reflects(FlagAt(t, k).value, FindFlag(flags, k).value))
  }

  /** The tables hold the declared configuration and nothing else. */
  ghost predicate Reconciled(t: Tables, flags: seq<Flag>, segments: seq<Segment>) {
    forall k :: ReconciledAt(t, flags, segments, k)
  }

  lemma DiffIsBacked(current: Snapshot, flags: seq<Flag>, segments: seq<Segment>, changes: seq<ConfigChange>)
    requires IsDiff(current, flags, segments, changes)
    ensures Backed(changes, flags, segments)
  {
    forall c | c in changes && c.op != Delete
      ensures if c.kind == FlagTarget then FindFlag(flags, c.key).Some? else FindSegment(segments, c.key).Some?
    {
      assert Wanted(current, flags, segments, c);
      FindFlagFinds(flags, c.key);
      FindSegmentFinds(segments, c.key);
    }
  }

  /** No declaration calls for a delete. */
  lemma DeclarationsNeverDelete(current: Snapshot, flags: seq<Flag>, segments: seq<Segment>, c: ConfigChange)
    requires c.op == Delete
    ensures Wanted(current, flags, segments, c) ==>
              PrunesSegment(current.segments.Keys, segments, c) || PrunesFlag(current.flags.Keys, flags, c)
  {
    forall s | s in segments
      ensures c !in SegmentChange(current, s)
    {
    }
    forall f | f in flags
      ensures c !in FlagChange(current, f)
    {
    }
  }

  /** Which deletes and which upserts the diff holds for one flag key. */
  lemma DiffDeletesFlag(
    current: Snapshot, flags: seq<Flag>, segments: seq<Segment>, changes: seq<ConfigChange>, k: string)
    requires IsDiff(current, flags, segments, changes) && Deletes(changes, FlagTarget, k)
    ensures k in current.flags && FindFlag(flags, k).None?
  {
    FindFlagFinds(flags, k);
    var c :| c in changes && c.kind == FlagTarget && c.key == k && c.op == Delete;
    DeclarationsNeverDelete(current, flags, segments, c);
  }

  lemma DiffFlagDeleted(
    current: Snapshot, flags: seq<Flag>, segments: seq<Segment>, changes: seq<ConfigChange>, k: string)
    requires IsDiff(current, flags, segments, changes) && k in current.flags && FindFlag(flags, k).None?
    ensures Deletes(changes, FlagTarget, k)
  {
    FindFlagFinds(flags, k);
    assert PrunesFlag(current.flags.Keys, flags, ConfigChange(FlagTarget, k, Delete, NoDetail));
    assert Wanted(current, flags, segments, ConfigChange(FlagTarget, k, Delete, NoDetail));
  }

  lemma UpsertOfFlag(current: Snapshot, flags: seq<Flag>, segments: seq<Segment>, c: ConfigChange) returns (f: Flag)
    requires Wanted(current, flags, segments, c) && c.kind == FlagTarget && c.op != Delete
    ensures f in flags && c in FlagChange(current, f) && f.key == c.key
  {
    forall s | s in segments
      ensures c !in SegmentChange(current, s)
    {
    }
    f :| f in flags && c in FlagChange(current, f);
  }

  lemma DiffUpsertsFlag(
    current: Snapshot, flags: seq<Flag>, segments: seq<Segment>, changes: seq<ConfigChange>, k: string)
    requires IsDiff(current, flags, segments, changes) && DistinctFlagKeys(flags)
    requires Upserts(changes, FlagTarget, k)
    ensures FindFlag(flags, k).Some? && FlagChange(current, FindFlag(flags, k).value) != []
  {
    var c :| c in changes && c.kind == FlagTarget && c.key == k && c.op != Delete;
    var f := UpsertOfFlag(current, flags, segments, c);
    FindFlagUnique(flags, f);
  }

  lemma DiffFlagUpserted(
    current: Snapshot, flags: seq<Flag>, segments: seq<Segment>, changes: seq<ConfigChange>, k: string)
    requires IsDiff(current, flags, segments, changes)
    requires FindFlag(flags, k).Some? && FlagChange(current, FindFlag(flags, k).value) != []
    ensures Upserts(changes, FlagTarget, k)
  {
    FindFlagFinds(flags, k);
    var f := FindFlag(flags, k).value;
    var c := FlagChange(current, f)[0];
    assert c in FlagChange(current, f);
    assert Wanted(current, flags, segments, c);
  }

  lemma DiffDeletesSegment(
    current: Snapshot, flags: seq<Flag>, segments: seq<Segment>, changes: seq<ConfigChange>, k: string)
    requires IsDiff(current, flags, segments, changes) && Deletes(changes, SegmentTarget, k)
    ensures k in current.segments && FindSegment(segments, k).None?
  {
    FindSegmentFinds(segments, k);
    var c :| c in changes && c.kind == SegmentTarget && c.key == k && c.op == Delete;
    DeclarationsNeverDelete(current, flags, segments, c);
  }

  lemma DiffSegmentDeleted(
    current: Snapshot, flags: seq<Flag>, segments: seq<Segment>, changes: seq<ConfigChange>, k: string)
    requires IsDiff(current, flags, segments, changes) && k in current.segments && FindSegment(segments, k).None?
    ensures Deletes(changes, SegmentTarget, k)
  {
    FindSegmentFinds(segments, k);
    assert PrunesSegment(current.segments.Keys, segments, ConfigChange(SegmentTarget, k, Delete, NoDetail));
    assert Wanted(current, flags, segments, ConfigChange(SegmentTarget, k, Delete, NoDetail));
  }

  lemma UpsertOfSegment(
    current: Snapshot, flags: seq<Flag>, segments: seq<Segment>, c: ConfigChange)
    returns (s: Segment)
    requires Wanted(current, flags, segments, c) && c.kind == SegmentTarget && c.op != Delete
    ensures s in segments && c in SegmentChange(current, s) && s.key == c.key
  {
    forall f | f in flags
      ensures c !in FlagChange(current, f)
    {
    }
    s :| s in segments && c in SegmentChange(current, s);
  }

  lemma DiffUpsertsSegment(
    current: Snapshot, flags: seq<Flag>, segments: seq<Segment>, changes: seq<ConfigChange>, k: string)
    requires IsDiff(current, flags, segments, changes) && DistinctSegmentKeys(segments)
    requires Upserts(changes, SegmentTarget, k)
    ensures FindSegment(segments, k).Some? && SegmentChange(current, FindSegment(segments, k).value) != []
  {
    var c :| c in changes && c.kind == SegmentTarget && c.key == k && c.op != Delete;
    var s := UpsertOfSegment(current, flags, segments, c);
    FindSegmentUnique(segments, s);
  }

  lemma DiffSegmentUpserted(
    current: Snapshot, flags: seq<Flag>, segments: seq<Segment>, changes: seq<ConfigChange>, k: string)
    requires IsDiff(current, flags, segments, changes)
    requires FindSegment(segments, k).Some? && SegmentChange(current, FindSegment(segments, k).value) != []
    ensures Upserts(changes, SegmentTarget, k)
  {
    FindSegmentFinds(segments, k);
    var s := FindSegment(segments, k).value;
    var c := SegmentChange(current, s)[0];
    assert c in SegmentChange(current, s);
    assert Wanted(current, flags, segments, c);
  }

  /** What the diff does at one key settles what the passes leave there. */
  lemma ConvergesAtFlag(
    t: Tables, current: Snapshot, flags: seq<Flag>, segments: seq<Segment>, changes: seq<ConfigChange>, k: string)
    requires TablesOk(t) && WritesStorable(changes, flags) && DistinctFlagKeys(flags)
    requires Reads(current, t) && WellKeyed(current) && IsDiff(current, flags, segments, changes)
    ensures var u := ApplyChanges(t, changes, flags, segments);
            && (FlagAt(u, k).Some? <==> FindFlag(flags, k).Some?)
            && (FlagAt(u, k).Some? ==> Reflects(FlagAt(u, k).value, FindFlag(flags, k).value))
  {
    DiffIsBacked(current, flags, segments, changes);
    ApplyChangesOk(t, changes, flags, segments, k);
    assert Get(current.flags, k) == FlagAt(t, k);
    FindFlagFinds(flags, k);
    if Deletes(changes, FlagTarget, k) {
      DiffDeletesFlag(current, flags, segments, changes, k);
    } else if Upserts(changes, FlagTarget, k) {
      DiffUpsertsFlag(current, flags, segments, changes, k);
    } else {
      if k in current.flags && FindFlag(flags, k).None? {
        DiffFlagDeleted(current, flags, segments, changes, k);
      }
      if FindFlag(flags, k).Some? && FlagChange(current, FindFlag(flags, k).value) != [] {
        DiffFlagUpserted(current, flags, segments, changes, k);
      }
    }
  }

  lemma ConvergesAtSegment(
    t: Tables, current: Snapshot, flags: seq<Flag>, segments: seq<Segment>, changes: seq<ConfigChange>, k: string)
    requires TablesOk(t) && WritesStorable(changes, flags) && DistinctSegmentKeys(segments)
    requires Reads(current, t) && WellKeyed(current) && IsDiff(current, flags, segments, changes)
    ensures SegmentAt(ApplyChanges(t, changes, flags, segments), k) == FindSegment(segments, k)
  {
    DiffIsBacked(current, flags, segments, changes);
    ApplyChangesOk(t, changes, flags, segments, k);
    assert Get(current.segments, k) == SegmentAt(t, k);
    FindSegmentFinds(segments, k);
    if Deletes(changes, SegmentTarget, k) {
      DiffDeletesSegment(current, flags, segments, changes, k);
    } else if Upserts(changes, SegmentTarget, k) {
      DiffUpsertsSegment(current, flags, segments, changes, k);
    } else {
      if k in current.segments && FindSegment(segments, k).None? {
        DiffSegmentDeleted(current, flags, segments, changes, k);
      }
      if FindSegment(segments, k).Some? && SegmentChange(current, FindSegment(segments, k).value) != [] {
        DiffSegmentUpserted(current, flags, segments, changes, k);
      }
    }
  }

  /** The passes turn the state the diff was taken against into the declared one. */
  lemma ApplyConverges(
    t: Tables, current: Snapshot, flags: seq<Flag>, segments: seq<Segment>, changes: seq<ConfigChange>)
    requires TablesOk(t) && WritesStorable(changes, flags) && DistinctFlagKeys(flags) && DistinctSegmentKeys(segments)
    requires Reads(current, t) && WellKeyed(current) && IsDiff(current, flags, segments, changes)
    ensures TablesOk(ApplyChanges(t, changes, flags, segments))
    ensures Reconciled(ApplyChanges(t, changes, flags, segments), flags, segments)
  {
    DiffIsBacked(current, flags, segments, changes);
    ApplyChangesOk(t, changes, flags, segments, "");
    forall k
      ensures ReconciledAt(ApplyChanges(t, changes, flags, segments), flags, segments, k)
    {
      ConvergesAtFlag(t, current, flags, segments, changes, k);
      ConvergesAtSegment(t, current, flags, segments, changes, k);
    }
  }

  // ---- When a second plan is empty ----

  ghost predicate NoEmptyGroups(rules: seq<Rule>) {
    forall r | r in rules :: forall g | g in r.constraintGroups :: g.constraints != []
  }

  /** The tables can hold the flag as declared: no variant key twice, no empty constraint group. */
  ghost predicate Representable(d: Flag) {
    VariantKeysDistinct(d.variants) && NoEmptyGroups(d.rules)
  }

  lemma {:induction false} NonEmptyGroupsFacts(groups: seq<ConstraintGroup>)
    ensures forall g | g in NonEmptyGroups(groups) :: g in groups && g.constraints != []
    ensures forall g | g in groups && g.constraints != [] :: g in NonEmptyGroups(groups)
    ensures NonEmptyGroups(groups) == groups <==> forall g | g in groups :: g.constraints != []
  {
    if groups != [] {
      NonEmptyGroupsFacts(groups[1..]);
      assert groups == [groups[0]] + groups[1..];
      if forall g | g in groups :: g.constraints != [] {
        assert forall g | g in groups[1..] :: g in groups;
      }
    }
  }

  lemma {:induction false} GroupsFromNonEmpty(rows: seq<Row<Constraint>>, i: nat, bound: nat)
    ensures forall g | g in GroupsFrom(rows, i, bound) :: g.constraints != []
    decreases bound - i
  {
    if i < bound {
      GroupsFromNonEmpty(rows, i + 1, bound);
    }
  }

  lemma {:induction false} RulesOfNonEmpty(t: Tables, rows: seq<RuleRow>)
    ensures forall r | r in RulesOf(t, rows) :: forall g | g in r.constraintGroups :: g.constraints != []
  {
    if rows != [] {
      RulesOfNonEmpty(t, rows[1..]);
      var cs := RowsOf(t.ruleConstraints, rows[0].id);
      GroupsFromNonEmpty(cs, 0, GroupBound(cs));
    }
  }

  /** Whatever the tables hold is representable. */
  lemma StoredStateIsRepresentable(t: Tables, k: string)
    requires TablesOk(t) && FlagAt(t, k).Some?
    ensures Representable(FlagAt(t, k).value)
  {
    var r := FindKeyed(t.flags, k).value;
    RulesOfNonEmpty(t, SortByRank(RowsOf(t.rules, r.id)));
  }

  /** Equality with a representable flag is possible only for a representable declaration. */
  lemma EqualToRepresentable(f: Flag, d: Flag)
    requires Representable(f) && FlagDiffFields(f, d) == []
    ensures Representable(d)
  {
    FlagDiffEmptyIffEqual(f, d);
    VariantsEqualMeaning(f.variants, d.variants);
    if !VariantKeysDistinct(d.variants) {
      var k := RepeatedKeyShows(d.variants);
      DistinctHasOneValue(f.variants, k);
      assert false;
    }
    forall r | r in d.rules
      ensures forall g | g in r.constraintGroups :: g.constraints != []
    {
      var i :| 0 <= i < |d.rules| && d.rules[i] == r;
      assert f.rules[i].(rank := 0) == d.rules[i].(rank := 0);
      assert f.rules[i] in f.rules && f.rules[i].constraintGroups == r.constraintGroups;
    }
  }

  lemma {:induction false} FindAfterMerge(live: seq<Variant>, v: Variant, k: string)
    ensures FindVariant(MergeVariant(live, v), k) == if k == v.key then Some(v) else FindVariant(live, k)
  {
    if live != [] {
      if live[0].key == v.key {
        assert MergeVariant(live, v)[1..] == live[1..];
      } else {
        assert MergeVariant(live, v)[1..] == MergeVariant(live[1..], v);
        FindAfterMerge(live[1..], v, k);
      }
    }
  }

  lemma {:induction false} FindAfterMerges(live: seq<Variant>, vs: seq<Variant>, k: string)
    requires VariantKeysDistinct(vs)
    ensures FindVariant(MergeVariants(live, vs), k) ==
            if FindVariant(vs, k).Some? then FindVariant(vs, k) else FindVariant(live, k)
    decreases vs
  {
    if vs != [] {
      FindAfterMerge(live, vs[0], k);
      FindAfterMerges(MergeVariant(live, vs[0]), vs[1..], k);
      FindVariantFinds(vs[1..], k);
    }
  }

  lemma {:induction false} FindAfterKeep(live: seq<Variant>, keys: seq<string>, k: string)
    ensures FindVariant(KeepKeys(live, keys), k) == if k in keys then FindVariant(live, k) else None
  {
    if live != [] {
      FindAfterKeep(live[1..], keys, k);
      if live[0].key in keys {
        assert KeepKeys(live, keys)[1..] == KeepKeys(live[1..], keys);
      }
    }
  }

  /** Writing distinct variants over any others leaves exactly the written ones. */
  lemma StoredVariantsEqual(live: seq<Variant>, vs: seq<Variant>)
    requires VariantKeysDistinct(live) && VariantKeysDistinct(vs)
    ensures VariantsEqual(StoredVariants(live, vs), vs)
  {
    var kept := KeepKeys(live, VariantKeys(vs));
    KeepKeysDistinct(live, VariantKeys(vs));
    MergeVariantsDistinct(kept, vs);
    forall k
      ensures FindVariant(StoredVariants(live, vs), k) == FindVariant(vs, k)
    {
      FindAfterMerges(kept, vs, k);
      FindAfterKeep(live, VariantKeys(vs), k);
      FindVariantFinds(vs, k);
      if k in VariantKeys(vs) {
        var i :| 0 <= i < |vs| && vs[i].key == k;
        assert vs[i] in vs;
      }
    }
    DistinctEqualIffLookupsAgree(StoredVariants(live, vs), vs);
  }

  lemma StoredVariantsDistinct(live: seq<Variant>, vs: seq<Variant>)
    requires VariantKeysDistinct(live)
    ensures VariantKeysDistinct(StoredVariants(live, vs))
  {
    KeepKeysDistinct(live, VariantKeys(vs));
    MergeVariantsDistinct(KeepKeys(live, VariantKeys(vs)), vs);
  }

  lemma StoredVariantsEqualIff(live: seq<Variant>, vs: seq<Variant>)
    requires VariantKeysDistinct(live)
    ensures VariantsEqual(StoredVariants(live, vs), vs) <==> VariantKeysDistinct(vs)
  {
    if VariantKeysDistinct(vs) {
      StoredVariantsEqual(live, vs);
    } else {
      var k := RepeatedKeyShows(vs);
      StoredVariantsDistinct(live, vs);
      DistinctHasOneValue(StoredVariants(live, vs), k);
      VariantsEqualMeaning(StoredVariants(live, vs), vs);
    }
  }

  lemma StoredRulesEqualIff(rules: seq<Rule>)
    ensures RulesEqual(StoredRules(rules), rules) <==> NoEmptyGroups(rules)
  {
    var stored := StoredRules(rules);
    forall i | 0 <= i < |rules|
      ensures stored[i].(rank := 0) == rules[i].(rank := 0) <==>
              forall g | g in rules[i].constraintGroups :: g.constraints != []
    {
      NonEmptyGroupsFacts(rules[i].constraintGroups);
      assert stored[i].(rank := 0).constraintGroups == NonEmptyGroups(rules[i].constraintGroups);
      assert rules[i].(rank := 0).constraintGroups == rules[i].constraintGroups;
    }
    if RulesEqual(stored, rules) {
      forall r | r in rules
        ensures forall g | g in r.constraintGroups :: g.constraints != []
      {
        var i :| 0 <= i < |rules| && rules[i] == r;
        assert stored[i].(rank := 0) == rules[i].(rank := 0);
      }
    }
    if NoEmptyGroups(rules) {
      assert forall i | 0 <= i < |rules| :: rules[i] in rules;
    }
  }

  /** The fields in which the tables cannot hold the flag as declared. */
  ghost function LostFields(d: Flag): seq<Field> {
    (if VariantKeysDistinct(d.variants) then [] else [VariantsField]) +
    (if NoEmptyGroups(d.rules) then [] else [RulesField])
  }

  function FieldIf(differs: bool, field: Field): seq<Field> {
    if differs then [field] else []
  }

  lemma DifferingFieldsStep(f: Flag, d: Flag, field: Field, rest: seq<Field>)
    ensures DifferingFields(f, d, [field] + rest) ==
            FieldIf(DiffersIn(f, d, field), field) + DifferingFields(f, d, rest)
  {
    assert ([field] + rest)[1..] == rest;
  }

  lemma OnlyTheseDiffer(f: Flag, d: Flag)
    requires f.valueType == d.valueType && f.enabled == d.enabled
    requires f.defaultVariantKey == d.defaultVariantKey && f.archived == d.archived
    ensures FlagDiffFields(f, d) == DifferingFields(f, d, [VariantsField, RulesField])
  {
    var last := [VariantsField, RulesField];
    assert FLAG_FIELDS == [ValueTypeField] + ([EnabledField] + ([DefaultVariantField] + ([ArchivedField] + last)));
    DifferingFieldsStep(f, d, ArchivedField, last);
    DifferingFieldsStep(f, d, DefaultVariantField, [ArchivedField] + last);
    DifferingFieldsStep(f, d, EnabledField, [DefaultVariantField] + ([ArchivedField] + last));
    DifferingFieldsStep(f, d, ValueTypeField, [EnabledField] + ([DefaultVariantField] + ([ArchivedField] + last)));
  }

  lemma LastFieldsAre(f: Flag, d: Flag)
    ensures DifferingFields(f, d, [VariantsField, RulesField]) ==
              FieldIf(!VariantsEqual(f.variants, d.variants), VariantsField) +
                  FieldIf(!RulesEqual(f.rules, d.rules), RulesField)
  {
    DifferingFieldsStep(f, d, VariantsField, [RulesField]);
    DifferingFieldsStep(f, d, RulesField, []);
    assert [VariantsField] + [RulesField] == [VariantsField, RulesField] && [RulesField] + [] == [RulesField];
  }

  /** A written flag differs from its declaration in exactly those fields, whatever was there before. */
  lemma StoredDiffIsLostFields(live: seq<Variant>, d: Flag)
    requires VariantKeysDistinct(live)
    ensures FlagDiffFields(StoredFlag(live, d), d) == LostFields(d)
  {
    StoredVariantsEqualIff(live, d.variants);
    StoredRulesEqualIff(d.rules);
    OnlyTheseDiffer(StoredFlag(live, d), d);
    LastFieldsAre(StoredFlag(live, d), d);
  }

  /** A written flag differs from its declaration exactly when the declaration is not representable. */
  lemma StoredDiffEmptyIffRepresentable(live: seq<Variant>, d: Flag)
    requires VariantKeysDistinct(live)
    ensures FlagDiffFields(StoredFlag(live, d), d) == [] <==> Representable(d)
  {
    StoredDiffIsLostFields(live, d);
  }

  lemma ReconciledKeys(t: Tables, current: Snapshot, flags: seq<Flag>, segments: seq<Segment>, k: string)
    requires Reconciled(t, flags, segments) && Reads(current, t)
    ensures k in current.segments <==> DeclaresSegment(segments, k)
    ensures k in current.flags <==> Declares(flags, k)
  {
    assert ReconciledAt(t, flags, segments, k);
    assert Get(current.flags, k) == FlagAt(t, k) && Get(current.segments, k) == SegmentAt(t, k);
    FindFlagFinds(flags, k);
    FindSegmentFinds(segments, k);
  }

  lemma ReconciledSegmentDiff(t: Tables, current: Snapshot, flags: seq<Flag>, segments: seq<Segment>, s: Segment)
    requires Reconciled(t, flags, segments) && Reads(current, t) && DistinctSegmentKeys(segments) && s in segments
    ensures s.key in current.segments && SegmentDiffFields(current.segments[s.key], s) == []
  {
    assert ReconciledAt(t, flags, segments, s.key);
    assert Get(current.segments, s.key) == SegmentAt(t, s.key);
    FindSegmentUnique(segments, s);
  }

  lemma ReconciledFlagDiff(t: Tables, current: Snapshot, flags: seq<Flag>, segments: seq<Segment>, d: Flag)
    requires TablesOk(t) && Reconciled(t, flags, segments) && Reads(current, t) && DistinctFlagKeys(flags) && d in flags
    ensures d.key in current.flags
    ensures FlagDiffFields(current.flags[d.key], d) == LostFields(d)
  {
    assert ReconciledAt(t, flags, segments, d.key);
    assert Get(current.flags, d.key) == FlagAt(t, d.key);
    FindFlagUnique(flags, d);
    ReflectionDiff(t, d);
  }

  /** A reconciled state agrees with its declarations exactly when each of them is representable. */
  lemma ReconciledAgreesIff(t: Tables, current: Snapshot, flags: seq<Flag>, segments: seq<Segment>)
    requires TablesOk(t) && Reconciled(t, flags, segments) && Reads(current, t)
    requires DistinctFlagKeys(flags) && DistinctSegmentKeys(segments)
    ensures Agrees(current, flags, segments) <==> forall d | d in flags :: Representable(d)
  {
    forall k
      ensures k in current.segments <==> DeclaresSegment(segments, k)
      ensures k in current.flags <==> Declares(flags, k)
    {
      ReconciledKeys(t, current, flags, segments, k);
    }
    forall s | s in segments
      ensures s.key in current.segments && SegmentDiffFields(current.segments[s.key], s) == []
    {
      ReconciledSegmentDiff(t, current, flags, segments, s);
    }
    forall d | d in flags
      ensures d.key in current.flags && (FlagDiffFields(current.flags[d.key], d) == [] <==> Representable(d))
    {
      ReconciledFlagDiff(t, current, flags, segments, d);
    }
  }

  /** After an apply, planning again finds nothing to do exactly when every declared flag is representable. */
  lemma SecondPlanEmptyIff(
    t: Tables, current: Snapshot, flags: seq<Flag>, segments: seq<Segment>, again: seq<ConfigChange>)
    requires TablesOk(t) && Reconciled(t, flags, segments) && Reads(current, t)
    requires DistinctFlagKeys(flags) && DistinctSegmentKeys(segments)
    requires IsDiff(current, flags, segments, again)
    ensures again == [] <==> forall d | d in flags :: Representable(d)
  {
    DiffEmptyIffAgrees(current, flags, segments, again);
    ReconciledAgreesIff(t, current, flags, segments);
  }

  /** `c` updates a declared flag in the fields in which the tables cannot hold it. */
  ghost predicate RepeatsUpdate(flags: seq<Flag>, c: ConfigChange) {
    exists d :: d in flags && !Representable(d) && c == ConfigChange(FlagTarget, d.key, Update, Fields(LostFields(d)))
  }

  /**
   What every plan after an apply holds: one update for each declared flag that is not representable, in the
   fields that are lost, and nothing else. It is fixed by the declarations alone, so applying it changes
   nothing about the next plan.
   */
  lemma LaterPlansRepeat(
    t: Tables, current: Snapshot, flags: seq<Flag>, segments: seq<Segment>, again: seq<ConfigChange>)
    requires TablesOk(t) && Reconciled(t, flags, segments) && Reads(current, t)
    requires DistinctFlagKeys(flags) && DistinctSegmentKeys(segments)
    requires IsDiff(current, flags, segments, again)
    ensures forall c :: c in again <==> RepeatsUpdate(flags, c)
  {
    forall c
      ensures Wanted(current, flags, segments, c) <==> RepeatsUpdate(flags, c)
    {
      ReconciledKeys(t, current, flags, segments, c.key);
      forall s | s in segments
        ensures SegmentChange(current, s) == []
      {
        ReconciledSegmentDiff(t, current, flags, segments, s);
      }
      forall d | d in flags
        ensures FlagChange(current, d) ==
                  if Representable(d) then [] else [ConfigChange(FlagTarget, d.key, Update, Fields(LostFields(d)))]
      {
        ReconciledFlagDiff(t, current, flags, segments, d);
      }
    }
  }

  /** Applying such a plan leads to the same plan once more. */
  lemma ApplyingAgainRepeats(
    t: Tables, current: Snapshot, flags: seq<Flag>, segments: seq<Segment>, again: seq<ConfigChange>,
    version: int, third: seq<ConfigChange>)
    requires TablesOk(t) && Reconciled(t, flags, segments) && Reads(current, t) && WellKeyed(current)
    requires DistinctFlagKeys(flags) && DistinctSegmentKeys(segments)
    requires IsDiff(current, flags, segments, again) && WritesStorable(again, flags)
    requires IsDiff(Assemble(version, ApplyChanges(t, again, flags, segments)), flags, segments, third)
    ensures forall c :: c in third <==> c in again
  {
    var u := ApplyChanges(t, again, flags, segments);
    ApplyConverges(t, current, flags, segments, again);
    LaterPlansRepeat(t, current, flags, segments, again);
    LaterPlansRepeat(u, Assemble(version, u), flags, segments, third);
  }

  lemma ReflectionDiff(t: Tables, d: Flag)
    requires TablesOk(t) && FlagAt(t, d.key).Some? && Reflects(FlagAt(t, d.key).value, d)
    ensures FlagDiffFields(FlagAt(t, d.key).value, d) == LostFields(d)
  {
    var f := FlagAt(t, d.key).value;
    if FlagDiffFields(f, d) == [] {
      StoredStateIsRepresentable(t, d.key);
      EqualToRepresentable(f, d);
    } else {
      var live :| VariantKeysDistinct(live) && f == StoredFlag(live, d);
      StoredDiffIsLostFields(live, d);
    }
  }

  /** A flag whose one rule has an empty constraint group. */
  function FlagWithEmptyGroup(): Flag {
    Flag("f", Boolean, true, "on", false, [Variant("on", Bool(true))],
        [Rule(0, None, Some("on"), [], [ConstraintGroup([])], "")])
  }

  lemma EmptyGroupIsApplied(changes: seq<ConfigChange>)
    requires IsDiff(Assemble(1, EMPTY), [FlagWithEmptyGroup()], [], changes)
    ensures var u := ApplyChanges(EMPTY, changes, [FlagWithEmptyGroup()], []);
            TablesOk(u) && Reconciled(u, [FlagWithEmptyGroup()], [])
  {
    var d := FlagWithEmptyGroup();
    assert WeightsStorable(d.rules) by {
      forall r | r in d.rules
        ensures r.distributions == []
      {
        assert r == d.rules[0];
      }
    }
    ApplyConverges(EMPTY, Assemble(1, EMPTY), [d], [], changes);
  }

  lemma EmptyGroupIsLost()
    ensures !Representable(FlagWithEmptyGroup()) && LostFields(FlagWithEmptyGroup()) == [RulesField]
  {
    var d := FlagWithEmptyGroup();
    assert d.rules[0] in d.rules && d.rules[0].constraintGroups[0] in d.rules[0].constraintGroups;
    assert d.rules[0].constraintGroups[0].constraints == [];
  }

  /** Applied to an empty store, that flag does not converge: the next plan updates its rules again. */
  lemma EmptyGroupDoesNotConverge(changes: seq<ConfigChange>, again: seq<ConfigChange>)
    requires IsDiff(Assemble(1, EMPTY), [FlagWithEmptyGroup()], [], changes)
    requires IsDiff(Assemble(2, ApplyChanges(EMPTY, changes, [FlagWithEmptyGroup()], [])), [FlagWithEmptyGroup()], [],
            again)
    ensures forall c :: c in again <==> c == ConfigChange(FlagTarget, "f", Update, Fields([RulesField]))
  {
    var d := FlagWithEmptyGroup();
    EmptyGroupIsApplied(changes);
    EmptyGroupIsLost();
    var u := ApplyChanges(EMPTY, changes, [d], []);
    LaterPlansRepeat(u, Assemble(2, u), [d], [], again);
    assert d in [d];
  }

  // ---- What was declared is what evaluates ----

  /** The declared configuration, read as a snapshot of its own. */
  function Declared(version: int, flags: seq<Flag>, segments: seq<Segment>): Snapshot {
    Snapshot(version,
             map k | k in (set f | f in flags :: f.key) && FindFlag(flags, k).Some? :: FindFlag(flags, k).value,
             map k | k in (set s | s in segments :: s.key) && FindSegment(segments, k).Some? ::
                 FindSegment(segments, k).value)
  }

  /** Rules that differ at most in rank and in empty constraint groups. */
  ghost predicate SimilarRules(a: Rule, b: Rule) {
    a.(rank := 0, constraintGroups := []) == b.(rank := 0, constraintGroups := []) &&
    NonEmptyGroups(a.constraintGroups) == NonEmptyGroups(b.constraintGroups)
  }

  ghost predicate SimilarFlags(f: Flag, d: Flag) {
    && f.(variants := [], rules := []) == d.(variants := [], rules := [])
    && SameLookups(f.variants, d.variants)
    && |f.rules| == |d.rules|
    && forall i | 0 <= i < |f.rules| :: SimilarRules(f.rules[i], d.rules[i])
  }

  lemma {:induction false} NonEmptyGroupsTwice(groups: seq<ConstraintGroup>)
    ensures NonEmptyGroups(NonEmptyGroups(groups)) == NonEmptyGroups(groups)
  {
    NonEmptyGroupsFacts(groups);
    NonEmptyGroupsFacts(NonEmptyGroups(groups));
  }

  lemma ReflectionIsSimilar(t: Tables, d: Flag)
    requires TablesOk(t) && FlagAt(t, d.key).Some? && Reflects(FlagAt(t, d.key).value, d) &&
            VariantKeysDistinct(d.variants)
    ensures SimilarFlags(FlagAt(t, d.key).value, d)
  {
    var f := FlagAt(t, d.key).value;
    StoredStateIsRepresentable(t, d.key);
    if IsStored(f, d) {
      var live :| VariantKeysDistinct(live) && f == StoredFlag(live, d);
      StoredVariantsEqual(live, d.variants);
      forall i | 0 <= i < |f.rules|
        ensures SimilarRules(f.rules[i], d.rules[i])
      {
        NonEmptyGroupsTwice(d.rules[i].constraintGroups);
      }
    } else {
      FlagDiffEmptyIffEqual(f, d);
      forall i | 0 <= i < |f.rules|
        ensures SimilarRules(f.rules[i], d.rules[i])
      {
        assert f.rules[i].(rank := 0) == d.rules[i].(rank := 0);
        assert f.rules[i].(rank := 0).constraintGroups == d.rules[i].(rank := 0).constraintGroups;
      }
    }
    DistinctEqualIffLookupsAgree(f.variants, d.variants);
  }

  /** Two engines over the same foreign code whose snapshots are similar flag by flag. */
  ghost predicate SimilarEngines(e1: Engine, e2: Engine) {
    && e1.prim == e2.prim
    && e1.snapshot.segments == e2.snapshot.segments
    && e1.snapshot.flags.Keys == e2.snapshot.flags.Keys
    && forall k | k in e1.snapshot.flags :: SimilarFlags(e1.snapshot.flags[k], e2.snapshot.flags[k])
  }

  lemma SimilarRulesMatch(
    e1: Engine, e2: Engine, a: Rule, b: Rule, ctx: EvalContext, f1: string -> Outcome, f2: string -> Outcome)
    requires SimilarEngines(e1, e2) && SimilarRules(a, b) && forall k :: f1(k) == f2(k)
    ensures RuleMatches(e1, a, ctx, f1) == RuleMatches(e2, b, ctx, f2)
  {
    var none := a.(rank := 0, constraintGroups := []);
    assert a.segmentKey == none.segmentKey == b.segmentKey;
    NonEmptyGroupsFacts(a.constraintGroups);
    NonEmptyGroupsFacts(b.constraintGroups);
    forall g: ConstraintGroup
      ensures GroupMatches(e1.prim, g, ctx, f1) == GroupMatches(e2.prim, g, ctx, f2)
    {
      forall c | c in g.constraints
        ensures ConstraintMatches(e1.prim, c, ctx, f1) == ConstraintMatches(e2.prim, c, ctx, f2)
      {
      }
    }
    assert SegmentOk(e1, a, ctx) == SegmentOk(e2, b, ctx);
    MatchIgnoresEmptyGroups(e1, a.constraintGroups, ctx, f1);
    MatchIgnoresEmptyGroups(e2, b.constraintGroups, ctx, f2);
  }

  /** Only non-empty groups can block a rule. */
  lemma MatchIgnoresEmptyGroups(e: Engine, groups: seq<ConstraintGroup>, ctx: EvalContext, flags: string -> Outcome)
    ensures (forall g | g in groups :: GroupMatches(e.prim, g, ctx, flags))
       <==> (forall g | g in NonEmptyGroups(groups) :: GroupMatches(e.prim, g, ctx, flags))
  {
    NonEmptyGroupsFacts(groups);
  }

  lemma {:induction false} SimilarRulesResolve(
    e1: Engine, e2: Engine, a: Flag, b: Flag, key: string, i: nat, ctx: EvalContext, f1: string -> Outcome,
    f2: string -> Outcome)
    requires SimilarEngines(e1, e2) && SimilarFlags(a, b) && i <= |a.rules| && forall k :: f1(k) == f2(k)
    ensures ResolveRules(e1, a, key, a.rules[i..], ctx, f1) == ResolveRules(e2, b, key, b.rules[i..], ctx, f2)
    decreases |a.rules| - i
  {
    var blank := a.(variants := [], rules := []);
    assert a.defaultVariantKey == blank.defaultVariantKey == b.defaultVariantKey;
    assert a.key == blank.key == b.key;
    if i < |a.rules| {
      var ra, rb := a.rules[i], b.rules[i];
      assert SimilarRules(ra, rb);
      var bare := ra.(rank := 0, constraintGroups := []);
      assert ra.distributions == bare.distributions == rb.distributions;
      assert ra.variantKey == bare.variantKey == rb.variantKey;
      assert ra.bucketSalt == bare.bucketSalt == rb.bucketSalt;
      SimilarRulesMatch(e1, e2, ra, rb, ctx, f1, f2);
      SimilarRulesResolve(e1, e2, a, b, key, i + 1, ctx, f1, f2);
      assert a.rules[i..][1..] == a.rules[i + 1..] && b.rules[i..][1..] == b.rules[i + 1..];
    }
  }

  lemma {:induction false} SimilarEnginesEvaluate(
    e1: Engine, e2: Engine, key: string, ctx: EvalContext, stack: seq<string>)
    requires SimilarEngines(e1, e2)
    ensures Evaluate(e1, key, ctx, stack) == Evaluate(e2, key, ctx, stack)
    decreases Unvisited(e1.snapshot, stack)
  {
    if key !in stack && key in e1.snapshot.flags {
      var a, b := e1.snapshot.flags[key], e2.snapshot.flags[key];
      var blank := a.(variants := [], rules := []);
      assert a.archived == blank.archived == b.archived && a.enabled == blank.enabled == b.enabled;
      assert a.defaultVariantKey == blank.defaultVariantKey == b.defaultVariantKey && a.key == blank.key == b.key;
      var inner := stack + [key];
      assert key in Unvisited(e1.snapshot, stack) && key !in Unvisited(e1.snapshot, inner);
      forall k
        ensures FlagsUnder(e1, ctx, inner)(k) == FlagsUnder(e2, ctx, inner)(k)
      {
        SimilarEnginesEvaluate(e1, e2, k, ctx, inner);
      }
      SimilarRulesResolve(e1, e2, a, b, key, 0, ctx, FlagsUnder(e1, ctx, inner), FlagsUnder(e2, ctx, inner));
      assert a.rules[0..] == a.rules && b.rules[0..] == b.rules;
    }
  }

  lemma ReconciledIsSimilar(
    t: Tables, live: Snapshot, version: int, flags: seq<Flag>, segments: seq<Segment>, k: string)
    requires TablesOk(t) && Reconciled(t, flags, segments) && Reads(live, t)
    requires forall d | d in flags :: VariantKeysDistinct(d.variants)
    ensures var declared := Declared(version, flags, segments);
            && Get(live.segments, k) == Get(declared.segments, k)
            && (k in live.flags <==> k in declared.flags)
            && (k in live.flags ==> SimilarFlags(live.flags[k], declared.flags[k]))
  {
    assert ReconciledAt(t, flags, segments, k);
    assert Get(live.flags, k) == FlagAt(t, k) && Get(live.segments, k) == SegmentAt(t, k);
    FindFlagFinds(flags, k);
    FindSegmentFinds(segments, k);
    if k in live.flags {
      ReflectionIsSimilar(t, FindFlag(flags, k).value);
    }
  }

  /**
   Reading back a reconciled state evaluates every flag as its declaration says, in every
   context: rank, variant order and the loss of empty groups never show.
   */
  lemma ReconciledEvaluatesAsDeclared(t: Tables, live: Snapshot, version: int, flags: seq<Flag>, segments: seq<Segment>,
                                      prim: Primitives, key: string, ctx: EvalContext, stack: seq<string>)
    requires TablesOk(t) && Reconciled(t, flags, segments) && Reads(live, t)
    requires forall d | d in flags :: VariantKeysDistinct(d.variants)
    ensures Evaluate(Engine(live, prim), key, ctx, stack)
         == Evaluate(Engine(Declared(version, flags, segments), prim), key, ctx, stack)
  {
    var declared := Declared(version, flags, segments);
    forall k
      ensures Get(live.segments, k) == Get(declared.segments, k)
      ensures k in live.flags <==> k in declared.flags
      ensures k in live.flags ==> SimilarFlags(live.flags[k], declared.flags[k])
    {
      ReconciledIsSimilar(t, live, version, flags, segments, k);
    }
    SameGets(live.segments, declared.segments);
    SimilarEnginesEvaluate(Engine(live, prim), Engine(declared, prim), key, ctx, stack);
  }
}
