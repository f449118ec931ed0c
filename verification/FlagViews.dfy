/** How each whole-flag and whole-segment write moves the configuration that a read assembles. */
module FlagViews {
  import opened Basics
  import opened FlagModel
  import opened FlagTables
  import opened FlagWrites

  function LiveVariants(t: Tables, key: string): seq<Variant> {
    match FlagAt(t, key)
    case None => []
    case Some(f) => f.variants
  }

  lemma KeyedBoundGrows<V(!new)>(t: seq<Keyed<V>>, a: nat, b: nat)
    requires KeyedOk(t, a) && a <= b
    ensures KeyedOk(t, b)
  {
  }

  lemma OwnersGrow<V(!new)>(t: seq<Row<V>>, a: set<nat>, b: set<nat>)
    requires OwnersIn(t, a) && a <= b
    ensures OwnersIn(t, b)
  {
  }

  // ---- Upserting a flag ----

  lemma PutFlagRowOk(t: Tables, flag: Flag)
    requires TablesOk(t)
    ensures TablesOk(PutFlagRow(t, flag))
    ensures IdFor(t.flags, flag.key, t.nextId) in IdsOf(PutFlagRow(t, flag).flags)
    ensures RowsOf(t.variants, IdFor(t.flags, flag.key, t.nextId)) == LiveVariants(t, flag.key)
  {
    var u := PutFlagRow(t, flag);
    var cols := FlagCols(flag.valueType, flag.enabled, flag.defaultVariantKey, flag.archived);
    PutKeyedOk(t.flags, flag.key, t.nextId, cols);
    KeyedBoundGrows(t.segments, t.nextId, u.nextId);
    OwnersGrow(t.variants, IdsOf(t.flags), IdsOf(u.flags));
    OwnersGrow(t.rules, IdsOf(t.flags), IdsOf(u.flags));
    FindAfterPut(t.flags, flag.key, t.nextId, cols, flag.key);
    FindKeyedFinds(u.flags, flag.key);
    FindKeyedFinds(t.flags, flag.key);
    if FindKeyed(t.flags, flag.key).None? {
      NoOwnerNoRows(t.variants, t.nextId);
    }
  }

  lemma PutFlagVariantsOk(t: Tables, id: nat, vs: seq<Variant>)
    requires TablesOk(t) && id in IdsOf(t.flags)
    ensures TablesOk(PutFlagVariants(t, id, vs))
    ensures forall j: nat :: RowsOf(PutFlagVariants(t, id, vs).variants, j) ==
              if j == id then StoredVariants(RowsOf(t.variants, j), vs) else RowsOf(t.variants, j)
  {
    var kept := KeepVariants(t.variants, id, VariantKeys(vs));
    var u := PutFlagVariants(t, id, vs);
    forall j: nat
      ensures RowsOf(u.variants, j) == if j == id then StoredVariants(RowsOf(t.variants, j), vs)
              else RowsOf(t.variants, j)
      ensures VariantKeysDistinct(RowsOf(u.variants, j))
      ensures forall r | r in u.variants :: r.owner == id || r in t.variants
    {
      KeepVariantsRows(t.variants, id, VariantKeys(vs), j);
      PutVariantsRows(kept, id, vs, j);
      KeepKeysDistinct(RowsOf(t.variants, j), VariantKeys(vs));
      MergeVariantsDistinct(KeepKeys(RowsOf(t.variants, j), VariantKeys(vs)), vs);
    }
    assert VariantKeysDistinct(RowsOf(u.variants, 0));
  }

  lemma ReplaceRulesOk(t: Tables, id: nat, rules: seq<Rule>)
    requires TablesOk(t) && id in IdsOf(t.flags) && WeightsStorable(rules)
    ensures var u := ReplaceRules(t, id, rules);
            && TablesOk(u)
            && u == t.(rules := u.rules, distributions := u.distributions, ruleConstraints := u.ruleConstraints,
                nextId := u.nextId)
  {
    var d := DeleteRules(t, id);
    DeleteRulesOk(t, id);
    InsertRulesKeepOk(d, id, rules, 0);
    var u := ReplaceRules(t, id, rules);
    KeyedBoundGrows(t.flags, t.nextId, u.nextId);
    KeyedBoundGrows(t.segments, t.nextId, u.nextId);
  }

  /** The flag whose rules were replaced reads back the stored form of the new rules. */
  lemma ReplacedRulesRead(t: Tables, id: nat, rules: seq<Rule>)
    requires TablesOk(t) && id in IdsOf(t.flags) && WeightsStorable(rules)
    ensures var u := ReplaceRules(t, id, rules);
            RulesOf(u, SortByRank(RowsOf(u.rules, id))) == StoredRules(rules)
  {
    var d := DeleteRules(t, id);
    DeleteRulesOk(t, id);
    InsertRulesRows(d, id, rules, 0, id);
    NewRuleRowsSorted(d.nextId, rules, 0);
    InsertedRulesRead(d, id, rules);
    assert [] + NewRuleRows(d.nextId, rules, 0) == NewRuleRows(d.nextId, rules, 0);
  }

  /** Every other flag reads as before. */
  lemma ReplaceRulesFrame(t: Tables, id: nat, rules: seq<Rule>, r: Keyed<FlagCols>)
    requires TablesOk(t) && id in IdsOf(t.flags) && r.id != id && WeightsStorable(rules)
    ensures FlagOf(ReplaceRules(t, id, rules), r) == FlagOf(t, r)
  {
    var d, u := DeleteRules(t, id), ReplaceRules(t, id, rules);
    ReplaceRulesOk(t, id, rules);
    DeleteRulesOk(t, id);
    InsertRulesRows(d, id, rules, 0, r.id);
    assert RowsOf(d.rules, r.id) + [] == RowsOf(d.rules, r.id);
    forall rr | rr in RowsOf(t.rules, r.id)
      ensures SameRuleRows(t, u, rr.id)
    {
      RowsOfMember(t.rules, r.id, rr);
      assert SameRuleRows(t, d, Row(r.id, rr).val.id);
      InsertRulesFrame(d, id, rules, 0, rr.id);
    }
    FlagOfFrame(t, u, r);
  }

  lemma UpsertFlagOk(t: Tables, flag: Flag)
    requires TablesOk(t) && WeightsStorable(flag.rules)
    ensures TablesOk(UpsertFlag(t, flag))
    ensures forall k :: SegmentAt(UpsertFlag(t, flag), k) == SegmentAt(t, k)
  {
    var id := IdFor(t.flags, flag.key, t.nextId);
    PutFlagRowOk(t, flag);
    PutFlagVariantsOk(PutFlagRow(t, flag), id, flag.variants);
    ReplaceRulesOk(PutFlagVariants(PutFlagRow(t, flag), id, flag.variants), id, flag.rules);
  }

  /** An upsert replaces what is read under its key and nothing else. */
  lemma UpsertFlagView(t: Tables, flag: Flag, k: string)
    requires TablesOk(t) && WeightsStorable(flag.rules)
    ensures FlagAt(UpsertFlag(t, flag), k) ==
            if k == flag.key then Some(StoredFlag(LiveVariants(t, k), flag)) else FlagAt(t, k)
  {
    var id := IdFor(t.flags, flag.key, t.nextId);
    var cols := FlagCols(flag.valueType, flag.enabled, flag.defaultVariantKey, flag.archived);
    var t1 := PutFlagRow(t, flag);
    var t2 := PutFlagVariants(t1, id, flag.variants);
    var t3 := UpsertFlag(t, flag);
    PutFlagRowOk(t, flag);
    PutFlagVariantsOk(t1, id, flag.variants);
    ReplaceRulesOk(t2, id, flag.rules);
    FindAfterPut(t.flags, flag.key, t.nextId, cols, k);
    if k == flag.key {
      ReplacedRulesRead(t2, id, flag.rules);
    } else if FindKeyed(t.flags, k).Some? {
      var r := FindKeyed(t.flags, k).value;
      FindKeyedFinds(t.flags, k);
      FindKeyedFinds(t.flags, flag.key);
      IdsTellKeysApart(t.flags, t.nextId, r, flag.key);
      ReplaceRulesFrame(t2, id, flag.rules, r);
      FlagOfFrame(t, t2, r);
    }
  }

  lemma IdsTellKeysApart<V(!new)>(t: seq<Keyed<V>>, bound: nat, r: Keyed<V>, key: string)
    requires KeyedOk(t, bound) && r in t && r.key != key
    ensures r.id != IdFor(t, key, bound)
  {
    FindKeyedFinds(t, key);
    if FindKeyed(t, key).Some? {
      var s := FindKeyed(t, key).value;
      var i :| 0 <= i < |t| && t[i] == r;
      var j :| 0 <= j < |t| && t[j] == s;
    }
  }

  // ---- Deleting a flag ----

  lemma DeleteFlagOk(t: Tables, key: string)
    requires TablesOk(t)
    ensures TablesOk(DeleteFlag(t, key))
    ensures forall k :: SegmentAt(DeleteFlag(t, key), k) == SegmentAt(t, k)
  {
    FindKeyedFinds(t.flags, key);
    if FindKeyed(t.flags, key).Some? {
      var r := FindKeyed(t.flags, key).value;
      DeleteRulesOk(t, r.id);
      RemoveKeyedOk(t.flags, key, t.nextId);
      var u := DeleteFlag(t, key);
      forall q: Keyed<FlagCols> | q in t.flags && q.id != r.id
        ensures q in u.flags
      {
        RemoveKeyedMember(t.flags, key, q);
      }
      forall v | v in u.variants
        ensures v.owner in IdsOf(u.flags)
      {
        WithoutIsSubset(t.variants, {r.id}, v);
        var q :| q in t.flags && q.id == v.owner;
        assert q in u.flags;
      }
      forall id: nat
        ensures VariantKeysDistinct(RowsOf(u.variants, id))
      {
        RowsOfWithout(t.variants, {r.id}, id);
      }
      forall x | x in u.rules
        ensures x.owner in IdsOf(u.flags)
      {
        var q :| q in t.flags && q.id == x.owner by {
          WithoutIsSubset(t.rules, {r.id}, x);
        }
        assert q in u.flags;
      }
    }
  }

  lemma DeleteFlagView(t: Tables, key: string, k: string)
    requires TablesOk(t)
    ensures FlagAt(DeleteFlag(t, key), k) == if k == key then None else FlagAt(t, k)
  {
    FindKeyedFinds(t.flags, key);
    if FindKeyed(t.flags, key).Some? {
      var r := FindKeyed(t.flags, key).value;
      var u := DeleteFlag(t, key);
      FindAfterRemove(t.flags, key, k);
      if k != key && FindKeyed(t.flags, k).Some? {
        var q := FindKeyed(t.flags, k).value;
        FindKeyedFinds(t.flags, k);
        IdsTellKeysApart(t.flags, t.nextId, q, key);
        DeleteRulesOk(t, r.id);
        RowsOfWithout(t.variants, {r.id}, q.id);
        forall rr | rr in RowsOf(t.rules, q.id)
          ensures SameRuleRows(t, u, rr.id)
        {
          RowsOfMember(t.rules, q.id, rr);
          assert SameRuleRows(t, DeleteRules(t, r.id), Row(q.id, rr).val.id);
        }
        FlagOfFrame(t, u, q);
      }
    }
  }

  // ---- Segments ----

  lemma UpsertSegmentOk(t: Tables, s: Segment)
    requires TablesOk(t)
    ensures TablesOk(UpsertSegment(t, s))
    ensures forall k :: FlagAt(UpsertSegment(t, s), k) == FlagAt(t, k)
  {
    var u := UpsertSegment(t, s);
    var id := IdFor(t.segments, s.key, t.nextId);
    PutKeyedOk(t.segments, s.key, t.nextId, s.name);
    KeyedBoundGrows(t.flags, t.nextId, u.nextId);
    FindAfterPut(t.segments, s.key, t.nextId, s.name, s.key);
    FindKeyedFinds(u.segments, s.key);
    forall c | c in u.segmentConstraints
      ensures c.owner in IdsOf(u.segments)
    {
      WithoutIsSubset(t.segmentConstraints, {id}, c);
    }
    forall k
      ensures FlagAt(u, k) == FlagAt(t, k)
    {
      if FindKeyed(t.flags, k).Some? {
        FlagOfFrame(t, u, FindKeyed(t.flags, k).value);
      }
    }
  }

  lemma UpsertSegmentView(t: Tables, s: Segment, k: string)
    requires TablesOk(t)
    ensures SegmentAt(UpsertSegment(t, s), k) == if k == s.key then Some(s) else SegmentAt(t, k)
  {
    var id := IdFor(t.segments, s.key, t.nextId);
    FindAfterPut(t.segments, s.key, t.nextId, s.name, k);
    FindKeyedFinds(t.segments, k);
    if FindKeyed(t.segments, k).Some? && k != s.key {
      IdsTellKeysApart(t.segments, t.nextId, FindKeyed(t.segments, k).value, s.key);
    }
    var j := IdFor(t.segments, k, t.nextId);
    RowsOfAppend(Without(t.segmentConstraints, {id}), Owned(id, s.constraints), j);
    RowsOfWithout(t.segmentConstraints, {id}, j);
    RowsOfOwned(id, s.constraints, j);
    assert [] + s.constraints == s.constraints;
    assert RowsOf(t.segmentConstraints, j) + [] == RowsOf(t.segmentConstraints, j);
  }

  lemma DeleteSegmentOk(t: Tables, key: string)
    requires TablesOk(t)
    ensures TablesOk(DeleteSegment(t, key))
    ensures forall k :: FlagAt(DeleteSegment(t, key), k) == FlagAt(t, k)
  {
    FindKeyedFinds(t.segments, key);
    if FindKeyed(t.segments, key).Some? {
      var r := FindKeyed(t.segments, key).value;
      var u := DeleteSegment(t, key);
      RemoveKeyedOk(t.segments, key, t.nextId);
      forall c | c in u.segmentConstraints
        ensures c.owner in IdsOf(u.segments)
      {
        WithoutIsSubset(t.segmentConstraints, {r.id}, c);
        var q :| q in t.segments && q.id == c.owner;
        RemoveKeyedMember(t.segments, key, q);
      }
      forall k
        ensures FlagAt(u, k) == FlagAt(t, k)
      {
        if FindKeyed(t.flags, k).Some? {
          FlagOfFrame(t, u, FindKeyed(t.flags, k).value);
        }
      }
    }
  }

  lemma DeleteSegmentView(t: Tables, key: string, k: string)
    requires TablesOk(t)
    ensures SegmentAt(DeleteSegment(t, key), k) == if k == key then None else SegmentAt(t, k)
  {
    FindKeyedFinds(t.segments, key);
    FindKeyedFinds(t.segments, k);
    if FindKeyed(t.segments, key).Some? {
      var r := FindKeyed(t.segments, key).value;
      FindAfterRemove(t.segments, key, k);
      if k != key && FindKeyed(t.segments, k).Some? {
        var q := FindKeyed(t.segments, k).value;
        IdsTellKeysApart(t.segments, t.nextId, q, key);
        RowsOfWithout(t.segmentConstraints, {r.id}, q.id);
      }
    }
  }
}
