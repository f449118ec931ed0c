/**
 The writes a configuration apply makes, as functions on the tables: what each statement leaves
 behind, cascades included, and what a later read then sees of every flag and segment.
 */
module FlagWrites {
  import opened FlagModel
  import opened FlagTables

  // ---- Variants ----

  /** `INSERT ... ON CONFLICT (flag_id, key) DO UPDATE`. */
  function PutVariant(t: seq<Row<Variant>>, id: nat, v: Variant): seq<Row<Variant>> {
    if t == [] then [Row(id, v)]
    else if t[0].owner == id && t[0].val.key == v.key then [Row(id, v)] + t[1..]
    else [t[0]] + PutVariant(t[1..], id, v)
  }

  function PutVariants(t: seq<Row<Variant>>, id: nat, vs: seq<Variant>): seq<Row<Variant>>
    decreases vs
  {
    if vs == [] then t else PutVariants(PutVariant(t, id, vs[0]), id, vs[1..])
  }

  /** `DELETE FROM variants WHERE flag_id = id AND key <> ALL (keys)`. */
  function KeepVariants(t: seq<Row<Variant>>, id: nat, keys: seq<string>): seq<Row<Variant>> {
    if t == [] then []
    else if t[0].owner == id && t[0].val.key !in keys then KeepVariants(t[1..], id, keys)
    else [t[0]] + KeepVariants(t[1..], id, keys)
  }

  function VariantKeys(vs: seq<Variant>): seq<string> {
    seq(|vs|, i requires 0 <= i < |vs| => vs[i].key)
  }

  /** The same two statements on one flag's variants alone. */
  function MergeVariant(live: seq<Variant>, v: Variant): seq<Variant> {
    if live == [] then [v]
    else if live[0].key == v.key then [v] + live[1..]
    else [live[0]] + MergeVariant(live[1..], v)
  }

  function MergeVariants(live: seq<Variant>, vs: seq<Variant>): seq<Variant>
    decreases vs
  {
    if vs == [] then live else MergeVariants(MergeVariant(live, vs[0]), vs[1..])
  }

  function KeepKeys(live: seq<Variant>, keys: seq<string>): seq<Variant> {
    if live == [] then []
    else if live[0].key !in keys then KeepKeys(live[1..], keys)
    else [live[0]] + KeepKeys(live[1..], keys)
  }

  /** The variants a flag ends up with when `desired` is written over `live`. */
  function StoredVariants(live: seq<Variant>, desired: seq<Variant>): seq<Variant> {
    MergeVariants(KeepKeys(live, VariantKeys(desired)), desired)
  }

  lemma {:induction false} PutVariantRows(t: seq<Row<Variant>>, id: nat, v: Variant, j: nat)
    ensures RowsOf(PutVariant(t, id, v), j) == if j == id then MergeVariant(RowsOf(t, j), v) else RowsOf(t, j)
    ensures forall r | r in PutVariant(t, id, v) :: r.owner == id || r in t
  {
    if t != [] {
      if t[0].owner == id && t[0].val.key == v.key {
        assert PutVariant(t, id, v)[1..] == t[1..];
      } else {
        assert PutVariant(t, id, v)[1..] == PutVariant(t[1..], id, v);
        PutVariantRows(t[1..], id, v, j);
      }
    }
  }

  lemma {:induction false} PutVariantsRows(t: seq<Row<Variant>>, id: nat, vs: seq<Variant>, j: nat)
    ensures RowsOf(PutVariants(t, id, vs), j) == if j == id then MergeVariants(RowsOf(t, j), vs) else RowsOf(t, j)
    ensures forall r | r in PutVariants(t, id, vs) :: r.owner == id || r in t
    decreases vs
  {
    if vs != [] {
      PutVariantRows(t, id, vs[0], j);
      PutVariantsRows(PutVariant(t, id, vs[0]), id, vs[1..], j);
    }
  }

  lemma {:induction false} KeepVariantsRows(t: seq<Row<Variant>>, id: nat, keys: seq<string>, j: nat)
    ensures RowsOf(KeepVariants(t, id, keys), j) == if j == id then KeepKeys(RowsOf(t, j), keys) else RowsOf(t, j)
    ensures forall r | r in KeepVariants(t, id, keys) :: r in t
  {
    if t != [] {
      KeepVariantsRows(t[1..], id, keys, j);
      if !(t[0].owner == id && t[0].val.key !in keys) {
        assert KeepVariants(t, id, keys)[1..] == KeepVariants(t[1..], id, keys);
      }
      if t[0].owner == j {
        assert RowsOf(t, j)[1..] == RowsOf(t[1..], j);
      }
    }
  }

  lemma {:induction false} MergeVariantDistinct(live: seq<Variant>, v: Variant)
    requires VariantKeysDistinct(live)
    ensures VariantKeysDistinct(MergeVariant(live, v))
    ensures forall w | w in MergeVariant(live, v) :: w == v || w in live
  {
    if live != [] {
      if live[0].key == v.key {
        assert MergeVariant(live, v)[1..] == live[1..];
      } else {
        assert MergeVariant(live, v)[1..] == MergeVariant(live[1..], v);
        MergeVariantDistinct(live[1..], v);
      }
    }
  }

  lemma {:induction false} MergeVariantsDistinct(live: seq<Variant>, vs: seq<Variant>)
    requires VariantKeysDistinct(live)
    ensures VariantKeysDistinct(MergeVariants(live, vs))
    decreases vs
  {
    if vs != [] {
      MergeVariantDistinct(live, vs[0]);
      MergeVariantsDistinct(MergeVariant(live, vs[0]), vs[1..]);
    }
  }

  lemma {:induction false} KeepKeysDistinct(live: seq<Variant>, keys: seq<string>)
    requires VariantKeysDistinct(live)
    ensures VariantKeysDistinct(KeepKeys(live, keys))
    ensures forall w | w in KeepKeys(live, keys) :: w in live && w.key in keys
  {
    if live != [] {
      KeepKeysDistinct(live[1..], keys);
      if live[0].key in keys {
        assert KeepKeys(live, keys)[1..] == KeepKeys(live[1..], keys);
      }
    }
  }

  // ---- Rules ----

  function GroupRows(groups: seq<ConstraintGroup>, i: nat): seq<Row<Constraint>>
    requires i <= |groups|
    decreases |groups| - i
  {
    if i == |groups| then [] else Owned(i, groups[i].constraints) + GroupRows(groups, i + 1)
  }

  function RuleRowFor(id: nat, rule: Rule, rank: nat): RuleRow {
    RuleRow(id, rank, rule.segmentKey, rule.variantKey, rule.bucketSalt)
  }

  function InsertRule(t: Tables, flagId: nat, rule: Rule, rank: nat): Tables {
    t.(rules := t.rules + [Row(flagId, RuleRowFor(t.nextId, rule, rank))],
       distributions := t.distributions + Owned(t.nextId, rule.distributions),
       ruleConstraints := t.ruleConstraints + Owned(t.nextId, GroupRows(rule.constraintGroups, 0)),
       nextId := t.nextId + 1)
  }

  /** Insert the rules from position `from` on; a rule's rank is its position. */
  function InsertRules(t: Tables, flagId: nat, rules: seq<Rule>, from: nat): Tables
    requires from <= |rules|
    decreases |rules| - from
  {
    if from == |rules| then t else InsertRules(InsertRule(t, flagId, rules[from], from), flagId, rules, from + 1)
  }

  function RuleIdsOfFlag(t: seq<Row<RuleRow>>, flagId: nat): set<nat> {
    set r | r in t && r.owner == flagId :: r.val.id
  }

  /** `DELETE FROM flag_rules WHERE flag_id = id`; splits and constraints go with their rule. */
  function DeleteRules(t: Tables, flagId: nat): Tables {
    var gone := RuleIdsOfFlag(t.rules, flagId);
    t.(rules := Without(t.rules, {flagId}),
       distributions := Without(t.distributions, gone),
       ruleConstraints := Without(t.ruleConstraints, gone))
  }

  function ReplaceRules(t: Tables, flagId: nat, rules: seq<Rule>): Tables {
    InsertRules(DeleteRules(t, flagId), flagId, rules, 0)
  }

  // ---- Whole flags and segments ----

  /** The CHECK on `rule_distributions.weight`, for every rule of a flag. */
  predicate WeightsStorable(rules: seq<Rule>) {
    forall r | r in rules :: forall d | d in r.distributions :: d.weight <= 100
  }

  function PutFlagRow(t: Tables, flag: Flag): Tables {
    t.(flags := PutKeyed(t.flags, flag.key, t.nextId,
        FlagCols(flag.valueType, flag.enabled, flag.defaultVariantKey, flag.archived)),
       nextId := t.nextId + 1)
  }

  function IdFor<V>(t: seq<Keyed<V>>, key: string, newId: nat): nat {
    if FindKeyed(t, key).Some? then FindKeyed(t, key).value.id else newId
  }

  function PutFlagVariants(t: Tables, id: nat, vs: seq<Variant>): Tables {
    t.(variants := PutVariants(KeepVariants(t.variants, id, VariantKeys(vs)), id, vs))
  }

  function UpsertFlag(t: Tables, flag: Flag): Tables {
    var id := IdFor(t.flags, flag.key, t.nextId);
    ReplaceRules(PutFlagVariants(PutFlagRow(t, flag), id, flag.variants), id, flag.rules)
  }

  function UpsertSegment(t: Tables, s: Segment): Tables {
    var id := IdFor(t.segments, s.key, t.nextId);
    t.(segments := PutKeyed(t.segments, s.key, t.nextId, s.name),
       segmentConstraints := Without(t.segmentConstraints, {id}) + Owned(id, s.constraints),
       nextId := t.nextId + 1)
  }

  /** `DELETE FROM flags WHERE key = ...`, with every cascade. */
  function DeleteFlag(t: Tables, key: string): Tables {
    match FindKeyed(t.flags, key)
    case None => t
    case Some(r) =>
      DeleteRules(t.(flags := RemoveKeyed(t.flags, key), variants := Without(t.variants, {r.id})), r.id)
  }

  function DeleteSegment(t: Tables, key: string): Tables {
    match FindKeyed(t.segments, key)
    case None => t
    case Some(r) =>
      t.(segments := RemoveKeyed(t.segments, key), segmentConstraints := Without(t.segmentConstraints, {r.id}))
  }

  // ---- What a read sees of written rules ----

  /** The groups that survive storage: an empty one leaves no rows, so it is gone on the next read. */
  function NonEmptyGroups(groups: seq<ConstraintGroup>): seq<ConstraintGroup> {
    if groups == [] then []
    else if groups[0].constraints == [] then NonEmptyGroups(groups[1..])
    else [groups[0]] + NonEmptyGroups(groups[1..])
  }

  function StoredRule(r: Rule, rank: nat): Rule {
    r.(rank := rank, constraintGroups := NonEmptyGroups(r.constraintGroups))
  }

  function StoredRules(rules: seq<Rule>): seq<Rule> {
    seq(|rules|, i requires 0 <= i < |rules| => StoredRule(rules[i], i))
  }

  function StoredFlag(live: seq<Variant>, f: Flag): Flag {
    f.(variants := StoredVariants(live, f.variants), rules := StoredRules(f.rules))
  }

  lemma {:induction false} GroupRowsAt(groups: seq<ConstraintGroup>, i: nat, j: nat)
    requires i <= |groups|
    ensures RowsOf(GroupRows(groups, i), j) == if i <= j < |groups| then groups[j].constraints else []
    decreases |groups| - i
  {
    if i < |groups| {
      var head, tail := Owned(i, groups[i].constraints), GroupRows(groups, i + 1);
      GroupRowsAt(groups, i + 1, j);
      RowsOfOwned(i, groups[i].constraints, j);
      RowsOfAppend(head, tail, j);
      if j == i {
        assert RowsOf(head, j) + [] == groups[j].constraints;
      } else {
        assert [] + RowsOf(tail, j) == RowsOf(tail, j);
      }
    }
  }

  lemma {:induction false} GroupBoundCovers(rows: seq<Row<Constraint>>, i: nat)
    requires GroupBound(rows) <= i
    ensures RowsOf(rows, i) == []
  {
    if rows != [] {
      GroupBoundCovers(rows[1..], i);
    }
  }

  lemma {:induction false} GroupsFromBeyond(rows: seq<Row<Constraint>>, i: nat, bound: nat)
    requires forall j: nat | i <= j < bound :: RowsOf(rows, j) == []
    ensures GroupsFrom(rows, i, bound) == []
    decreases bound - i
  {
    if i < bound {
      GroupsFromBeyond(rows, i + 1, bound);
    }
  }

  lemma {:induction false} GroupsFromWritten(
    groups: seq<ConstraintGroup>, rows: seq<Row<Constraint>>, i: nat, bound: nat)
    requires i <= |groups|
    requires forall j: nat :: RowsOf(rows, j) == if j < |groups| then groups[j].constraints else []
    requires forall j: nat | bound <= j :: RowsOf(rows, j) == []
    ensures GroupsFrom(rows, i, bound) == NonEmptyGroups(groups[i..])
    decreases |groups| - i
  {
    if i == |groups| {
      GroupsFromBeyond(rows, i, bound);
    } else {
      GroupsFromWritten(groups, rows, i + 1, bound);
      assert RowsOf(rows, i) == groups[i].constraints;
      assert groups[i..][0] == groups[i] && groups[i..][1..] == groups[i + 1..];
      if i >= bound {
        GroupsFromBeyond(rows, i + 1, bound);
      }
    }
  }

  lemma GroupsRoundTrip(groups: seq<ConstraintGroup>)
    ensures Groups(GroupRows(groups, 0)) == NonEmptyGroups(groups)
  {
    var rows := GroupRows(groups, 0);
    forall j: nat
      ensures RowsOf(rows, j) == if j < |groups| then groups[j].constraints else []
    {
      GroupRowsAt(groups, 0, j);
    }
    forall j: nat | GroupBound(rows) <= j
      ensures RowsOf(rows, j) == []
    {
      GroupBoundCovers(rows, j);
    }
    GroupsFromWritten(groups, rows, 0, GroupBound(rows));
    assert groups[0..] == groups;
  }

  // ---- Frames: what a write to one flag leaves alone ----

  /** `u` reads rule `id` as `t` does. */
  ghost predicate SameRuleRows(t: Tables, u: Tables, id: nat) {
    RowsOf(u.distributions, id) == RowsOf(t.distributions, id) &&
        RowsOf(u.ruleConstraints, id) == RowsOf(t.ruleConstraints, id)
  }

  lemma {:induction false} RulesOfFrame(t: Tables, u: Tables, rows: seq<RuleRow>)
    requires forall r | r in rows :: SameRuleRows(t, u, r.id)
    ensures RulesOf(u, rows) == RulesOf(t, rows)
  {
    if rows != [] {
      assert rows[0] in rows;
      RulesOfFrame(t, u, rows[1..]);
    }
  }

  lemma {:induction false} InsertByRankMember(x: RuleRow, s: seq<RuleRow>, r: RuleRow)
    ensures r in InsertByRank(x, s) <==> r == x || r in s
  {
    if s != [] && x.rank > s[0].rank {
      InsertByRankMember(x, s[1..], r);
    }
  }

  lemma {:induction false} SortByRankMember(s: seq<RuleRow>, r: RuleRow)
    ensures r in SortByRank(s) <==> r in s
  {
    if s != [] {
      SortByRankMember(s[1..], r);
      InsertByRankMember(s[0], SortByRank(s[1..]), r);
    }
  }

  lemma FlagOfFrame(t: Tables, u: Tables, r: Keyed<FlagCols>)
    requires RowsOf(u.variants, r.id) == RowsOf(t.variants, r.id)
    requires RowsOf(u.rules, r.id) == RowsOf(t.rules, r.id)
    requires forall rr | rr in RowsOf(t.rules, r.id) :: SameRuleRows(t, u, rr.id)
    ensures FlagOf(u, r) == FlagOf(t, r)
  {
    var rows := RowsOf(t.rules, r.id);
    forall rr | rr in SortByRank(rows)
      ensures SameRuleRows(t, u, rr.id)
    {
      SortByRankMember(rows, rr);
    }
    RulesOfFrame(t, u, SortByRank(rows));
  }

  // ---- Deleting and inserting rules ----

  lemma {:induction false} DistinctIdsOneOwner(t: seq<Row<RuleRow>>, a: Row<RuleRow>, b: Row<RuleRow>)
    requires RuleIdsDistinct(t) && a in t && b in t && a.val.id == b.val.id
    ensures a == b
  {
    if a != t[0] && b != t[0] {
      DistinctIdsOneOwner(t[1..], a, b);
    }
  }

  lemma {:induction false} WithoutKeepsDistinct(t: seq<Row<RuleRow>>, ids: set<nat>)
    requires RuleIdsDistinct(t)
    ensures RuleIdsDistinct(Without(t, ids))
  {
    if t != [] {
      WithoutKeepsDistinct(t[1..], ids);
      if t[0].owner !in ids {
        assert Without(t, ids)[1..] == Without(t[1..], ids);
        forall r | r in Without(t[1..], ids)
          ensures r.val.id != t[0].val.id
        {
          WithoutIsSubset(t[1..], ids, r);
        }
      }
    }
  }

  lemma DeleteRulesOk(t: Tables, flagId: nat)
    requires RuleTablesOk(t)
    ensures RuleTablesOk(DeleteRules(t, flagId))
    ensures RowsOf(DeleteRules(t, flagId).rules, flagId) == []
    ensures forall r | r in DeleteRules(t, flagId).rules :: r.owner != flagId
    ensures forall j | j != flagId :: RowsOf(DeleteRules(t, flagId).rules, j) == RowsOf(t.rules, j)
    ensures forall r | r in t.rules && r.owner != flagId :: SameRuleRows(t, DeleteRules(t, flagId), r.val.id)
  {
    var u := DeleteRules(t, flagId);
    var gone := RuleIdsOfFlag(t.rules, flagId);
    WithoutKeepsDistinct(t.rules, {flagId});
    forall r {
      WithoutIsSubset(t.rules, {flagId}, r);
    }
    forall j {
      RowsOfWithout(t.rules, {flagId}, j);
    }
    forall r | r in t.rules && r.owner != flagId
      ensures r.val.id !in gone && SameRuleRows(t, u, r.val.id)
    {
      if r.val.id in gone {
        var q :| q in t.rules && q.owner == flagId && q.val.id == r.val.id;
        DistinctIdsOneOwner(t.rules, q, r);
      }
      RowsOfWithout(t.distributions, gone, r.val.id);
      RowsOfWithout(t.ruleConstraints, gone, r.val.id);
    }
    SurvivorsOwned(t.rules, flagId, t.distributions);
    SurvivorsOwned(t.rules, flagId, t.ruleConstraints);
    forall d | d in u.distributions
      ensures d.val.weight <= 100
    {
      WithoutIsSubset(t.distributions, gone, d);
    }
  }

  /** A child row that survives the cascade belongs to a rule that survives the delete. */
  lemma SurvivorsOwned<V(!new)>(rules: seq<Row<RuleRow>>, flagId: nat, children: seq<Row<V>>)
    requires OwnersIn(children, RuleIds(rules))
    ensures OwnersIn(Without(children, RuleIdsOfFlag(rules, flagId)), RuleIds(Without(rules, {flagId})))
  {
    var gone := RuleIdsOfFlag(rules, flagId);
    forall d | d in Without(children, gone)
      ensures d.owner in RuleIds(Without(rules, {flagId}))
    {
      WithoutIsSubset(children, gone, d);
      var q :| q in rules && q.val.id == d.owner;
      WithoutIsSubset(rules, {flagId}, q);
    }
  }

  /** The rows a run of rule inserts adds to the rule table. */
  function NewRuleRows(nextId: nat, rules: seq<Rule>, from: nat): seq<RuleRow>
    requires from <= |rules|
    decreases |rules| - from
  {
    if from == |rules| then [] else [RuleRowFor(nextId, rules[from], from)] + NewRuleRows(nextId + 1, rules, from + 1)
  }

  lemma {:induction false} AppendKeepsDistinct(t: seq<Row<RuleRow>>, x: Row<RuleRow>)
    requires RuleIdsDistinct(t) && forall r | r in t :: r.val.id != x.val.id
    ensures RuleIdsDistinct(t + [x])
  {
    if t != [] {
      AppendKeepsDistinct(t[1..], x);
      assert (t + [x])[1..] == t[1..] + [x];
    } else {
      assert t + [x] == [x];
    }
  }

  lemma InsertRuleKeepsOk(t: Tables, flagId: nat, rule: Rule, rank: nat)
    requires RuleTablesOk(t) && flagId in IdsOf(t.flags)
    requires forall d | d in rule.distributions :: d.weight <= 100
    ensures RuleTablesOk(InsertRule(t, flagId, rule, rank))
  {
    var u := InsertRule(t, flagId, rule, rank);
    var x := Row(flagId, RuleRowFor(t.nextId, rule, rank));
    AppendKeepsDistinct(t.rules, x);
    assert forall r :: r in u.rules <==> r in t.rules || r == x;
    assert x in u.rules;
    assert RuleIds(u.rules) == RuleIds(t.rules) + {t.nextId};
    AppendOwned(t.distributions, t.nextId, rule.distributions, RuleIds(t.rules));
    AppendOwned(t.ruleConstraints, t.nextId, GroupRows(rule.constraintGroups, 0), RuleIds(t.rules));
  }

  lemma AppendOwned<V(!new)>(t: seq<Row<V>>, id: nat, vals: seq<V>, ids: set<nat>)
    requires OwnersIn(t, ids)
    ensures OwnersIn(t + Owned(id, vals), ids + {id})
    ensures forall r | r in t + Owned(id, vals) :: r in t || r.val in vals
  {
  }

  /** One rule insert, seen from flag `j`. */
  lemma InsertRuleAtFlag(t: Tables, flagId: nat, rule: Rule, rank: nat, j: nat)
    ensures RowsOf(InsertRule(t, flagId, rule, rank).rules, j) ==
            RowsOf(t.rules, j) + if j == flagId then [RuleRowFor(t.nextId, rule, rank)] else []
  {
    var x := RuleRowFor(t.nextId, rule, rank);
    RowsOfAppend(t.rules, [Row(flagId, x)], j);
    RowsOfOwned(flagId, [x], j);
    assert Owned(flagId, [x]) == [Row(flagId, x)];
  }

  /** One rule insert, seen from an older rule. */
  lemma InsertRuleFrame(t: Tables, flagId: nat, rule: Rule, rank: nat, id: nat)
    requires id < t.nextId
    ensures SameRuleRows(t, InsertRule(t, flagId, rule, rank), id)
  {
    RowsOfAppend(t.distributions, Owned(t.nextId, rule.distributions), id);
    RowsOfOwned(t.nextId, rule.distributions, id);
    RowsOfAppend(t.ruleConstraints, Owned(t.nextId, GroupRows(rule.constraintGroups, 0)), id);
    RowsOfOwned(t.nextId, GroupRows(rule.constraintGroups, 0), id);
  }

  /** One rule insert, seen from the inserted rule. */
  lemma InsertRuleContents(t: Tables, flagId: nat, rule: Rule, rank: nat)
    requires RuleTablesOk(t)
    ensures RowsOf(InsertRule(t, flagId, rule, rank).distributions, t.nextId) == rule.distributions
    ensures RowsOf(InsertRule(t, flagId, rule, rank).ruleConstraints, t.nextId) == GroupRows(rule.constraintGroups, 0)
  {
    var id := t.nextId;
    RowsOfAppend(t.distributions, Owned(id, rule.distributions), id);
    RowsOfOwned(id, rule.distributions, id);
    RowsOfAppend(t.ruleConstraints, Owned(id, GroupRows(rule.constraintGroups, 0)), id);
    RowsOfOwned(id, GroupRows(rule.constraintGroups, 0), id);
    NoOwnerNoRows(t.distributions, id);
    NoOwnerNoRows(t.ruleConstraints, id);
  }

  lemma {:induction false} InsertRulesKeepOk(t: Tables, flagId: nat, rules: seq<Rule>, from: nat)
    requires RuleTablesOk(t) && flagId in IdsOf(t.flags) && from <= |rules| && WeightsStorable(rules)
    ensures var u := InsertRules(t, flagId, rules, from);
            && RuleTablesOk(u)
            && u == t.(rules := u.rules, distributions := u.distributions, ruleConstraints := u.ruleConstraints,
                       nextId := t.nextId + |rules| - from)
    decreases |rules| - from
  {
    if from < |rules| {
      assert rules[from] in rules;
      InsertRuleKeepsOk(t, flagId, rules[from], from);
      InsertRulesKeepOk(InsertRule(t, flagId, rules[from], from), flagId, rules, from + 1);
    }
  }

  lemma {:induction false} InsertRulesRows(t: Tables, flagId: nat, rules: seq<Rule>, from: nat, j: nat)
    requires from <= |rules|
    ensures RowsOf(InsertRules(t, flagId, rules, from).rules, j) ==
            RowsOf(t.rules, j) + if j == flagId then NewRuleRows(t.nextId, rules, from) else []
    decreases |rules| - from
  {
    if from < |rules| {
      var x := RuleRowFor(t.nextId, rules[from], from);
      var s := InsertRule(t, flagId, rules[from], from);
      InsertRuleAtFlag(t, flagId, rules[from], from, j);
      InsertRulesRows(s, flagId, rules, from + 1, j);
      if j == flagId {
        AppendAssoc(RowsOf(t.rules, j), [x], NewRuleRows(s.nextId, rules, from + 1));
      }
    }
  }

  lemma AppendAssoc<T>(a: seq<T>, b: seq<T>, c: seq<T>)
    ensures a + b + c == a + (b + c)
  {
  }

  lemma {:induction false} InsertRulesFrame(t: Tables, flagId: nat, rules: seq<Rule>, from: nat, id: nat)
    requires from <= |rules| && id < t.nextId
    ensures SameRuleRows(t, InsertRules(t, flagId, rules, from), id)
    decreases |rules| - from
  {
    if from < |rules| {
      InsertRuleFrame(t, flagId, rules[from], from, id);
      InsertRulesFrame(InsertRule(t, flagId, rules[from], from), flagId, rules, from + 1, id);
    }
  }

  ghost predicate ReadsBackAt(u: Tables, id: nat, rule: Rule, rank: nat) {
    RuleOf(u, RuleRowFor(id, rule, rank)) == StoredRule(rule, rank)
  }

  lemma FirstInsertedRuleReads(t: Tables, flagId: nat, rules: seq<Rule>, from: nat)
    requires RuleTablesOk(t) && from < |rules|
    ensures ReadsBackAt(InsertRules(t, flagId, rules, from), t.nextId, rules[from], from)
  {
    var s := InsertRule(t, flagId, rules[from], from);
    InsertRuleContents(t, flagId, rules[from], from);
    InsertRulesFrame(s, flagId, rules, from + 1, t.nextId);
    GroupsRoundTrip(rules[from].constraintGroups);
  }

  /** What is read back for the rule inserted from position `i`. */
  lemma {:induction false} InsertedRuleReads(t: Tables, flagId: nat, rules: seq<Rule>, from: nat, i: nat)
    requires RuleTablesOk(t) && flagId in IdsOf(t.flags) && from <= i < |rules| && WeightsStorable(rules)
    ensures ReadsBackAt(InsertRules(t, flagId, rules, from), t.nextId + i - from, rules[i], i)
    decreases i - from
  {
    if i == from {
      FirstInsertedRuleReads(t, flagId, rules, from);
    } else {
      assert rules[from] in rules;
      InsertRuleKeepsOk(t, flagId, rules[from], from);
      InsertedRuleReads(InsertRule(t, flagId, rules[from], from), flagId, rules, from + 1, i);
    }
  }

  /** Rules written from position `from` on, under consecutive ids, read back in their stored form. */
  ghost predicate ReadsBack(u: Tables, nextId: nat, rules: seq<Rule>, from: nat) {
    forall i | from <= i < |rules| :: ReadsBackAt(u, nextId + i - from, rules[i], i)
  }

  lemma {:induction false} NewRuleRowsRead(u: Tables, nextId: nat, rules: seq<Rule>, from: nat)
    requires from <= |rules|
    requires ReadsBack(u, nextId, rules, from)
    ensures RulesOf(u, NewRuleRows(nextId, rules, from)) == StoredRules(rules)[from..]
    decreases |rules| - from
  {
    if from < |rules| {
      assert ReadsBack(u, nextId + 1, rules, from + 1);
      NewRuleRowsRead(u, nextId + 1, rules, from + 1);
      var x, rest := RuleRowFor(nextId, rules[from], from), NewRuleRows(nextId + 1, rules, from + 1);
      assert ([x] + rest)[1..] == rest;
      assert ReadsBackAt(u, nextId, rules[from], from);
    }
  }

  lemma InsertedRulesRead(t: Tables, flagId: nat, rules: seq<Rule>)
    requires RuleTablesOk(t) && flagId in IdsOf(t.flags) && WeightsStorable(rules)
    ensures RulesOf(InsertRules(t, flagId, rules, 0), NewRuleRows(t.nextId, rules, 0)) == StoredRules(rules)
  {
    var u := InsertRules(t, flagId, rules, 0);
    forall i | 0 <= i < |rules|
      ensures ReadsBackAt(u, t.nextId + i - 0, rules[i], i)
    {
      InsertedRuleReads(t, flagId, rules, 0, i);
    }
    assert ReadsBack(u, t.nextId, rules, 0);
    NewRuleRowsRead(u, t.nextId, rules, 0);
    assert StoredRules(rules)[0..] == StoredRules(rules);
  }

  lemma {:induction false} NewRuleRowsSorted(nextId: nat, rules: seq<Rule>, from: nat)
    requires from <= |rules|
    ensures SortByRank(NewRuleRows(nextId, rules, from)) == NewRuleRows(nextId, rules, from)
    decreases |rules| - from
  {
    if from < |rules| {
      var x, rest := RuleRowFor(nextId, rules[from], from), NewRuleRows(nextId + 1, rules, from + 1);
      NewRuleRowsSorted(nextId + 1, rules, from + 1);
      assert NewRuleRows(nextId, rules, from) == [x] + rest && ([x] + rest)[1..] == rest;
      assert SortByRank([x] + rest) == InsertByRank(x, rest) == [x] + rest;
    }
  }
}
