/**
 Loading a snapshot: seven reads whose rows are gathered into maps by id and put together. The
 rows may come from different commits; each read is only known to satisfy its own table's keys.
 */
module FlagLoad {
  import opened Basics
  import opened FlagModel
  import opened FlagTables

  /** What each read guarantees on its own, whatever commit it saw. */
  ghost predicate ReadsOk(t: Tables) {
    KeyedDistinct(t.flags) && KeyedDistinct(t.segments) && RuleIdsDistinct(t.rules)
  }

  function ValuesAt<V>(m: map<nat, seq<V>>, id: nat): seq<V> {
    if id in m then m[id] else []
  }

  lemma RowsOfSnoc<V>(rows: seq<Row<V>>, i: nat, id: nat)
    requires i < |rows|
    ensures RowsOf(rows[..i + 1], id) == if rows[i].owner == id then RowsOf(rows[..i], id) + [rows[i].val]
            else RowsOf(rows[..i], id)
  {
    assert rows[..i + 1] == rows[..i] + [rows[i]];
    RowsOfAppend(rows[..i], [rows[i]], id);
  }

  /** `entry(owner).or_default().push(value)` over a table. */
  method CollectByOwner<V>(rows: seq<Row<V>>) returns (m: map<nat, seq<V>>)
    ensures forall id: nat :: ValuesAt(m, id) == RowsOf(rows, id)
    ensures forall id | id in m :: m[id] != []
  {
    m := map[];
    for i := 0 to |rows|
      invariant forall id: nat :: ValuesAt(m, id) == RowsOf(rows[..i], id)
      invariant forall id | id in m :: m[id] != []
    {
      var r := rows[i];
      ghost var before := m;
      m := m[r.owner := ValuesAt(m, r.owner) + [r.val]];
      forall id: nat
        ensures ValuesAt(m, id) == RowsOf(rows[..i + 1], id)
      {
        assert ValuesAt(before, id) == RowsOf(rows[..i], id);
        RowsOfSnoc(rows, i, id);
      }
    }
    assert rows[..|rows|] == rows;
  }

  lemma {:induction false} GroupBoundAbove(rows: seq<Row<Constraint>>, id: nat)
    ensures RowsOf(rows, id) != [] ==> id < GroupBound(rows)
  {
    if rows != [] {
      GroupBoundAbove(rows[1..], id);
    }
  }

  /** A rule's OR-groups: its constraint rows keyed by group index, taken in index order. */
  method GatherGroups(rows: seq<Row<Constraint>>) returns (groups: seq<ConstraintGroup>)
    ensures groups == Groups(rows)
  {
    var byIndex := CollectByOwner(rows);
    groups := [];
    var bound := GroupBound(rows);
    for i := 0 to bound
      invariant groups + GroupsFrom(rows, i, bound) == Groups(rows)
    {
      ghost var before := groups;
      assert ValuesAt(byIndex, i) == RowsOf(rows, i);
      if i in byIndex {
        groups := groups + [ConstraintGroup(byIndex[i])];
        assert before + ([ConstraintGroup(byIndex[i])] + GroupsFrom(rows, i + 1, bound)) ==
            groups + GroupsFrom(rows, i + 1, bound);
      } else {
        assert [] + GroupsFrom(rows, i + 1, bound) == GroupsFrom(rows, i + 1, bound);
      }
    }
    assert groups + [] == groups;
  }

  // ---- ORDER BY rank over the whole rule table ----

  function InsertRow(x: Row<RuleRow>, s: seq<Row<RuleRow>>): seq<Row<RuleRow>> {
    if s == [] || x.val.rank <= s[0].val.rank then [x] + s else [s[0]] + InsertRow(x, s[1..])
  }

  function OrderByRank(s: seq<Row<RuleRow>>): seq<Row<RuleRow>> {
    if s == [] then [] else InsertRow(s[0], OrderByRank(s[1..]))
  }

  predicate RankSorted(s: seq<Row<RuleRow>>) {
    s == [] || ((forall r | r in s[1..] :: s[0].val.rank <= r.val.rank) && RankSorted(s[1..]))
  }

  lemma {:induction false} InsertRowSorted(x: Row<RuleRow>, s: seq<Row<RuleRow>>)
    requires RankSorted(s)
    ensures RankSorted(InsertRow(x, s))
    ensures forall r :: r in InsertRow(x, s) <==> r == x || r in s
  {
    if s != [] && x.val.rank > s[0].val.rank {
      InsertRowSorted(x, s[1..]);
      assert InsertRow(x, s)[1..] == InsertRow(x, s[1..]);
    } else {
      assert InsertRow(x, s)[1..] == s;
    }
  }

  lemma {:induction false} InsertRowRows(x: Row<RuleRow>, s: seq<Row<RuleRow>>, id: nat)
    requires RankSorted(s)
    ensures RowsOf(InsertRow(x, s), id) == if x.owner == id then InsertByRank(x.val, RowsOf(s, id)) else RowsOf(s, id)
  {
    if s != [] && x.val.rank > s[0].val.rank {
      InsertRowRows(x, s[1..], id);
      assert InsertRow(x, s)[1..] == InsertRow(x, s[1..]);
    } else {
      assert InsertRow(x, s)[1..] == s;
      if RowsOf(s, id) != [] {
        RowsOfMember(s, id, RowsOf(s, id)[0]);
      }
    }
  }

  /** Sorting the table and then taking one flag's rows is sorting that flag's rows. */
  lemma {:induction false} OrderByRankRows(s: seq<Row<RuleRow>>, id: nat)
    ensures RankSorted(OrderByRank(s))
    ensures RowsOf(OrderByRank(s), id) == SortByRank(RowsOf(s, id))
  {
    if s != [] {
      OrderByRankRows(s[1..], id);
      InsertRowSorted(s[0], OrderByRank(s[1..]));
      InsertRowRows(s[0], OrderByRank(s[1..]), id);
    }
  }

  lemma {:induction false} OrderByRankDistinct(s: seq<Row<RuleRow>>)
    requires RuleIdsDistinct(s)
    ensures RuleIdsDistinct(OrderByRank(s))
    ensures forall r :: r in OrderByRank(s) <==> r in s
  {
    if s != [] {
      OrderByRankDistinct(s[1..]);
      OrderByRankRows(s[1..], 0);
      InsertRowSorted(s[0], OrderByRank(s[1..]));
      InsertRowDistinct(s[0], OrderByRank(s[1..]));
    }
  }

  lemma {:induction false} InsertRowDistinct(x: Row<RuleRow>, s: seq<Row<RuleRow>>)
    requires RuleIdsDistinct(s) && forall r | r in s :: r.val.id != x.val.id
    ensures RuleIdsDistinct(InsertRow(x, s))
    ensures forall r | r in InsertRow(x, s) :: r == x || r in s
  {
    if s != [] && x.val.rank > s[0].val.rank {
      InsertRowDistinct(x, s[1..]);
      assert InsertRow(x, s)[1..] == InsertRow(x, s[1..]);
    } else {
      assert InsertRow(x, s)[1..] == s;
    }
  }

  lemma {:induction false} DistinctAfter(s: seq<Row<RuleRow>>, i: nat, j: nat)
    requires RuleIdsDistinct(s) && i < j < |s|
    ensures s[i].val.id != s[j].val.id
  {
    if i == 0 {
      assert s[j] in s[1..];
    } else {
      DistinctAfter(s[1..], i - 1, j - 1);
    }
  }

  // ---- Flags ----

  function BareFlag(r: Keyed<FlagCols>): Flag {
    Flag(r.key, r.val.valueType, r.val.enabled, r.val.defaultVariantKey, r.val.archived, [], [])
  }

  method StartFlags(rows: seq<Keyed<FlagCols>>) returns (flags: map<nat, Flag>)
    requires KeyedDistinct(rows)
    ensures flags.Keys == IdsOf(rows)
    ensures forall r | r in rows :: flags[r.id] == BareFlag(r)
  {
    flags := map[];
    for i := 0 to |rows|
      invariant flags.Keys == IdsOf(rows[..i])
      invariant forall j | 0 <= j < i :: rows[j].id in flags && flags[rows[j].id] == BareFlag(rows[j])
    {
      var r := rows[i];
      assert rows[..i + 1] == rows[..i] + [r];
      flags := flags[r.id := BareFlag(r)];
    }
    assert rows[..|rows|] == rows;
  }

  /** Rows whose flag was not read are dropped. */
  method AttachVariants(start: map<nat, Flag>, rows: seq<Row<Variant>>) returns (flags: map<nat, Flag>)
    requires forall id | id in start :: start[id].variants == []
    ensures flags.Keys == start.Keys
    ensures forall id | id in start :: flags[id] == start[id].(variants := RowsOf(rows, id))
  {
    flags := start;
    for i := 0 to |rows|
      invariant flags.Keys == start.Keys
      invariant forall id | id in start :: flags[id] == start[id].(variants := RowsOf(rows[..i], id))
    {
      forall id: nat { RowsOfSnoc(rows, i, id); }
      var r := rows[i];
      if r.owner in flags {
        flags := flags[r.owner := flags[r.owner].(variants := flags[r.owner].variants + [r.val])];
      }
    }
    assert rows[..|rows|] == rows;
  }

  lemma {:induction false} RulesOfSnoc(t: Tables, rows: seq<RuleRow>, x: RuleRow)
    ensures RulesOf(t, rows + [x]) == RulesOf(t, rows) + [RuleOf(t, x)]
  {
    if rows == [] {
      assert rows + [x] == [x];
      assert [x][1..] == [];
    } else {
      assert (rows + [x])[1..] == rows[1..] + [x];
      RulesOfSnoc(t, rows[1..], x);
    }
  }

  /** Every started flag holds the rules its rows among `rows` spell. */
  ghost predicate RulesAttached(start: map<nat, Flag>, flags: map<nat, Flag>, t: Tables, rows: seq<Row<RuleRow>>) {
    flags.Keys == start.Keys &&
    forall id | id in start :: flags[id] == start[id].(rules := RulesOf(t, RowsOf(rows, id)))
  }

  lemma AttachOneRule(start: map<nat, Flag>, flags: map<nat, Flag>, t: Tables, rows: seq<Row<RuleRow>>, i: nat)
    requires i < |rows| && RulesAttached(start, flags, t, rows[..i])
    ensures var r := rows[i];
            if r.owner in flags then
              RulesAttached(start,
                  flags[r.owner := flags[r.owner].(rules := flags[r.owner].rules + [RuleOf(t, r.val)])], t,
                  rows[..i + 1])
            else
              RulesAttached(start, flags, t, rows[..i + 1])
  {
    var r := rows[i];
    RulesOfSnoc(t, RowsOf(rows[..i], r.owner), r.val);
    forall id | id in start
      ensures RowsOf(rows[..i + 1], id) == if r.owner == id then RowsOf(rows[..i], id) + [r.val]
              else RowsOf(rows[..i], id)
    {
      RowsOfSnoc(rows, i, id);
    }
  }

  /** The rows of the rules still to come are all still in the gathered map. */
  ghost predicate StillThere<V>(m: map<nat, seq<V>>, all: seq<Row<V>>, rows: seq<Row<RuleRow>>, i: nat) {
    forall j | i <= j < |rows| :: ValuesAt(m, rows[j].val.id) == RowsOf(all, rows[j].val.id)
  }

  lemma TakingOneLeavesTheRest<V>(m: map<nat, seq<V>>, all: seq<Row<V>>, rows: seq<Row<RuleRow>>, i: nat)
    requires i < |rows| && RuleIdsDistinct(rows) && StillThere(m, all, rows, i)
    ensures StillThere(m - {rows[i].val.id}, all, rows, i + 1)
  {
    forall j | i < j < |rows|
      ensures ValuesAt(m - {rows[i].val.id}, rows[j].val.id) == RowsOf(all, rows[j].val.id)
    {
      DistinctAfter(rows, i, j);
    }
  }

  /** Rules join their flag in rank order, each taking its split and its groups out of the gathered maps. */
  method AttachRules(start: map<nat, Flag>, t: Tables) returns (flags: map<nat, Flag>)
    requires RuleIdsDistinct(t.rules) && forall id | id in start :: start[id].rules == []
    ensures RulesAttached(start, flags, t, OrderByRank(t.rules))
  {
    var distributions := CollectByOwner(t.distributions);
    var constraints := CollectByOwner(t.ruleConstraints);
    var rows := OrderByRank(t.rules);
    OrderByRankDistinct(t.rules);
    flags := start;
    for i := 0 to |rows|
      invariant RulesAttached(start, flags, t, rows[..i])
      invariant StillThere(distributions, t.distributions, rows, i)
      invariant StillThere(constraints, t.ruleConstraints, rows, i)
    {
      var r := rows[i];
      AttachOneRule(start, flags, t, rows, i);
      if r.owner in flags {
        var groups := GatherGroups(ValuesAt(constraints, r.val.id));
        var rule := Rule(r.val.rank, r.val.segmentKey, r.val.variantKey, ValuesAt(distributions, r.val.id), groups,
            r.val.bucketSalt);
        assert rule == RuleOf(t, r.val);
        flags := flags[r.owner := flags[r.owner].(rules := flags[r.owner].rules + [rule])];
        TakingOneLeavesTheRest(distributions, t.distributions, rows, i);
        TakingOneLeavesTheRest(constraints, t.ruleConstraints, rows, i);
        distributions := distributions - {r.val.id};
        constraints := constraints - {r.val.id};
      }
    }
    assert rows[..|rows|] == rows;
  }

  // ---- Segments ----

  method StartSegments(rows: seq<Keyed<string>>) returns (segments: map<nat, Segment>)
    requires KeyedDistinct(rows)
    ensures segments.Keys == IdsOf(rows)
    ensures forall r | r in rows :: segments[r.id] == Segment(r.key, r.val, [])
  {
    segments := map[];
    for i := 0 to |rows|
      invariant segments.Keys == IdsOf(rows[..i])
      invariant forall j | 0 <= j < i ::
              rows[j].id in segments && segments[rows[j].id] == Segment(rows[j].key, rows[j].val, [])
    {
      var r := rows[i];
      assert rows[..i + 1] == rows[..i] + [r];
      segments := segments[r.id := Segment(r.key, r.val, [])];
    }
    assert rows[..|rows|] == rows;
  }

  method AttachConstraints(start: map<nat, Segment>, rows: seq<Row<Constraint>>) returns (segments: map<nat, Segment>)
    requires forall id | id in start :: start[id].constraints == []
    ensures segments.Keys == start.Keys
    ensures forall id | id in start :: segments[id] == start[id].(constraints := RowsOf(rows, id))
  {
    segments := start;
    for i := 0 to |rows|
      invariant segments.Keys == start.Keys
      invariant forall id | id in start :: segments[id] == start[id].(constraints := RowsOf(rows[..i], id))
    {
      forall id: nat { RowsOfSnoc(rows, i, id); }
      var r := rows[i];
      if r.owner in segments {
        segments := segments[r.owner := segments[r.owner].(constraints := segments[r.owner].constraints + [r.val])];
      }
    }
    assert rows[..|rows|] == rows;
  }

  // ---- The whole load ----

  /** `into_values().map(|v| (v.key, v)).collect()`: from ids to keys. */
  method Rekey<C(!new), V(!new)>(ghost rows: seq<Keyed<C>>, byId: map<nat, V>, keyOf: V -> string)
    returns (m: map<string, V>)
    requires KeyedDistinct(rows) && byId.Keys == IdsOf(rows)
    requires forall r | r in rows :: keyOf(byId[r.id]) == r.key
    ensures forall r | r in rows :: Get(m, r.key) == Some(byId[r.id])
    ensures forall k | k in m :: exists r :: r in rows && r.key == k
  {
    m := map[];
    var ids := byId.Keys;
    ghost var seen: set<nat> := {};
    while ids != {}
      invariant ids + seen == byId.Keys && ids !! seen
      invariant forall r | r in rows && r.id in seen :: Get(m, r.key) == Some(byId[r.id])
      invariant forall k | k in m :: exists r :: r in rows && r.key == k
      decreases ids
    {
      var id :| id in ids;
      ghost var r :| r in rows && r.id == id;
      forall q | q in rows && q.key == r.key
        ensures q.id == id
      {
        FindKeyedUnique(rows, q);
        FindKeyedUnique(rows, r);
      }
      m := m[keyOf(byId[id]) := byId[id]];
      ids, seen := ids - {id}, seen + {id};
    }
    assert forall r | r in rows :: r.id in IdsOf(rows);
  }

  lemma FlagMapIs(t: Tables, m: map<string, Flag>)
    requires KeyedDistinct(t.flags)
    requires forall r | r in t.flags :: Get(m, r.key) == Some(FlagOf(t, r))
    requires forall k | k in m :: exists r :: r in t.flags && r.key == k
    ensures m == FlagMap(t)
  {
    forall k
      ensures Get(m, k) == Get(FlagMap(t), k)
    {
      FindKeyedFinds(t.flags, k);
      assert Get(FlagMap(t), k) == FlagAt(t, k);
    }
    SameGets(m, FlagMap(t));
  }

  lemma SegmentMapIs(t: Tables, m: map<string, Segment>)
    requires KeyedDistinct(t.segments)
    requires forall r | r in t.segments :: Get(m, r.key) == Some(SegmentOf(t, r))
    requires forall k | k in m :: exists r :: r in t.segments && r.key == k
    ensures m == SegmentMap(t)
  {
    forall k
      ensures Get(m, k) == Get(SegmentMap(t), k)
    {
      FindKeyedFinds(t.segments, k);
      assert Get(SegmentMap(t), k) == SegmentAt(t, k);
    }
    SameGets(m, SegmentMap(t));
  }

  method LoadFlags(t: Tables) returns (m: map<string, Flag>)
    requires ReadsOk(t)
    ensures m == FlagMap(t)
  {
    var bare := StartFlags(t.flags);
    forall id | id in bare
      ensures bare[id].variants == [] && bare[id].rules == []
    {
      var r :| r in t.flags && r.id == id;
    }
    var withVariants := AttachVariants(bare, t.variants);
    var flags := AttachRules(withVariants, t);
    forall r | r in t.flags
      ensures r.id in flags && flags[r.id] == FlagOf(t, r)
    {
      assert r.id in bare && bare[r.id] == BareFlag(r);
      OrderByRankRows(t.rules, r.id);
    }
    m := Rekey(t.flags, flags, (f: Flag) => f.key);
    FlagMapIs(t, m);
  }

  method LoadSegments(t: Tables) returns (m: map<string, Segment>)
    requires ReadsOk(t)
    ensures m == SegmentMap(t)
  {
    var bare := StartSegments(t.segments);
    forall id | id in bare
      ensures bare[id].constraints == []
    {
      var r :| r in t.segments && r.id == id;
    }
    var segments := AttachConstraints(bare, t.segmentConstraints);
    forall r | r in t.segments
      ensures r.id in segments && segments[r.id] == SegmentOf(t, r)
    {
      assert r.id in bare && bare[r.id] == Segment(r.key, r.val, []);
    }
    m := Rekey(t.segments, segments, (s: Segment) => s.key);
    SegmentMapIs(t, m);
  }

  /** `load_snapshot`, given what its reads returned. */
  method LoadSnapshot(version: int, t: Tables) returns (s: Snapshot)
    requires ReadsOk(t)
    ensures s == Assemble(version, t)
  {
    var flags := LoadFlags(t);
    var segments := LoadSegments(t);
    s := Snapshot(version, flags, segments);
  }
}
