/**
 The relational form of the configuration: seven tables, the constraints the schema keeps on
 them, and the flags and segments a full read of them assembles.
 */
module FlagTables {
  import opened Basics
  import opened FlagModel

  // ---- Child rows: a value and the id of the row it belongs to ----

  datatype Row<+V> = Row(owner: nat, val: V)

  /** The values belonging to `id`, in insertion order. */
  function RowsOf<V>(t: seq<Row<V>>, id: nat): seq<V> {
    if t == [] then []
    else if t[0].owner == id then [t[0].val] + RowsOf(t[1..], id)
    else RowsOf(t[1..], id)
  }

  /** The rows left after deleting everything owned by `ids`. */
  function Without<V>(t: seq<Row<V>>, ids: set<nat>): seq<Row<V>> {
    if t == [] then []
    else if t[0].owner in ids then Without(t[1..], ids)
    else [t[0]] + Without(t[1..], ids)
  }

  function Owned<V>(id: nat, vals: seq<V>): seq<Row<V>> {
    seq(|vals|, i requires 0 <= i < |vals| => Row(id, vals[i]))
  }

  ghost predicate OwnersIn<V(!new)>(t: seq<Row<V>>, ids: set<nat>) {
    forall r | r in t :: r.owner in ids
  }

  lemma {:induction false} RowsOfAppend<V>(a: seq<Row<V>>, b: seq<Row<V>>, id: nat)
    ensures RowsOf(a + b, id) == RowsOf(a, id) + RowsOf(b, id)
  {
    if a == [] {
      assert a + b == b;
    } else {
      assert (a + b)[1..] == a[1..] + b;
      RowsOfAppend(a[1..], b, id);
    }
  }

  lemma {:induction false} RowsOfOwned<V>(id: nat, vals: seq<V>, j: nat)
    ensures RowsOf(Owned(id, vals), j) == if j == id then vals else []
  {
    if vals != [] {
      assert Owned(id, vals)[1..] == Owned(id, vals[1..]);
      RowsOfOwned(id, vals[1..], j);
    }
  }

  lemma {:induction false} RowsOfWithout<V>(t: seq<Row<V>>, ids: set<nat>, j: nat)
    ensures RowsOf(Without(t, ids), j) == if j in ids then [] else RowsOf(t, j)
  {
    if t != [] {
      RowsOfWithout(t[1..], ids, j);
      if t[0].owner !in ids {
        assert Without(t, ids)[1..] == Without(t[1..], ids);
      }
    }
  }

  lemma {:induction false} WithoutIsSubset<V>(t: seq<Row<V>>, ids: set<nat>, r: Row<V>)
    ensures r in Without(t, ids) <==> r in t && r.owner !in ids
  {
    if t != [] {
      WithoutIsSubset(t[1..], ids, r);
    }
  }

  lemma {:induction false} RowsOfMember<V>(t: seq<Row<V>>, id: nat, v: V)
    ensures v in RowsOf(t, id) <==> Row(id, v) in t
  {
    if t != [] {
      RowsOfMember(t[1..], id, v);
      assert t == [t[0]] + t[1..];
      assert t[0].owner == id ==> t[0] == Row(id, t[0].val);
    }
  }

  lemma {:induction false} NoOwnerNoRows<V>(t: seq<Row<V>>, id: nat)
    requires forall r | r in t :: r.owner != id
    ensures RowsOf(t, id) == []
  {
    if t != [] {
      NoOwnerNoRows(t[1..], id);
    }
  }

  // ---- Parent rows: an id, a unique key and the rest of the columns ----

  datatype Keyed<+V> = Keyed(id: nat, key: string, val: V)

  function FindKeyed<V>(t: seq<Keyed<V>>, key: string): Option<Keyed<V>> {
    if t == [] then None else if t[0].key == key then Some(t[0]) else FindKeyed(t[1..], key)
  }

  /** Insert, or on a conflicting key update in place and keep the id. */
  function PutKeyed<V>(t: seq<Keyed<V>>, key: string, newId: nat, val: V): seq<Keyed<V>> {
    if t == [] then [Keyed(newId, key, val)]
    else if t[0].key == key then [t[0].(val := val)] + t[1..]
    else [t[0]] + PutKeyed(t[1..], key, newId, val)
  }

  function RemoveKeyed<V>(t: seq<Keyed<V>>, key: string): seq<Keyed<V>> {
    if t == [] then []
    else if t[0].key == key then RemoveKeyed(t[1..], key)
    else [t[0]] + RemoveKeyed(t[1..], key)
  }

  /** PRIMARY KEY (id) and UNIQUE (key). */
  ghost predicate KeyedDistinct<V(!new)>(t: seq<Keyed<V>>) {
    forall i, j | 0 <= i < j < |t| :: t[i].id != t[j].id && t[i].key != t[j].key
  }

  /** The same, with every id drawn from below `bound`. */
  ghost predicate KeyedOk<V(!new)>(t: seq<Keyed<V>>, bound: nat) {
    (forall r | r in t :: r.id < bound) && KeyedDistinct(t)
  }

  ghost function IdsOf<V>(t: seq<Keyed<V>>): set<nat> {
    set r | r in t :: r.id
  }

  lemma {:induction false} FindKeyedFinds<V>(t: seq<Keyed<V>>, key: string)
    ensures FindKeyed(t, key).Some? <==> exists r :: r in t && r.key == key
    ensures FindKeyed(t, key).Some? ==> FindKeyed(t, key).value in t && FindKeyed(t, key).value.key == key
  {
    if t != [] {
      FindKeyedFinds(t[1..], key);
      if exists r :: r in t && r.key == key && t[0].key != key {
        var r :| r in t && r.key == key && t[0].key != key;
        assert r in t[1..];
      }
    }
  }

  lemma FindKeyedUnique<V(!new)>(t: seq<Keyed<V>>, r: Keyed<V>)
    requires KeyedDistinct(t) && r in t
    ensures FindKeyed(t, r.key) == Some(r)
  {
    FindKeyedFinds(t, r.key);
    var s := FindKeyed(t, r.key).value;
    var i :| 0 <= i < |t| && t[i] == r;
    var j :| 0 <= j < |t| && t[j] == s;
    assert i == j;
  }

  lemma {:induction false} FindAfterPut<V>(t: seq<Keyed<V>>, key: string, newId: nat, val: V, k: string)
    ensures FindKeyed(PutKeyed(t, key, newId, val), k) ==
            if k != key then FindKeyed(t, k)
            else Some(Keyed(if FindKeyed(t, key).Some? then FindKeyed(t, key).value.id else newId, key, val))
  {
    if t != [] {
      if t[0].key == key {
        assert PutKeyed(t, key, newId, val)[1..] == t[1..];
      } else {
        assert PutKeyed(t, key, newId, val)[1..] == PutKeyed(t[1..], key, newId, val);
        FindAfterPut(t[1..], key, newId, val, k);
      }
    }
  }

  lemma {:induction false} FindAfterRemove<V>(t: seq<Keyed<V>>, key: string, k: string)
    ensures FindKeyed(RemoveKeyed(t, key), k) == if k == key then None else FindKeyed(t, k)
  {
    if t != [] {
      FindAfterRemove(t[1..], key, k);
      if t[0].key != key {
        assert RemoveKeyed(t, key)[1..] == RemoveKeyed(t[1..], key);
      }
    }
  }

  /** What an upsert leaves in the table: the same rows elsewhere, in the same places. */
  lemma {:induction false} PutKeyedRows<V>(t: seq<Keyed<V>>, key: string, newId: nat, val: V)
    ensures var u := PutKeyed(t, key, newId, val);
            && (forall i | 0 <= i < |t| :: i < |u| && u[i].id == t[i].id && u[i].key == t[i].key)
            && |u| == (if FindKeyed(t, key).Some? then |t| else |t| + 1)
            && (FindKeyed(t, key).None? ==> u[|t|] == Keyed(newId, key, val) && forall r | r in t :: r.key != key)
  {
    if t != [] && t[0].key != key {
      PutKeyedRows(t[1..], key, newId, val);
    }
  }

  lemma PutKeyedOk<V(!new)>(t: seq<Keyed<V>>, key: string, newId: nat, val: V)
    requires KeyedOk(t, newId)
    ensures KeyedOk(PutKeyed(t, key, newId, val), newId + 1)
    ensures IdsOf(t) <= IdsOf(PutKeyed(t, key, newId, val))
  {
    PutKeyedRows(t, key, newId, val);
    var u := PutKeyed(t, key, newId, val);
    forall r | r in u
      ensures r.id < newId + 1
    {
      var i :| 0 <= i < |u| && u[i] == r;
      if i < |t| {
        assert t[i] in t;
      }
    }
    forall i, j | 0 <= i < j < |u|
      ensures u[i].id != u[j].id && u[i].key != u[j].key
    {
      assert t[i] in t;
    }
    forall id | id in IdsOf(t)
      ensures id in IdsOf(u)
    {
      var i :| 0 <= i < |t| && t[i].id == id;
      assert u[i] in u;
    }
  }

  lemma {:induction false} RemoveKeyedMember<V>(t: seq<Keyed<V>>, key: string, r: Keyed<V>)
    ensures r in RemoveKeyed(t, key) <==> r in t && r.key != key
  {
    if t != [] {
      RemoveKeyedMember(t[1..], key, r);
    }
  }

  lemma {:induction false} RemoveKeyedOk<V(!new)>(t: seq<Keyed<V>>, key: string, bound: nat)
    requires KeyedOk(t, bound)
    ensures KeyedOk(RemoveKeyed(t, key), bound)
  {
    if t != [] {
      RemoveKeyedOk(t[1..], key, bound);
      var rest := RemoveKeyed(t[1..], key);
      forall r | r in rest
        ensures r.id < bound && r.id != t[0].id && r.key != t[0].key
      {
        RemoveKeyedMember(t[1..], key, r);
        var i :| 0 <= i < |t[1..]| && t[1..][i] == r;
        assert t[i + 1] == r;
      }
      assert t[0] in t;
    }
  }

  // ---- The tables ----

  datatype FlagCols = FlagCols(valueType: ValueType, enabled: bool, defaultVariantKey: string, archived: bool)

  datatype RuleRow = RuleRow(id: nat, rank: nat, segmentKey: Option<string>, variantKey: Option<string>,
      bucketSalt: string)

  /** `nextId` stands for the generator of fresh row ids. */
  datatype Tables = Tables(
    flags: seq<Keyed<FlagCols>>,
    variants: seq<Row<Variant>>,
    rules: seq<Row<RuleRow>>,
    distributions: seq<Row<Distribution>>,
    ruleConstraints: seq<Row<Row<Constraint>>>,
    segments: seq<Keyed<string>>,
    segmentConstraints: seq<Row<Constraint>>,
    nextId: nat)

  const EMPTY := Tables([], [], [], [], [], [], [], 0)

  ghost function RuleIds(t: seq<Row<RuleRow>>): set<nat> {
    set r | r in t :: r.val.id
  }

  /** PRIMARY KEY (id) of the rule table. */
  predicate RuleIdsDistinct(t: seq<Row<RuleRow>>) {
    t == [] || ((forall r | r in t[1..] :: r.val.id != t[0].val.id) && RuleIdsDistinct(t[1..]))
  }

  /** UNIQUE (flag_id, key) of the variant table. */
  predicate VariantKeysDistinct(vs: seq<Variant>) {
    vs == [] || ((forall v | v in vs[1..] :: v.key != vs[0].key) && VariantKeysDistinct(vs[1..]))
  }

  /** The rule tables are well formed relative to the flags that own them. */
  ghost predicate RuleTablesOk(t: Tables) {
    && RuleIdsDistinct(t.rules)
    && (forall r | r in t.rules :: r.val.id < t.nextId)
    && OwnersIn(t.rules, IdsOf(t.flags))
    && OwnersIn(t.distributions, RuleIds(t.rules))
    && OwnersIn(t.ruleConstraints, RuleIds(t.rules))
    && (forall d | d in t.distributions :: d.val.weight <= 100)
  }

  ghost predicate VariantTableOk(t: Tables) {
    (forall id: nat :: VariantKeysDistinct(RowsOf(t.variants, id))) && OwnersIn(t.variants, IdsOf(t.flags))
  }

  ghost predicate SegmentTablesOk(t: Tables) {
    KeyedOk(t.segments, t.nextId) && OwnersIn(t.segmentConstraints, IdsOf(t.segments))
  }

  /** What the schema guarantees of any committed state: keys, foreign keys and the weight check. */
  ghost predicate TablesOk(t: Tables) {
    KeyedOk(t.flags, t.nextId) && VariantTableOk(t) && RuleTablesOk(t) && SegmentTablesOk(t)
  }

  // ---- Reading the tables back ----

  /** `ORDER BY rank`, keeping rows of equal rank in table order. */
  function InsertByRank(x: RuleRow, s: seq<RuleRow>): seq<RuleRow> {
    if s == [] || x.rank <= s[0].rank then [x] + s else [s[0]] + InsertByRank(x, s[1..])
  }

  function SortByRank(s: seq<RuleRow>): seq<RuleRow> {
    if s == [] then [] else InsertByRank(s[0], SortByRank(s[1..]))
  }

  function GroupBound(rows: seq<Row<Constraint>>): nat {
    if rows == [] then 0
    else if rows[0].owner + 1 > GroupBound(rows[1..]) then rows[0].owner + 1
    else GroupBound(rows[1..])
  }

  /** The OR-groups at the indexes from `i` on, in index order; an index without rows gives no group. */
  function GroupsFrom(rows: seq<Row<Constraint>>, i: nat, bound: nat): seq<ConstraintGroup>
    decreases bound - i
  {
    if i >= bound then []
    else (if RowsOf(rows, i) == [] then [] else [ConstraintGroup(RowsOf(rows, i))]) + GroupsFrom(rows, i + 1, bound)
  }

  function Groups(rows: seq<Row<Constraint>>): seq<ConstraintGroup> {
    GroupsFrom(rows, 0, GroupBound(rows))
  }

  function RuleOf(t: Tables, r: RuleRow): Rule {
    Rule(r.rank, r.segmentKey, r.variantKey, RowsOf(t.distributions, r.id), Groups(RowsOf(t.ruleConstraints, r.id)),
        r.bucketSalt)
  }

  function RulesOf(t: Tables, rows: seq<RuleRow>): seq<Rule> {
    if rows == [] then [] else [RuleOf(t, rows[0])] + RulesOf(t, rows[1..])
  }

  function FlagOf(t: Tables, r: Keyed<FlagCols>): Flag {
    Flag(r.key, r.val.valueType, r.val.enabled, r.val.defaultVariantKey, r.val.archived,
         RowsOf(t.variants, r.id), RulesOf(t, SortByRank(RowsOf(t.rules, r.id))))
  }

  function SegmentOf(t: Tables, r: Keyed<string>): Segment {
    Segment(r.key, r.val, RowsOf(t.segmentConstraints, r.id))
  }

  function FlagAt(t: Tables, key: string): Option<Flag> {
    match FindKeyed(t.flags, key)
    case None => None
    case Some(r) => Some(FlagOf(t, r))
  }

  function SegmentAt(t: Tables, key: string): Option<Segment> {
    match FindKeyed(t.segments, key)
    case None => None
    case Some(r) => Some(SegmentOf(t, r))
  }

  function KeysOf<V(==)>(t: seq<Keyed<V>>): set<string> {
    set r | r in t :: r.key
  }

  /** `s` shows under every key exactly what the tables hold there. */
  ghost predicate Reads(s: Snapshot, t: Tables) {
    forall k :: Get(s.flags, k) == FlagAt(t, k) && Get(s.segments, k) == SegmentAt(t, k)
  }

  lemma KeysAreFound<V>(t: seq<Keyed<V>>)
    ensures forall k :: k in KeysOf(t) <==> FindKeyed(t, k).Some?
    ensures forall k | k in KeysOf(t) :: FindKeyed(t, k).value.key == k
  {
    forall k
      ensures k in KeysOf(t) <==> FindKeyed(t, k).Some?
      ensures k in KeysOf(t) ==> FindKeyed(t, k).value.key == k
    {
      FindKeyedFinds(t, k);
    }
  }

  function FlagMap(t: Tables): (m: map<string, Flag>)
    ensures forall k :: Get(m, k) == FlagAt(t, k)
    ensures forall k | k in m :: m[k].key == k
  {
    KeysAreFound(t.flags);
    map k | k in KeysOf(t.flags) :: FlagAt(t, k).value
  }

  function SegmentMap(t: Tables): (m: map<string, Segment>)
    ensures forall k :: Get(m, k) == SegmentAt(t, k)
    ensures forall k | k in m :: m[k].key == k
  {
    KeysAreFound(t.segments);
    map k | k in KeysOf(t.segments) :: SegmentAt(t, k).value
  }

  /** The snapshot that a read of these rows, labelled `version`, assembles. */
  function Assemble(version: int, t: Tables): (s: Snapshot)
    ensures WellKeyed(s) && Reads(s, t)
  {
    Snapshot(version, FlagMap(t), SegmentMap(t))
  }
}
