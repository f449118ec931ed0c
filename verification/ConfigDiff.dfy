/** Comparing a live configuration with a declared one: equality of variants and rules, and the diff. */
module ConfigDiff {
  import opened Basics
  import opened FlagModel
  import opened FlagTables

  // ---- Variants, compared without regard to order ----

  function InsertByKey(v: Variant, s: seq<Variant>): seq<Variant> {
    if s == [] || !StringLess(s[0].key, v.key) then [v] + s else [s[0]] + InsertByKey(v, s[1..])
  }

  /** A stable sort by key. */
  function SortByKey(vs: seq<Variant>): seq<Variant> {
    if vs == [] then [] else InsertByKey(vs[0], SortByKey(vs[1..]))
  }

  predicate VariantsEqual(a: seq<Variant>, b: seq<Variant>) {
    |a| == |b| && SortByKey(a) == SortByKey(b)
  }

  /** The values listed under one key, in list order. */
  function ValuesFor(vs: seq<Variant>, k: string): seq<Json> {
    if vs == [] then []
    else if vs[0].key == k then [vs[0].value] + ValuesFor(vs[1..], k)
    else ValuesFor(vs[1..], k)
  }

  ghost predicate SameValues(a: seq<Variant>, b: seq<Variant>) {
    forall k :: ValuesFor(a, k) == ValuesFor(b, k)
  }

  ghost predicate SameLookups(a: seq<Variant>, b: seq<Variant>) {
    forall k :: FindVariant(a, k) == FindVariant(b, k)
  }

  predicate KeySorted(s: seq<Variant>) {
    s == [] || ((forall v | v in s[1..] :: !StringLess(v.key, s[0].key)) && KeySorted(s[1..]))
  }

  lemma {:induction false} InsertByKeyFacts(v: Variant, s: seq<Variant>, k: string)
    requires KeySorted(s)
    ensures KeySorted(InsertByKey(v, s)) && |InsertByKey(v, s)| == |s| + 1
    ensures forall w | w in InsertByKey(v, s) :: w == v || w in s
    ensures ValuesFor(InsertByKey(v, s), k) == (if v.key == k then [v.value] else []) + ValuesFor(s, k)
  {
    if s != [] {
      StringLessTotal(s[0].key, v.key);
      if StringLess(s[0].key, v.key) {
        InsertByKeyFacts(v, s[1..], k);
        assert InsertByKey(v, s)[1..] == InsertByKey(v, s[1..]);
      } else {
        assert InsertByKey(v, s)[1..] == s;
        forall w | w in s
          ensures !StringLess(w.key, v.key)
        {
          if StringLess(w.key, v.key) && w != s[0] {
            assert w in s[1..];
            StringLessTotal(v.key, s[0].key);
            if v.key != s[0].key {
              StringLessTransitive(w.key, v.key, s[0].key);
            }
          }
        }
      }
    }
  }

  lemma {:induction false} SortByKeyFacts(vs: seq<Variant>, k: string)
    ensures KeySorted(SortByKey(vs)) && |SortByKey(vs)| == |vs|
    ensures ValuesFor(SortByKey(vs), k) == ValuesFor(vs, k)
  {
    if vs != [] {
      SortByKeyFacts(vs[1..], k);
      InsertByKeyFacts(vs[0], SortByKey(vs[1..]), k);
    }
  }

  lemma {:induction false} NoValuesBelow(s: seq<Variant>, k: string)
    requires forall v | v in s :: v.key != k
    ensures ValuesFor(s, k) == []
  {
    if s != [] {
      NoValuesBelow(s[1..], k);
    }
  }

  /** Sorted lists holding the same values under every key are the same list. */
  lemma {:induction false} SortedByValues(a: seq<Variant>, b: seq<Variant>)
    requires KeySorted(a) && KeySorted(b) && forall k :: ValuesFor(a, k) == ValuesFor(b, k)
    ensures a == b
  {
    assert b != [] ==> ValuesFor(b, b[0].key) != [];
    if a != [] {
      assert ValuesFor(a, a[0].key) == ValuesFor(b, a[0].key);
      assert b != [];
      HeadsAgree(a, b);
      HeadsAgree(b, a);
      StringLessTotal(a[0].key, b[0].key);
      assert a[0].value == ValuesFor(a, a[0].key)[0];
      forall k
        ensures ValuesFor(a[1..], k) == ValuesFor(b[1..], k)
      {
        assert ValuesFor(a, k) == ValuesFor(b, k);
        if a[0].key == k {
          assert ValuesFor(a[1..], k) == ValuesFor(a, k)[1..];
          assert ValuesFor(b[1..], k) == ValuesFor(b, k)[1..];
        }
      }
      SortedByValues(a[1..], b[1..]);
      assert a == [a[0]] + a[1..] && b == [b[0]] + b[1..];
    }
  }

  lemma HeadsAgree(a: seq<Variant>, b: seq<Variant>)
    requires a != [] && b != [] && KeySorted(b) && ValuesFor(a, a[0].key) == ValuesFor(b, a[0].key)
    ensures !StringLess(a[0].key, b[0].key)
  {
    if StringLess(a[0].key, b[0].key) {
      forall v | v in b
        ensures v.key != a[0].key
      {
        StringLessTotal(a[0].key, b[0].key);
        if v != b[0] {
          assert v in b[1..];
        }
      }
      NoValuesBelow(b, a[0].key);
      assert false;
    }
  }

  /** `variants_equal` holds exactly when both lists give every key the same values. */
  lemma VariantsEqualMeaning(a: seq<Variant>, b: seq<Variant>)
    ensures VariantsEqual(a, b) <==> SameValues(a, b)
  {
    forall k
      ensures ValuesFor(SortByKey(a), k) == ValuesFor(a, k) && ValuesFor(SortByKey(b), k) == ValuesFor(b, k)
    {
      SortByKeyFacts(a, k);
      SortByKeyFacts(b, k);
    }
    SortByKeyFacts(a, "");
    SortByKeyFacts(b, "");
    if VariantsEqual(a, b) {
      forall k
        ensures ValuesFor(a, k) == ValuesFor(b, k)
      {
        SortByKeyFacts(a, k);
        SortByKeyFacts(b, k);
      }
    }
    if SameValues(a, b) {
      SortedByValues(SortByKey(a), SortByKey(b));
    }
  }

  lemma {:induction false} FindIsFirstValue(vs: seq<Variant>, k: string)
    ensures FindVariant(vs, k) == if ValuesFor(vs, k) == [] then None else Some(Variant(k, ValuesFor(vs, k)[0]))
  {
    if vs != [] && vs[0].key != k {
      FindIsFirstValue(vs[1..], k);
    }
  }

  lemma {:induction false} DistinctHasOneValue(vs: seq<Variant>, k: string)
    requires VariantKeysDistinct(vs)
    ensures |ValuesFor(vs, k)| <= 1
  {
    if vs != [] {
      if vs[0].key == k {
        NoValuesBelow(vs[1..], k);
      } else {
        DistinctHasOneValue(vs[1..], k);
      }
    }
  }

  /** Lists that repeat no key are distinguished by lookup alone. */
  lemma DistinctEqualIffLookupsAgree(a: seq<Variant>, b: seq<Variant>)
    requires VariantKeysDistinct(a) && VariantKeysDistinct(b)
    ensures VariantsEqual(a, b) <==> SameLookups(a, b)
  {
    VariantsEqualMeaning(a, b);
    if VariantsEqual(a, b) {
      forall k
        ensures FindVariant(a, k) == FindVariant(b, k)
      {
        OneValueIsLookup(a, b, k);
      }
    }
    if SameLookups(a, b) {
      forall k
        ensures ValuesFor(a, k) == ValuesFor(b, k)
      {
        OneValueIsLookup(a, b, k);
      }
    }
  }

  lemma OneValueIsLookup(a: seq<Variant>, b: seq<Variant>, k: string)
    requires VariantKeysDistinct(a) && VariantKeysDistinct(b)
    ensures ValuesFor(a, k) == ValuesFor(b, k) <==> FindVariant(a, k) == FindVariant(b, k)
  {
    FindIsFirstValue(a, k);
    FindIsFirstValue(b, k);
    DistinctHasOneValue(a, k);
    DistinctHasOneValue(b, k);
  }

  /** Only a list without repeated keys can equal one. */
  lemma {:induction false} RepeatedKeyShows(vs: seq<Variant>) returns (k: string)
    requires !VariantKeysDistinct(vs)
    ensures |ValuesFor(vs, k)| >= 2
  {
    if exists v :: v in vs[1..] && v.key == vs[0].key {
      k := vs[0].key;
      SomeValue(vs[1..], k);
    } else {
      k := RepeatedKeyShows(vs[1..]);
    }
  }

  lemma {:induction false} SomeValue(vs: seq<Variant>, k: string)
    requires exists v :: v in vs && v.key == k
    ensures ValuesFor(vs, k) != []
  {
    if vs[0].key != k {
      var v :| v in vs && v.key == k;
      assert v in vs[1..];
      SomeValue(vs[1..], k);
    }
  }

  // ---- Rules, flags and segments ----

  /** Rules compared in order, with rank set aside. */
  predicate RulesEqual(a: seq<Rule>, b: seq<Rule>) {
    |a| == |b| && forall i | 0 <= i < |a| :: a[i].(rank := 0) == b[i].(rank := 0)
  }

  datatype Field = ValueTypeField | EnabledField | DefaultVariantField | ArchivedField | VariantsField | RulesField
                 | NameField | ConstraintsField

  predicate DiffersIn(live: Flag, desired: Flag, field: Field) {
    match field
    case ValueTypeField => live.valueType != desired.valueType
    case EnabledField => live.enabled != desired.enabled
    case DefaultVariantField => live.defaultVariantKey != desired.defaultVariantKey
    case ArchivedField => live.archived != desired.archived
    case VariantsField => !VariantsEqual(live.variants, desired.variants)
    case RulesField => !RulesEqual(live.rules, desired.rules)
    case _ => false
  }

  function DifferingFields(live: Flag, desired: Flag, fields: seq<Field>): seq<Field> {
    if fields == [] then []
    else if DiffersIn(live, desired, fields[0]) then [fields[0]] + DifferingFields(live, desired, fields[1..])
    else DifferingFields(live, desired, fields[1..])
  }

  const FLAG_FIELDS := [ValueTypeField, EnabledField, DefaultVariantField, ArchivedField, VariantsField, RulesField]

  /** The flag fields that differ, in the order they are checked. */
  function FlagDiffFields(live: Flag, desired: Flag): seq<Field> {
    DifferingFields(live, desired, FLAG_FIELDS)
  }

  lemma {:induction false} DifferingFieldsMember(live: Flag, desired: Flag, fields: seq<Field>, field: Field)
    ensures field in DifferingFields(live, desired, fields) <==> field in fields && DiffersIn(live, desired, field)
  {
    if fields != [] {
      DifferingFieldsMember(live, desired, fields[1..], field);
    }
  }

  /** No field differs: the flags are equal up to rank and variant order. */
  ghost predicate FlagsEqual(live: Flag, desired: Flag) {
    && live.valueType == desired.valueType
    && live.enabled == desired.enabled
    && live.defaultVariantKey == desired.defaultVariantKey
    && live.archived == desired.archived
    && VariantsEqual(live.variants, desired.variants)
    && RulesEqual(live.rules, desired.rules)
  }

  lemma FlagDiffEmptyIffEqual(live: Flag, desired: Flag)
    ensures FlagDiffFields(live, desired) == [] <==> FlagsEqual(live, desired)
  {
    DifferingFieldsMember(live, desired, FLAG_FIELDS, ValueTypeField);
    DifferingFieldsMember(live, desired, FLAG_FIELDS, EnabledField);
    DifferingFieldsMember(live, desired, FLAG_FIELDS, DefaultVariantField);
    DifferingFieldsMember(live, desired, FLAG_FIELDS, ArchivedField);
    DifferingFieldsMember(live, desired, FLAG_FIELDS, VariantsField);
    DifferingFieldsMember(live, desired, FLAG_FIELDS, RulesField);
    if FlagDiffFields(live, desired) != [] {
      DifferingFieldsMember(live, desired, FLAG_FIELDS, FlagDiffFields(live, desired)[0]);
    }
  }

  function SegmentDiffFields(live: Segment, desired: Segment): seq<Field> {
    (if live.name != desired.name then [NameField] else []) +
    (if live.constraints != desired.constraints then [ConstraintsField] else [])
  }

  /** Rule by rule, everything but the rank is the same. */
  ghost predicate SameRulesInOrder(a: seq<Rule>, b: seq<Rule>) {
    && |a| == |b|
    && forall i | 0 <= i < |a| ::
         && a[i].segmentKey == b[i].segmentKey && a[i].variantKey == b[i].variantKey
         && a[i].bucketSalt == b[i].bucketSalt && a[i].distributions == b[i].distributions
         && a[i].constraintGroups == b[i].constraintGroups
  }

  lemma RulesEqualMeaning(a: seq<Rule>, b: seq<Rule>)
    ensures RulesEqual(a, b) <==> SameRulesInOrder(a, b)
  {
  }

  /** Each field is named exactly when it differs, the variants as lookups per key, the rules rank aside. */
  lemma FlagFieldsAre(live: Flag, desired: Flag)
    ensures ValueTypeField in FlagDiffFields(live, desired) <==> live.valueType != desired.valueType
    ensures EnabledField in FlagDiffFields(live, desired) <==> live.enabled != desired.enabled
    ensures DefaultVariantField in FlagDiffFields(live, desired) <==>
              live.defaultVariantKey != desired.defaultVariantKey
    ensures ArchivedField in FlagDiffFields(live, desired) <==> live.archived != desired.archived
    ensures VariantsField in FlagDiffFields(live, desired) <==> !SameValues(live.variants, desired.variants)
    ensures RulesField in FlagDiffFields(live, desired) <==> !SameRulesInOrder(live.rules, desired.rules)
  {
    VariantsEqualMeaning(live.variants, desired.variants);
    RulesEqualMeaning(live.rules, desired.rules);
    DifferingFieldsMember(live, desired, FLAG_FIELDS, ValueTypeField);
    DifferingFieldsMember(live, desired, FLAG_FIELDS, EnabledField);
    DifferingFieldsMember(live, desired, FLAG_FIELDS, DefaultVariantField);
    DifferingFieldsMember(live, desired, FLAG_FIELDS, ArchivedField);
    DifferingFieldsMember(live, desired, FLAG_FIELDS, VariantsField);
    DifferingFieldsMember(live, desired, FLAG_FIELDS, RulesField);
  }

  lemma SegmentFieldsAre(live: Segment, desired: Segment)
    ensures NameField in SegmentDiffFields(live, desired) <==> live.name != desired.name
    ensures ConstraintsField in SegmentDiffFields(live, desired) <==> live.constraints != desired.constraints
    ensures forall x | x in SegmentDiffFields(live, desired) :: x == NameField || x == ConstraintsField
  {
  }

  // ---- The diff ----

  datatype TargetKind = SegmentTarget | FlagTarget

  datatype ChangeOp = Create | Update | Delete

  /** What the audit log is told: what was created, or the fields that differ. */
  datatype Detail =
    | NoDetail
    | SegmentDetail(name: string)
    | FlagDetail(valueType: ValueType, enabled: bool, defaultVariantKey: string)
    | Fields(fields: seq<Field>)

  datatype ConfigChange = ConfigChange(kind: TargetKind, key: string, op: ChangeOp, detail: Detail)

  /** The change one declared segment calls for. */
  function SegmentChange(current: Snapshot, s: Segment): seq<ConfigChange> {
    if s.key !in current.segments then [ConfigChange(SegmentTarget, s.key, Create, SegmentDetail(s.name))]
    else if SegmentDiffFields(current.segments[s.key], s) != [] then
      [ConfigChange(SegmentTarget, s.key, Update, Fields(SegmentDiffFields(current.segments[s.key], s)))]
    else []
  }

  function FlagChange(current: Snapshot, f: Flag): seq<ConfigChange> {
    if f.key !in current.flags then
      [ConfigChange(FlagTarget, f.key, Create, FlagDetail(f.valueType, f.enabled, f.defaultVariantKey))]
    else if FlagDiffFields(current.flags[f.key], f) != [] then
      [ConfigChange(FlagTarget, f.key, Update, Fields(FlagDiffFields(current.flags[f.key], f)))]
    else []
  }

  ghost predicate Declares(flags: seq<Flag>, key: string) {
    exists f :: f in flags && f.key == key
  }

  ghost predicate DeclaresSegment(segments: seq<Segment>, key: string) {
    exists s :: s in segments && s.key == key
  }

  /** `c` deletes one of the live keys `keys`, none of which the declarations name. */
  ghost predicate PrunesSegment(keys: set<string>, segments: seq<Segment>, c: ConfigChange) {
    c.op == Delete && c.detail == NoDetail && c.kind == SegmentTarget && c.key in keys &&
        !DeclaresSegment(segments, c.key)
  }

  ghost predicate PrunesFlag(keys: set<string>, flags: seq<Flag>, c: ConfigChange) {
    c.op == Delete && c.detail == NoDetail && c.kind == FlagTarget && c.key in keys && !Declares(flags, c.key)
  }

  /** What the diff must contain: what each declaration calls for, and a delete for every live key not declared. */
  ghost predicate Wanted(current: Snapshot, flags: seq<Flag>, segments: seq<Segment>, c: ConfigChange) {
    || (exists s :: s in segments && c in SegmentChange(current, s))
    || (exists f :: f in flags && c in FlagChange(current, f))
    || PrunesSegment(current.segments.Keys, segments, c)
    || PrunesFlag(current.flags.Keys, flags, c)
  }

  ghost predicate IsDiff(current: Snapshot, flags: seq<Flag>, segments: seq<Segment>, changes: seq<ConfigChange>) {
    forall c :: c in changes <==> Wanted(current, flags, segments, c)
  }

  /** What a diff says of flags: declared but not live, live but differing, live but not declared. */
  lemma FlagChangesAre(current: Snapshot, flags: seq<Flag>, segments: seq<Segment>, changes: seq<ConfigChange>,
                       key: string, detail: Detail)
    requires IsDiff(current, flags, segments, changes)
    ensures ConfigChange(FlagTarget, key, Create, detail) in changes <==>
            && key !in current.flags
            && exists f :: f in flags && f.key == key
                 && detail == FlagDetail(f.valueType, f.enabled, f.defaultVariantKey)
    ensures ConfigChange(FlagTarget, key, Update, detail) in changes <==>
            && key in current.flags
            && exists f :: f in flags && f.key == key
                 && FlagDiffFields(current.flags[key], f) != []
                 && detail == Fields(FlagDiffFields(current.flags[key], f))
    ensures ConfigChange(FlagTarget, key, Delete, detail) in changes <==>
            key in current.flags && detail == NoDetail && forall f | f in flags :: f.key != key
  {
    assert forall op ::
        var c := ConfigChange(FlagTarget, key, op, detail);
        c in changes <==> Wanted(current, flags, segments, c);
    assert forall s :: s in segments ==> forall c | c in SegmentChange(current, s) :: c.kind == SegmentTarget;
  }

  lemma SegmentChangesAre(current: Snapshot, flags: seq<Flag>, segments: seq<Segment>, changes: seq<ConfigChange>,
                          key: string, detail: Detail)
    requires IsDiff(current, flags, segments, changes)
    ensures ConfigChange(SegmentTarget, key, Create, detail) in changes <==>
            && key !in current.segments
            && exists s :: s in segments && s.key == key && detail == SegmentDetail(s.name)
    ensures ConfigChange(SegmentTarget, key, Update, detail) in changes <==>
            && key in current.segments
            && exists s :: s in segments && s.key == key
                 && SegmentDiffFields(current.segments[key], s) != []
                 && detail == Fields(SegmentDiffFields(current.segments[key], s))
    ensures ConfigChange(SegmentTarget, key, Delete, detail) in changes <==>
            key in current.segments && detail == NoDetail && forall s | s in segments :: s.key != key
  {
    assert forall op ::
        var c := ConfigChange(SegmentTarget, key, op, detail);
        c in changes <==> Wanted(current, flags, segments, c);
    assert forall f :: f in flags ==> forall c | c in FlagChange(current, f) :: c.kind == FlagTarget;
  }

  /** What the declared segments call for, in the order they are declared. */
  function SegmentChanges(current: Snapshot, segments: seq<Segment>): seq<ConfigChange> {
    if segments == [] then []
    else SegmentChanges(current, segments[..|segments| - 1]) + SegmentChange(current, segments[|segments| - 1])
  }

  function FlagChanges(current: Snapshot, flags: seq<Flag>): seq<ConfigChange> {
    if flags == [] then []
    else FlagChanges(current, flags[..|flags| - 1]) + FlagChange(current, flags[|flags| - 1])
  }

  lemma {:induction false} SegmentChangesHold(current: Snapshot, segments: seq<Segment>, c: ConfigChange)
    ensures c in SegmentChanges(current, segments) <==> exists s :: s in segments && c in SegmentChange(current, s)
  {
    if segments != [] {
      var front, last := segments[..|segments| - 1], segments[|segments| - 1];
      assert segments == front + [last];
      SegmentChangesHold(current, front, c);
    }
  }

  lemma {:induction false} FlagChangesHold(current: Snapshot, flags: seq<Flag>, c: ConfigChange)
    ensures c in FlagChanges(current, flags) <==> exists f :: f in flags && c in FlagChange(current, f)
  {
    if flags != [] {
      var front, last := flags[..|flags| - 1], flags[|flags| - 1];
      assert flags == front + [last];
      FlagChangesHold(current, front, c);
    }
  }

  /** Each live segment that is not declared is deleted once; the map gives no particular order. */
  ghost predicate PrunedSegments(keys: set<string>, segments: seq<Segment>, pruned: seq<ConfigChange>) {
    Distinct(pruned) && forall c :: c in pruned <==> PrunesSegment(keys, segments, c)
  }

  ghost predicate PrunedFlags(keys: set<string>, flags: seq<Flag>, pruned: seq<ConfigChange>) {
    Distinct(pruned) && forall c :: c in pruned <==> PrunesFlag(keys, flags, c)
  }

  /** The changes in order: declared segments, pruned segments, declared flags, pruned flags. */
  ghost predicate InDiffOrder(
    current: Snapshot, flags: seq<Flag>, segments: seq<Segment>, changes: seq<ConfigChange>,
    prunedSegments: seq<ConfigChange>, prunedFlags: seq<ConfigChange>)
  {
    && PrunedSegments(current.segments.Keys, segments, prunedSegments)
    && PrunedFlags(current.flags.Keys, flags, prunedFlags)
    && changes == SegmentChanges(current, segments) + prunedSegments + FlagChanges(current, flags) + prunedFlags
  }

  lemma InDiffOrderIsDiff(
    current: Snapshot, flags: seq<Flag>, segments: seq<Segment>, changes: seq<ConfigChange>,
    prunedSegments: seq<ConfigChange>, prunedFlags: seq<ConfigChange>)
    requires InDiffOrder(current, flags, segments, changes, prunedSegments, prunedFlags)
    ensures IsDiff(current, flags, segments, changes)
  {
    forall c
      ensures c in changes <==> Wanted(current, flags, segments, c)
    {
      SegmentChangesHold(current, segments, c);
      FlagChangesHold(current, flags, c);
    }
  }

  method DeclaredSegments(current: Snapshot, segments: seq<Segment>) returns (changes: seq<ConfigChange>)
    ensures changes == SegmentChanges(current, segments)
  {
    changes := [];
    for i := 0 to |segments|
      invariant changes == SegmentChanges(current, segments[..i])
    {
      assert segments[..i + 1][..i] == segments[..i];
      changes := changes + SegmentChange(current, segments[i]);
    }
    assert segments[..|segments|] == segments;
  }

  method DeclaredFlags(current: Snapshot, flags: seq<Flag>) returns (changes: seq<ConfigChange>)
    ensures changes == FlagChanges(current, flags)
  {
    changes := [];
    for i := 0 to |flags|
      invariant changes == FlagChanges(current, flags[..i])
    {
      assert flags[..i + 1][..i] == flags[..i];
      changes := changes + FlagChange(current, flags[i]);
    }
    assert flags[..|flags|] == flags;
  }

  /** The four loops of `diff_config`; the live keys come in whatever order the maps give. */
  method DiffConfig(current: Snapshot, flags: seq<Flag>, segments: seq<Segment>) returns (changes: seq<ConfigChange>)
    ensures IsDiff(current, flags, segments, changes)
    ensures exists ps, pf :: InDiffOrder(current, flags, segments, changes, ps, pf)
  {
    var declaredSegments := DeclaredSegments(current, segments);
    var prunedSegments := PruneSegments(current, segments);
    var declaredFlags := DeclaredFlags(current, flags);
    var prunedFlags := PruneFlags(current, flags);
    changes := declaredSegments + prunedSegments + declaredFlags + prunedFlags;
    assert InDiffOrder(current, flags, segments, changes, prunedSegments, prunedFlags);
    InDiffOrderIsDiff(current, flags, segments, changes, prunedSegments, prunedFlags);
  }

  method PruneSegments(current: Snapshot, segments: seq<Segment>) returns (pruned: seq<ConfigChange>)
    ensures PrunedSegments(current.segments.Keys, segments, pruned)
  {
    pruned := [];
    var keys := current.segments.Keys;
    ghost var seen: set<string> := {};
    while keys != {}
      invariant keys + seen == current.segments.Keys && keys !! seen
      invariant PrunedSegments(seen, segments, pruned)
      decreases keys
    {
      var key :| key in keys;
      if !exists s | s in segments :: s.key == key {
        assert forall i | 0 <= i < |pruned| :: pruned[i] in pruned;
        pruned := pruned + [ConfigChange(SegmentTarget, key, Delete, NoDetail)];
      }
      keys, seen := keys - {key}, seen + {key};
    }
  }

  method PruneFlags(current: Snapshot, flags: seq<Flag>) returns (pruned: seq<ConfigChange>)
    ensures PrunedFlags(current.flags.Keys, flags, pruned)
  {
    pruned := [];
    var keys := current.flags.Keys;
    ghost var seen: set<string> := {};
    while keys != {}
      invariant keys + seen == current.flags.Keys && keys !! seen
      invariant PrunedFlags(seen, flags, pruned)
      decreases keys
    {
      var key :| key in keys;
      if !exists f | f in flags :: f.key == key {
        assert forall i | 0 <= i < |pruned| :: pruned[i] in pruned;
        pruned := pruned + [ConfigChange(FlagTarget, key, Delete, NoDetail)];
      }
      keys, seen := keys - {key}, seen + {key};
    }
  }

  /** Live and declared configuration are the same, as far as the diff can tell. */
  ghost predicate Agrees(current: Snapshot, flags: seq<Flag>, segments: seq<Segment>) {
    && (forall k :: k in current.segments <==> DeclaresSegment(segments, k))
    && (forall s | s in segments :: SegmentDiffFields(current.segments[s.key], s) == [])
    && (forall k :: k in current.flags <==> Declares(flags, k))
    && (forall f | f in flags :: FlagDiffFields(current.flags[f.key], f) == [])
  }

  /** The diff is empty exactly when nothing differs. */
  lemma DiffEmptyIffAgrees(current: Snapshot, flags: seq<Flag>, segments: seq<Segment>, changes: seq<ConfigChange>)
    requires IsDiff(current, flags, segments, changes)
    ensures changes == [] <==> Agrees(current, flags, segments)
  {
    if changes == [] {
      forall s | s in segments
        ensures s.key in current.segments && SegmentDiffFields(current.segments[s.key], s) == []
      {
        if SegmentChange(current, s) != [] {
          assert Wanted(current, flags, segments, SegmentChange(current, s)[0]);
        }
      }
      forall f | f in flags
        ensures f.key in current.flags && FlagDiffFields(current.flags[f.key], f) == []
      {
        if FlagChange(current, f) != [] {
          assert Wanted(current, flags, segments, FlagChange(current, f)[0]);
        }
      }
      forall k | k in current.segments
        ensures DeclaresSegment(segments, k)
      {
        assert !Wanted(current, flags, segments, ConfigChange(SegmentTarget, k, Delete, NoDetail));
      }
      forall k | k in current.flags
        ensures Declares(flags, k)
      {
        assert !Wanted(current, flags, segments, ConfigChange(FlagTarget, k, Delete, NoDetail));
      }
    }
    assert changes != [] ==> changes[0] in changes;
  }
}
