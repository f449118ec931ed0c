/**
 Configuration as files: exporting the live state to documents, reading the documents back, and
 when planning them against the same live state finds nothing to change.
 */
module ConfigDocs {
  import opened Basics
  import opened FlagModel
  import opened FlagTables
  import opened ConfigDiff
  import opened Wire

  // ---- Documents ----

  datatype ConstraintDoc = ConstraintDoc(attribute: string, operator: PbEnum<Operator>, values: seq<Json>)

  /** `constraints` is shorthand for one group per constraint; `constraintGroups`, when present, wins. */
  datatype RuleDoc = RuleDoc(
    segment: Option<string>,
    variant: Option<string>,
    distributions: seq<Distribution>,
    constraints: seq<ConstraintDoc>,
    constraintGroups: seq<seq<ConstraintDoc>>,
    bucketSalt: string)

  /** Variants are a map from key to value, held here as its entries in key order. */
  datatype FlagDoc = FlagDoc(
    key: string,
    valueType: PbEnum<ValueType>,
    enabled: bool,
    defaultVariant: string,
    variants: seq<Variant>,
    rules: seq<RuleDoc>)

  datatype SegmentDoc = SegmentDoc(key: string, name: string, constraints: seq<ConstraintDoc>)

  // ---- Wire to document ----

  function ConstraintToDoc(c: PbConstraint): ConstraintDoc {
    ConstraintDoc(c.attribute, c.operator, Map(PbToJson, c.values))
  }

  function GroupToDoc(g: PbGroup): seq<ConstraintDoc> {
    Map(ConstraintToDoc, g.constraints)
  }

  predicate Flat(groups: seq<PbGroup>) {
    forall g | g in groups :: |g.constraints| == 1
  }

  function RuleToDoc(r: PbRule): RuleDoc {
    var flat := Flat(r.constraintGroups);
    RuleDoc(NonEmptyKey(r.segmentKey), NonEmptyKey(r.variantKey), r.distributions,
            if flat then seq(|r.constraintGroups|, i requires 0 <= i < |r.constraintGroups| =>
                               ConstraintToDoc(r.constraintGroups[i].constraints[0]))
            else [],
            if flat then [] else Map(GroupToDoc, r.constraintGroups),
            r.bucketSalt)
  }

  /** Insert into a key-ordered map: a repeated key keeps the later value. */
  function PutInOrder(m: seq<Variant>, v: Variant): seq<Variant> {
    if m == [] || StringLess(v.key, m[0].key) then [v] + m
    else if m[0].key == v.key then [v] + m[1..]
    else [m[0]] + PutInOrder(m[1..], v)
  }

  function CollectInOrder(m: seq<Variant>, vs: seq<Variant>): seq<Variant>
    decreases vs
  {
    if vs == [] then m else CollectInOrder(PutInOrder(m, vs[0]), vs[1..])
  }

  function FlagToDoc(f: PbFlag): FlagDoc {
    FlagDoc(f.key, f.valueType, f.enabled, f.defaultVariantKey,
            CollectInOrder([], Map(VariantFromPb, f.variants)), Map(RuleToDoc, f.rules))
  }

  function SegmentToDoc(s: PbSegment): SegmentDoc {
    SegmentDoc(s.key, s.name, Map(ConstraintToDoc, s.constraints))
  }

  // ---- Document to wire ----

  function ConstraintFromDoc(c: ConstraintDoc): PbConstraint {
    PbConstraint(c.attribute, c.operator, Map(JsonToPb, c.values))
  }

  function GroupFromDoc(g: seq<ConstraintDoc>): PbGroup {
    PbGroup(Map(ConstraintFromDoc, g))
  }

  function RuleFromDoc(rank: nat, r: RuleDoc): PbRule {
    var cs := r.constraints;
    var groups := if r.constraintGroups != [] then Map(GroupFromDoc, r.constraintGroups)
                  else seq(|cs|, i requires 0 <= i < |cs| => PbGroup([ConstraintFromDoc(cs[i])]));
    PbRule(rank, OrEmpty(r.segment), OrEmpty(r.variant), r.distributions, groups, r.bucketSalt)
  }

  /** A rule's rank is its position; a flag read from a file is never archived. */
  function FlagFromDoc(d: FlagDoc): Result<PbFlag, ConversionError> {
    if d.valueType.Unspecified? then Err(ValueTypeUnspecified)
    else Ok(PbFlag(d.key, d.valueType, d.enabled, d.defaultVariant, false, Map(VariantToPb, d.variants),
                   seq(|d.rules|, i requires 0 <= i < |d.rules| => RuleFromDoc(i, d.rules[i]))))
  }

  function SegmentFromDoc(d: SegmentDoc): PbSegment {
    PbSegment(d.key, d.name, Map(ConstraintFromDoc, d.constraints))
  }

  // ---- Through a file and back ----

  lemma ConstraintDocRoundTrip(c: Constraint)
    ensures ConstraintFromDoc(ConstraintToDoc(ConstraintToPb(c))) == ConstraintToPb(NormalConstraint(c))
  {
    forall v | v in c.values
      ensures JsonToPb(PbToJson(JsonToPb(v))) == JsonToPb(NormalJson(v))
    {
    }
    assert Map(JsonToPb, Map(PbToJson, Map(JsonToPb, c.values))) == Map(JsonToPb, Map(NormalJson, c.values));
  }

  /** A document's groups, when it gives any, are the rule's; otherwise each flat constraint is a group of its own. */
  lemma GroupsComeBeforeFlatConstraints(d: RuleDoc, rank: nat)
    ensures var r := RuleFromDoc(rank, d);
            && r.rank == rank && |r.constraintGroups| == (if d.constraintGroups != [] then |d.constraintGroups|
                                                          else |d.constraints|)
            && (d.constraintGroups != [] ==>
                  forall i | 0 <= i < |d.constraintGroups| ::
                    r.constraintGroups[i].constraints == Map(ConstraintFromDoc, d.constraintGroups[i]))
            && (d.constraintGroups == [] ==>
                  forall i | 0 <= i < |d.constraints| ::
                    r.constraintGroups[i].constraints == [ConstraintFromDoc(d.constraints[i])])
  {
  }

  /** A document is read exactly when it names a value type. */
  lemma DocumentReadsIff(d: FlagDoc)
    ensures FlagFromDoc(d).Ok? <==> d.valueType.Known?
  {
  }

  /** The flat form and the grouped form both read back as the groups they were written from. */
  lemma GroupsSurviveDocument(r: Rule, rank: nat)
    ensures RuleFromDoc(rank, RuleToDoc(RuleToPb(r))) == RuleToPb(NormalRule(r).(rank := rank))
  {
    var pb := RuleToPb(r);
    var doc := RuleToDoc(pb);
    var back := RuleFromDoc(rank, doc);
    var want := RuleToPb(NormalRule(r).(rank := rank));
    assert |back.constraintGroups| == |r.constraintGroups| == |want.constraintGroups|;
    forall i | 0 <= i < |r.constraintGroups|
      ensures back.constraintGroups[i] == want.constraintGroups[i]
    {
      var g := r.constraintGroups[i];
      forall c | c in g.constraints { ConstraintDocRoundTrip(c); }
      assert pb.constraintGroups[i] in pb.constraintGroups;
      assert want.constraintGroups[i].constraints == Map(ConstraintToPb, Map(NormalConstraint, g.constraints));
      if Flat(pb.constraintGroups) {
        assert back.constraintGroups[i].constraints ==
            [ConstraintFromDoc(ConstraintToDoc(ConstraintToPb(g.constraints[0])))];
      } else {
        assert back.constraintGroups[i].constraints
            == Map(ConstraintFromDoc, Map(ConstraintToDoc, Map(ConstraintToPb, g.constraints)));
      }
    }
    assert back.constraintGroups == want.constraintGroups;
  }

  lemma {:induction false} PutInOrderFacts(m: seq<Variant>, v: Variant, k: string)
    requires KeySorted(m) && VariantKeysDistinct(m)
    ensures KeySorted(PutInOrder(m, v)) && VariantKeysDistinct(PutInOrder(m, v))
    ensures forall w | w in PutInOrder(m, v) :: w == v || w in m
    ensures FindVariant(PutInOrder(m, v), k) == if k == v.key then Some(v) else FindVariant(m, k)
  {
    if m == [] {
      assert PutInOrder(m, v)[1..] == [];
    } else {
      StringLessTotal(v.key, m[0].key);
      if StringLess(v.key, m[0].key) {
        PutFirst(m, v, k);
      } else if m[0].key == v.key {
        assert PutInOrder(m, v)[1..] == m[1..];
      } else {
        assert PutInOrder(m, v)[1..] == PutInOrder(m[1..], v);
        PutInOrderFacts(m[1..], v, k);
      }
    }
  }

  /** A key below the first is below all of them. */
  lemma PutFirst(m: seq<Variant>, v: Variant, k: string)
    requires m != [] && KeySorted(m) && VariantKeysDistinct(m) && StringLess(v.key, m[0].key)
    ensures KeySorted([v] + m) && VariantKeysDistinct([v] + m)
    ensures FindVariant([v] + m, k) == if k == v.key then Some(v) else FindVariant(m, k)
  {
    assert ([v] + m)[1..] == m;
    forall w | w in m
      ensures !StringLess(w.key, v.key) && w.key != v.key
    {
      StringLessTotal(v.key, m[0].key);
      if w != m[0] {
        assert w in m[1..];
        if StringLess(w.key, v.key) {
          StringLessTransitive(w.key, v.key, m[0].key);
        }
      }
    }
  }

  lemma {:induction false} CollectInOrderFacts(m: seq<Variant>, vs: seq<Variant>, k: string)
    requires KeySorted(m) && VariantKeysDistinct(m)
    ensures VariantKeysDistinct(CollectInOrder(m, vs))
    ensures VariantKeysDistinct(vs) ==>
              FindVariant(CollectInOrder(m, vs), k) == if FindVariant(vs, k).Some? then FindVariant(vs, k)
                  else FindVariant(m, k)
    decreases vs
  {
    if vs != [] {
      PutInOrderFacts(m, vs[0], k);
      CollectInOrderFacts(PutInOrder(m, vs[0]), vs[1..], k);
      FindVariantFinds(vs[1..], k);
    }
  }

  /** What a flag reads back as after being exported, read and sent again. */
  function Reimported(f: Flag): Flag {
    Flag(f.key, f.valueType, f.enabled, f.defaultVariantKey, false,
         Map(NormalVariant, CollectInOrder([], Map(NormalVariant, f.variants))),
         seq(|f.rules|, i requires 0 <= i < |f.rules| => NormalRule(NormalRule(f.rules[i])).(rank := i)))
  }

  /** Export, read back and convert: the whole chain never fails, and this is where it ends. */
  lemma ExportChain(f: Flag)
    ensures FlagFromDoc(FlagToDoc(FlagToPb(f))).Ok?
    ensures FlagFromPb(FlagFromDoc(FlagToDoc(FlagToPb(f))).value) == Ok(Reimported(f))
  {
    var doc := FlagToDoc(FlagToPb(f));
    assert Map(VariantFromPb, Map(VariantToPb, f.variants)) == Map(NormalVariant, f.variants);
    assert Map(VariantFromPb, Map(VariantToPb, doc.variants)) == Map(NormalVariant, doc.variants);
    RulesThroughDocument(f);
    RankedRulesThroughWire(f);
  }

  /** The rules as a document hands them back: normal, and ranked by position. */
  function RankedRules(f: Flag): seq<Rule> {
    seq(|f.rules|, i requires 0 <= i < |f.rules| => NormalRule(f.rules[i]).(rank := i))
  }

  lemma RulesThroughDocument(f: Flag)
    ensures FlagFromDoc(FlagToDoc(FlagToPb(f))).Ok?
    ensures FlagFromDoc(FlagToDoc(FlagToPb(f))).value.rules == Map(RuleToPb, RankedRules(f))
  {
    var pb := FlagFromDoc(FlagToDoc(FlagToPb(f))).value;
    forall i | 0 <= i < |f.rules|
      ensures pb.rules[i] == RuleToPb(RankedRules(f)[i])
    {
      GroupsSurviveDocument(f.rules[i], i);
    }
  }

  lemma RankedRulesThroughWire(f: Flag)
    ensures TryMap(RuleFromPb, Map(RuleToPb, RankedRules(f))) == Ok(Reimported(f).rules)
  {
    forall r | r in RankedRules(f) { RuleRoundTrip(r); }
    TryMapThrough(RuleToPb, RuleFromPb, NormalRule, RankedRules(f));
    assert Map(NormalRule, RankedRules(f)) == Reimported(f).rules;
  }

  /** An exported flag plans as no change exactly when it is not archived, repeats no variant key and is wire-normal. */
  lemma ExportThenPlanFlag(f: Flag)
    ensures FlagDiffFields(f, Reimported(f)) == [] <==> !f.archived && VariantKeysDistinct(f.variants) && FlagNormal(f)
  {
    FlagDiffEmptyIffEqual(f, Reimported(f));
    ExportRules(f);
    if VariantKeysDistinct(f.variants) && (forall v | v in f.variants :: WireNormal(v.value)) {
      ExportVariants(f.variants);
    }
    if VariantsEqual(f.variants, Reimported(f).variants) {
      ExportedVariantsAreNormal(f.variants);
    }
  }

  lemma NormalRuleTwice(r: Rule)
    ensures NormalRule(NormalRule(r)) == r <==> RuleNormal(r)
    ensures RuleNormal(NormalRule(r))
  {
    RuleNormalIff(r);
    RuleRoundTrip(r);
    forall g | g in NormalRule(r).constraintGroups
      ensures forall c | c in g.constraints :: ConstraintNormal(c)
    {
      var i :| 0 <= i < |r.constraintGroups| && g == NormalGroup(r.constraintGroups[i]);
      forall c | c in g.constraints
        ensures ConstraintNormal(c)
      {
        var j :| 0 <= j < |g.constraints| && g.constraints[j] == c;
        forall v | v in c.values
          ensures WireNormal(v)
        {
          var n :| 0 <= n < |c.values| && c.values[n] == v;
          FromWireIsNormal(JsonToPb(r.constraintGroups[i].constraints[j].values[n]));
        }
      }
    }
    RuleNormalIff(NormalRule(r));
  }

  lemma ExportRules(f: Flag)
    ensures RulesEqual(f.rules, Reimported(f).rules) <==> forall r | r in f.rules :: RuleNormal(r)
  {
    forall i | 0 <= i < |f.rules|
      ensures f.rules[i].(rank := 0) == Reimported(f).rules[i].(rank := 0) <==> RuleNormal(f.rules[i])
    {
      NormalRuleTwice(f.rules[i]);
      var n := NormalRule(NormalRule(f.rules[i]));
      assert Reimported(f).rules[i].(rank := 0) == n.(rank := 0);
      assert n.rank == f.rules[i].rank;
      assert f.rules[i].(rank := 0) == n.(rank := 0) <==> f.rules[i] == n;
    }
    assert forall r :: r in f.rules <==> exists i :: 0 <= i < |f.rules| && f.rules[i] == r;
  }

  lemma MapNormalFixed(vs: seq<Variant>)
    ensures Map(NormalVariant, vs) == vs <==> forall v | v in vs :: WireNormal(v.value)
  {
    MapFixed(NormalVariant, vs);
    forall v | v in vs { JsonRoundTrip(v.value); }
  }

  lemma {:induction false} CollectMembers(m: seq<Variant>, vs: seq<Variant>)
    requires KeySorted(m) && VariantKeysDistinct(m)
    ensures forall w | w in CollectInOrder(m, vs) :: w in m || w in vs
    decreases vs
  {
    if vs != [] {
      PutInOrderFacts(m, vs[0], "");
      CollectMembers(PutInOrder(m, vs[0]), vs[1..]);
    }
  }

  lemma ExportVariants(vs: seq<Variant>)
    requires VariantKeysDistinct(vs) && forall v | v in vs :: WireNormal(v.value)
    ensures VariantsEqual(vs, Map(NormalVariant, CollectInOrder([], Map(NormalVariant, vs))))
  {
    MapNormalFixed(vs);
    var sorted := CollectInOrder([], vs);
    CollectMembers([], vs);
    MapNormalFixed(sorted);
    forall k
      ensures FindVariant(vs, k) == FindVariant(sorted, k)
    {
      CollectInOrderFacts([], vs, k);
    }
    CollectInOrderFacts([], vs, "");
    DistinctEqualIffLookupsAgree(vs, sorted);
  }

  /** Only distinct, normal variants can equal what comes out of the chain. */
  lemma ExportedVariantsAreNormal(vs: seq<Variant>)
    requires VariantsEqual(vs, Map(NormalVariant, CollectInOrder([], Map(NormalVariant, vs))))
    ensures VariantKeysDistinct(vs) && forall v | v in vs :: WireNormal(v.value)
  {
    var sorted := CollectInOrder([], Map(NormalVariant, vs));
    var out := Map(NormalVariant, sorted);
    CollectInOrderFacts([], Map(NormalVariant, vs), "");
    MapKeepsDistinct(sorted);
    VariantsEqualMeaning(vs, out);
    if !VariantKeysDistinct(vs) {
      var k := RepeatedKeyShows(vs);
      DistinctHasOneValue(out, k);
      assert false;
    }
    forall v | v in vs
      ensures WireNormal(v.value)
    {
      ValueListed(vs, v);
      ValuesAreMembers(out, v.key, v.value);
      var i :| 0 <= i < |out| && out[i] == v;
      FromWireIsNormal(JsonToPb(sorted[i].value));
    }
  }

  lemma {:induction false} MapKeepsDistinct(vs: seq<Variant>)
    requires VariantKeysDistinct(vs)
    ensures VariantKeysDistinct(Map(NormalVariant, vs))
  {
    if vs != [] {
      MapKeepsDistinct(vs[1..]);
      assert Map(NormalVariant, vs)[1..] == Map(NormalVariant, vs[1..]);
      forall w | w in Map(NormalVariant, vs[1..])
        ensures w.key != vs[0].key
      {
        var i :| 0 <= i < |vs[1..]| && w == NormalVariant(vs[1..][i]);
        assert vs[1..][i] in vs[1..];
      }
    }
  }

  lemma {:induction false} ValueListed(vs: seq<Variant>, v: Variant)
    requires v in vs
    ensures v.value in ValuesFor(vs, v.key)
  {
    if vs[0] != v {
      assert v in vs[1..];
      ValueListed(vs[1..], v);
    }
  }

  lemma {:induction false} ValuesAreMembers(vs: seq<Variant>, k: string, j: Json)
    requires j in ValuesFor(vs, k)
    ensures Variant(k, j) in vs
  {
    if !(vs[0].key == k && vs[0].value == j) {
      ValuesAreMembers(vs[1..], k, j);
    } else {
      assert vs[0] == Variant(k, j);
    }
  }

  /** A segment goes through a document like a constraint list does. */
  lemma SegmentExportChain(s: Segment)
    ensures SegmentFromPb(SegmentFromDoc(SegmentToDoc(SegmentToPb(s)))) == Ok(NormalSegment(NormalSegment(s)))
  {
    forall c | c in s.constraints { ConstraintDocRoundTrip(c); }
    assert Map(ConstraintFromDoc, Map(ConstraintToDoc, Map(ConstraintToPb, s.constraints)))
        == Map(ConstraintToPb, Map(NormalConstraint, s.constraints));
    ConstraintsRoundTrip(Map(NormalConstraint, s.constraints));
  }

  lemma NormalSegmentTwice(s: Segment)
    ensures SegmentDiffFields(s, NormalSegment(NormalSegment(s))) == [] <==> SegmentNormal(s)
  {
    SegmentNormalIff(s);
    SegmentRoundTrip(s);
    SegmentFromPbNormal(SegmentToPb(s));
    SegmentNormalIff(NormalSegment(s));
  }

  // ---- Export, then plan ----

  /**
   `flags` and `segments` are what an export of `live` reads back as through `re` and `rs`: archived flags are
   not exported.
   */
  ghost predicate IsExportBy(
    live: Snapshot, flags: seq<Flag>, segments: seq<Segment>, re: Flag -> Flag, rs: Segment -> Segment)
  {
    && (forall f :: f in flags <==> exists k :: k in live.flags && !live.flags[k].archived && f == re(live.flags[k]))
    && (forall s :: s in segments <==> exists k :: k in live.segments && s == rs(live.segments[k]))
  }

  ghost predicate KeepsKeys(re: Flag -> Flag, rs: Segment -> Segment) {
    (forall f :: re(f).key == f.key) && (forall s :: rs(s).key == s.key)
  }

  ghost predicate FlagKept(re: Flag -> Flag, f: Flag) {
    !f.archived && FlagDiffFields(f, re(f)) == []
  }

  ghost predicate SegmentKept(rs: Segment -> Segment, s: Segment) {
    SegmentDiffFields(s, rs(s)) == []
  }

  lemma ExportDeclares(
    live: Snapshot, flags: seq<Flag>, segments: seq<Segment>, re: Flag -> Flag, rs: Segment -> Segment, k: string)
    requires WellKeyed(live) && KeepsKeys(re, rs) && IsExportBy(live, flags, segments, re, rs)
    ensures k in live.flags ==> (Declares(flags, k) <==> !live.flags[k].archived)
    ensures k in live.segments ==> DeclaresSegment(segments, k)
  {
    if k in live.flags && Declares(flags, k) {
      var f :| f in flags && f.key == k;
      var j :| j in live.flags && !live.flags[j].archived && f == re(live.flags[j]);
      assert j == k;
    }
    if k in live.flags && !live.flags[k].archived {
      assert re(live.flags[k]) in flags;
    }
    if k in live.segments {
      assert rs(live.segments[k]) in segments;
    }
  }

  /** A plan of what came back agrees with the live state exactly when everything in it came back the same. */
  lemma ExportAgreesIff(
    live: Snapshot, flags: seq<Flag>, segments: seq<Segment>, re: Flag -> Flag, rs: Segment -> Segment)
    requires WellKeyed(live) && KeepsKeys(re, rs) && IsExportBy(live, flags, segments, re, rs)
    ensures Agrees(live, flags, segments) <==>
              (forall k | k in live.flags :: FlagKept(re, live.flags[k])) &&
                  (forall k | k in live.segments :: SegmentKept(rs, live.segments[k]))
  {
    forall k { ExportDeclares(live, flags, segments, re, rs, k); }
    if Agrees(live, flags, segments) {
      forall k | k in live.flags
        ensures FlagKept(re, live.flags[k])
      {
        assert re(live.flags[k]) in flags;
      }
      forall k | k in live.segments
        ensures SegmentKept(rs, live.segments[k])
      {
        assert rs(live.segments[k]) in segments;
      }
    }
    if (forall k | k in live.flags :: FlagKept(re, live.flags[k])) &&
        (forall k | k in live.segments :: SegmentKept(rs, live.segments[k])) {
      forall f | f in flags
        ensures f.key in live.flags && FlagDiffFields(live.flags[f.key], f) == []
      {
        var k :| k in live.flags && !live.flags[k].archived && f == re(live.flags[k]);
        assert FlagKept(re, live.flags[k]);
      }
      forall s | s in segments
        ensures s.key in live.segments && SegmentDiffFields(live.segments[s.key], s) == []
      {
        var k :| k in live.segments && s == rs(live.segments[k]);
        assert SegmentKept(rs, live.segments[k]);
      }
      forall k | k in live.flags
        ensures Declares(flags, k)
      {
        assert FlagKept(re, live.flags[k]);
      }
    }
  }

  function ReimportedSegment(s: Segment): Segment {
    NormalSegment(NormalSegment(s))
  }

  /** The live flag is one an export and a plan leave alone. */
  ghost predicate Exportable(f: Flag) {
    !f.archived && VariantKeysDistinct(f.variants) && FlagNormal(f)
  }

  /**
   Exporting and planning straight away finds nothing to do exactly when no live flag is archived
   or repeats a variant key and everything is wire-normal.
   */
  lemma ExportThenPlanIsEmptyIff(live: Snapshot, flags: seq<Flag>, segments: seq<Segment>, changes: seq<ConfigChange>)
    requires WellKeyed(live) && IsExportBy(live, flags, segments, Reimported, ReimportedSegment) &&
            IsDiff(live, flags, segments, changes)
    ensures changes == [] <==>
              (forall k | k in live.flags :: Exportable(live.flags[k])) &&
                  (forall k | k in live.segments :: SegmentNormal(live.segments[k]))
  {
    DiffEmptyIffAgrees(live, flags, segments, changes);
    assert KeepsKeys(Reimported, ReimportedSegment);
    ExportAgreesIff(live, flags, segments, Reimported, ReimportedSegment);
    forall k | k in live.flags
      ensures FlagKept(Reimported, live.flags[k]) <==> Exportable(live.flags[k])
    {
      ExportThenPlanFlag(live.flags[k]);
    }
    forall k | k in live.segments
      ensures SegmentKept(ReimportedSegment, live.segments[k]) <==> SegmentNormal(live.segments[k])
    {
      NormalSegmentTwice(live.segments[k]);
    }
  }

  /** An archived flag is not exported, so the plan of the export deletes it. */
  lemma ArchivedIsPlannedForDeletion(
    live: Snapshot, flags: seq<Flag>, segments: seq<Segment>, changes: seq<ConfigChange>, re: Flag -> Flag,
    rs: Segment -> Segment, k: string)
    requires WellKeyed(live) && KeepsKeys(re, rs) && IsExportBy(live, flags, segments, re, rs)
    requires IsDiff(live, flags, segments, changes) && k in live.flags && live.flags[k].archived
    ensures ConfigChange(FlagTarget, k, Delete, NoDetail) in changes
  {
    ExportDeclares(live, flags, segments, re, rs, k);
    assert PrunesFlag(live.flags.Keys, flags, ConfigChange(FlagTarget, k, Delete, NoDetail));
    assert Wanted(live, flags, segments, ConfigChange(FlagTarget, k, Delete, NoDetail));
  }
}
