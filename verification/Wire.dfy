/**
 The wire form of the configuration and its conversions. A domain value that goes out and comes
 back is normalised: integers become doubles, and empty optional keys become absent.
 */
module Wire {
  import opened Basics
  import opened FlagModel

  // ---- Wire types ----

  /** A protobuf double: any finite value, or one JSON has no form for. */
  datatype F64 = Finite(r: real) | NonFinite

  /** A protobuf `Value`; `NoKind` is one whose kind was never set. */
  datatype PbValue =
    | NoKind
    | NullValue
    | BoolValue(b: bool)
    | NumberValue(n: F64)
    | StringValue(s: string)
    | ListValue(values: seq<PbValue>)
    | StructValue(fields: seq<(string, PbValue)>)

  /** A protobuf enum field: 0 and unknown numbers decode as unspecified. */
  datatype PbEnum<+T> = Unspecified | Known(value: T)

  datatype PbVariant = PbVariant(key: string, value: Option<PbValue>)

  datatype PbConstraint = PbConstraint(attribute: string, operator: PbEnum<Operator>, values: seq<PbValue>)

  datatype PbGroup = PbGroup(constraints: seq<PbConstraint>)

  datatype PbRule = PbRule(
    rank: nat,
    segmentKey: string,
    variantKey: string,
    distributions: seq<Distribution>,
    constraintGroups: seq<PbGroup>,
    bucketSalt: string)

  datatype PbFlag = PbFlag(
    key: string,
    valueType: PbEnum<ValueType>,
    enabled: bool,
    defaultVariantKey: string,
    archived: bool,
    variants: seq<PbVariant>,
    rules: seq<PbRule>)

  datatype PbSegment = PbSegment(key: string, name: string, constraints: seq<PbConstraint>)

  datatype SnapshotResponse = SnapshotResponse(version: int, flags: seq<PbFlag>, segments: seq<PbSegment>)

  datatype ConversionError = OperatorUnspecified | ValueTypeUnspecified

  // ---- Values ----

  function JsonToPb(j: Json): PbValue {
    match j
    case Null => NullValue
    case Bool(b) => BoolValue(b)
    case Int(i) => NumberValue(Finite(i as real))
    case Float(f) => NumberValue(Finite(f))
    case Str(s) => StringValue(s)
    case Arr(items) => ListValue(seq(|items|, i requires 0 <= i < |items| => JsonToPb(items[i])))
    case Obj(fields) => StructValue(seq(|fields|, i requires 0 <= i < |fields| => (fields[i].0, JsonToPb(fields[i].1))))
  }

  function PbToJson(v: PbValue): Json {
    match v
    case NoKind => Null
    case NullValue => Null
    case BoolValue(b) => Bool(b)
    case NumberValue(n) => if n.Finite? then Float(n.r) else Null
    case StringValue(s) => Str(s)
    case ListValue(values) => Arr(seq(|values|, i requires 0 <= i < |values| => PbToJson(values[i])))
    case StructValue(fields) => Obj(seq(|fields|, i requires 0 <= i < |fields| => (fields[i].0, PbToJson(fields[i].1))))
  }

  /** No integer literal anywhere: the form every value has once it has crossed the wire. */
  predicate WireNormal(j: Json) {
    match j
    case Int(_) => false
    case Arr(items) => forall i | 0 <= i < |items| :: WireNormal(items[i])
    case Obj(fields) => forall i | 0 <= i < |fields| :: WireNormal(fields[i].1)
    case _ => true
  }

  /** A wire value that a JSON value could have produced. */
  predicate PbNormal(v: PbValue) {
    match v
    case NoKind => false
    case NumberValue(n) => n.Finite?
    case ListValue(values) => forall i | 0 <= i < |values| :: PbNormal(values[i])
    case StructValue(fields) => forall i | 0 <= i < |fields| :: PbNormal(fields[i].1)
    case _ => true
  }

  /** A JSON value survives the wire exactly when it holds no integer literal. */
  lemma {:induction false} JsonRoundTrip(j: Json)
    ensures PbToJson(JsonToPb(j)) == j <==> WireNormal(j)
  {
    match j {
      case Arr(items) =>
        var back := PbToJson(JsonToPb(j)).items;
        forall i | 0 <= i < |items|
          ensures back[i] == items[i] <==> WireNormal(items[i])
        {
          JsonRoundTrip(items[i]);
        }
        assert back == items <==> forall i | 0 <= i < |items| :: back[i] == items[i];
      case Obj(fields) =>
        var back := PbToJson(JsonToPb(j)).fields;
        forall i | 0 <= i < |fields|
          ensures back[i] == fields[i] <==> WireNormal(fields[i].1)
        {
          JsonRoundTrip(fields[i].1);
          assert fields[i] == (fields[i].0, fields[i].1);
        }
        assert back == fields <==> forall i | 0 <= i < |fields| :: back[i] == fields[i];
      case _ =>
    }
  }

  /** What comes off the wire is normal. */
  lemma {:induction false} FromWireIsNormal(v: PbValue)
    ensures WireNormal(PbToJson(v))
  {
    match v {
      case ListValue(values) =>
        forall i | 0 <= i < |values| { FromWireIsNormal(values[i]); }
      case StructValue(fields) =>
        forall i | 0 <= i < |fields| { FromWireIsNormal(fields[i].1); }
      case _ =>
    }
  }

  /** The other way round: a wire value survives JSON exactly when it is well formed and finite. */
  lemma {:induction false} PbRoundTrip(v: PbValue)
    ensures JsonToPb(PbToJson(v)) == v <==> PbNormal(v)
  {
    match v {
      case ListValue(values) =>
        var back := JsonToPb(PbToJson(v)).values;
        forall i | 0 <= i < |values|
          ensures back[i] == values[i] <==> PbNormal(values[i])
        {
          PbRoundTrip(values[i]);
        }
        assert back == values <==> forall i | 0 <= i < |values| :: back[i] == values[i];
      case StructValue(fields) =>
        var back := JsonToPb(PbToJson(v)).fields;
        forall i | 0 <= i < |fields|
          ensures back[i] == fields[i] <==> PbNormal(fields[i].1)
        {
          PbRoundTrip(fields[i].1);
          assert fields[i] == (fields[i].0, fields[i].1);
        }
        assert back == fields <==> forall i | 0 <= i < |fields| :: back[i] == fields[i];
      case _ =>
    }
  }

  // ---- Domain to wire ----

  function Map<A, B>(f: A -> B, s: seq<A>): (r: seq<B>)
    ensures |r| == |s| && forall i | 0 <= i < |s| :: r[i] == f(s[i])
  {
    seq(|s|, i requires 0 <= i < |s| => f(s[i]))
  }

  function ConstraintToPb(c: Constraint): PbConstraint {
    PbConstraint(c.attribute, Known(c.operator), Map(JsonToPb, c.values))
  }

  function GroupToPb(g: ConstraintGroup): PbGroup {
    PbGroup(Map(ConstraintToPb, g.constraints))
  }

  function OrEmpty(k: Option<string>): string {
    if k.Some? then k.value else ""
  }

  function RuleToPb(r: Rule): PbRule {
    PbRule(r.rank, OrEmpty(r.segmentKey), OrEmpty(r.variantKey), r.distributions, Map(GroupToPb, r.constraintGroups),
        r.bucketSalt)
  }

  function VariantToPb(v: Variant): PbVariant {
    PbVariant(v.key, Some(JsonToPb(v.value)))
  }

  function FlagToPb(f: Flag): PbFlag {
    PbFlag(f.key, Known(f.valueType), f.enabled, f.defaultVariantKey, f.archived, Map(VariantToPb, f.variants),
        Map(RuleToPb, f.rules))
  }

  function SegmentToPb(s: Segment): PbSegment {
    PbSegment(s.key, s.name, Map(ConstraintToPb, s.constraints))
  }

  // ---- Wire to domain ----

  /** Convert in order, stopping at the first failure. */
  function TryMap<A, B>(f: A -> Result<B, ConversionError>, s: seq<A>): Result<seq<B>, ConversionError> {
    if s == [] then Ok([])
    else match f(s[0])
      case Err(e) => Err(e)
      case Ok(b) => match TryMap(f, s[1..])
        case Err(e) => Err(e)
        case Ok(rest) => Ok([b] + rest)
  }

  function ConstraintFromPb(c: PbConstraint): Result<Constraint, ConversionError> {
    match c.operator
    case Unspecified => Err(OperatorUnspecified)
    case Known(op) => Ok(Constraint(c.attribute, op, Map(PbToJson, c.values)))
  }

  function ConstraintsFromPb(cs: seq<PbConstraint>): Result<seq<Constraint>, ConversionError> {
    TryMap(ConstraintFromPb, cs)
  }

  function GroupFromPb(g: PbGroup): Result<ConstraintGroup, ConversionError> {
    match ConstraintsFromPb(g.constraints)
    case Err(e) => Err(e)
    case Ok(cs) => Ok(ConstraintGroup(cs))
  }

  function NonEmptyKey(k: string): Option<string> {
    if k == "" then None else Some(k)
  }

  function RuleFromPb(r: PbRule): Result<Rule, ConversionError> {
    match TryMap(GroupFromPb, r.constraintGroups)
    case Err(e) => Err(e)
    case Ok(groups) =>
      Ok(Rule(r.rank, NonEmptyKey(r.segmentKey), NonEmptyKey(r.variantKey), r.distributions, groups, r.bucketSalt))
  }

  function VariantFromPb(v: PbVariant): Variant {
    Variant(v.key, if v.value.Some? then PbToJson(v.value.value) else Null)
  }

  function FlagFromPb(f: PbFlag): Result<Flag, ConversionError> {
    match f.valueType
    case Unspecified => Err(ValueTypeUnspecified)
    case Known(t) => match TryMap(RuleFromPb, f.rules)
      case Err(e) => Err(e)
      case Ok(rules) =>
        Ok(Flag(f.key, t, f.enabled, f.defaultVariantKey, f.archived, Map(VariantFromPb, f.variants), rules))
  }

  function SegmentFromPb(s: PbSegment): Result<Segment, ConversionError> {
    match ConstraintsFromPb(s.constraints)
    case Err(e) => Err(e)
    case Ok(cs) => Ok(Segment(s.key, s.name, cs))
  }

  /** The loop form of `pb_constraints_to_domain`. */
  method ConvertConstraints(cs: seq<PbConstraint>) returns (r: Result<seq<Constraint>, ConversionError>)
    ensures r == ConstraintsFromPb(cs)
  {
    var out := [];
    assert cs[0..] == cs;
    assert ConstraintsFromPb(cs).Ok? ==> [] + ConstraintsFromPb(cs).value == ConstraintsFromPb(cs).value;
    for i := 0 to |cs|
      invariant ConstraintsFromPb(cs) ==
                match ConstraintsFromPb(cs[i..]) { case Err(e) => Err(e) case Ok(rest) => Ok(out + rest) }
    {
      assert cs[i..][0] == cs[i] && cs[i..][1..] == cs[i + 1..];
      var c := ConstraintFromPb(cs[i]);
      if c.Err? {
        return Err(c.error);
      }
      ghost var before := out;
      out := out + [c.value];
      if ConstraintsFromPb(cs[i + 1..]).Ok? {
        assert before + ([c.value] + ConstraintsFromPb(cs[i + 1..]).value) ==
            out + ConstraintsFromPb(cs[i + 1..]).value;
      }
    }
    assert out + [] == out;
    return Ok(out);
  }

  // ---- Out and back ----

  function NormalJson(j: Json): Json {
    PbToJson(JsonToPb(j))
  }

  function NormalConstraint(c: Constraint): Constraint {
    c.(values := Map(NormalJson, c.values))
  }

  function NormalGroup(g: ConstraintGroup): ConstraintGroup {
    ConstraintGroup(Map(NormalConstraint, g.constraints))
  }

  function NormalKey(k: Option<string>): Option<string> {
    if k == Some("") then None else k
  }

  function NormalRule(r: Rule): Rule {
    r.(segmentKey := NormalKey(r.segmentKey), variantKey := NormalKey(r.variantKey),
        constraintGroups := Map(NormalGroup, r.constraintGroups))
  }

  function NormalVariant(v: Variant): Variant {
    v.(value := NormalJson(v.value))
  }

  function NormalFlag(f: Flag): Flag {
    f.(variants := Map(NormalVariant, f.variants), rules := Map(NormalRule, f.rules))
  }

  function NormalSegment(s: Segment): Segment {
    s.(constraints := Map(NormalConstraint, s.constraints))
  }

  /** Converting out and back element by element normalises element by element. */
  lemma {:induction false} TryMapThrough<A, W>(
    out: A -> W, back: W -> Result<A, ConversionError>, norm: A -> A, s: seq<A>)
    requires forall x | x in s :: back(out(x)) == Ok(norm(x))
    ensures TryMap(back, Map(out, s)) == Ok(Map(norm, s))
  {
    if s != [] {
      assert s[0] in s;
      TryMapThrough(out, back, norm, s[1..]);
      assert Map(out, s)[1..] == Map(out, s[1..]);
      assert Map(norm, s) == [norm(s[0])] + Map(norm, s[1..]);
    }
  }

  lemma ConstraintsRoundTrip(cs: seq<Constraint>)
    ensures ConstraintsFromPb(Map(ConstraintToPb, cs)) == Ok(Map(NormalConstraint, cs))
  {
    forall c | c in cs
      ensures ConstraintFromPb(ConstraintToPb(c)) == Ok(NormalConstraint(c))
    {
      assert Map(PbToJson, Map(JsonToPb, c.values)) == Map(NormalJson, c.values);
    }
    TryMapThrough(ConstraintToPb, ConstraintFromPb, NormalConstraint, cs);
  }

  lemma RuleRoundTrip(r: Rule)
    ensures RuleFromPb(RuleToPb(r)) == Ok(NormalRule(r))
  {
    forall g | g in r.constraintGroups
      ensures GroupFromPb(GroupToPb(g)) == Ok(NormalGroup(g))
    {
      ConstraintsRoundTrip(g.constraints);
    }
    TryMapThrough(GroupToPb, GroupFromPb, NormalGroup, r.constraintGroups);
  }

  /** A flag that goes out and comes back is its normal form: no conversion fails. */
  lemma FlagRoundTrip(f: Flag)
    ensures FlagFromPb(FlagToPb(f)) == Ok(NormalFlag(f))
  {
    forall r | r in f.rules
      ensures RuleFromPb(RuleToPb(r)) == Ok(NormalRule(r))
    {
      RuleRoundTrip(r);
    }
    TryMapThrough(RuleToPb, RuleFromPb, NormalRule, f.rules);
    assert Map(VariantFromPb, Map(VariantToPb, f.variants)) == Map(NormalVariant, f.variants);
  }

  lemma SegmentRoundTrip(s: Segment)
    ensures SegmentFromPb(SegmentToPb(s)) == Ok(NormalSegment(s))
  {
    ConstraintsRoundTrip(s.constraints);
  }

  // ---- Who survives the trip ----

  ghost predicate ConstraintNormal(c: Constraint) {
    forall v | v in c.values :: WireNormal(v)
  }

  ghost predicate RuleNormal(r: Rule) {
    && r.segmentKey != Some("") && r.variantKey != Some("")
    && forall g | g in r.constraintGroups :: forall c | c in g.constraints :: ConstraintNormal(c)
  }

  ghost predicate FlagNormal(f: Flag) {
    (forall v | v in f.variants :: WireNormal(v.value)) && (forall r | r in f.rules :: RuleNormal(r))
  }

  ghost predicate SegmentNormal(s: Segment) {
    forall c | c in s.constraints :: ConstraintNormal(c)
  }

  lemma MapFixed<A>(f: A -> A, s: seq<A>)
    ensures Map(f, s) == s <==> forall x | x in s :: f(x) == x
  {
    if Map(f, s) == s {
      forall x | x in s
        ensures f(x) == x
      {
        var i :| 0 <= i < |s| && s[i] == x;
        assert Map(f, s)[i] == s[i];
      }
    }
  }

  lemma ConstraintNormalIff(c: Constraint)
    ensures NormalConstraint(c) == c <==> ConstraintNormal(c)
  {
    MapFixed(NormalJson, c.values);
    forall v | v in c.values { JsonRoundTrip(v); }
    assert NormalConstraint(c) == c <==> Map(NormalJson, c.values) == c.values;
  }

  lemma ConstraintsNormalIff(cs: seq<Constraint>)
    ensures Map(NormalConstraint, cs) == cs <==> forall c | c in cs :: ConstraintNormal(c)
  {
    MapFixed(NormalConstraint, cs);
    forall c | c in cs { ConstraintNormalIff(c); }
  }

  lemma RuleNormalIff(r: Rule)
    ensures NormalRule(r) == r <==> RuleNormal(r)
  {
    MapFixed(NormalGroup, r.constraintGroups);
    forall g | g in r.constraintGroups
      ensures NormalGroup(g) == g <==> forall c | c in g.constraints :: ConstraintNormal(c)
    {
      ConstraintsNormalIff(g.constraints);
    }
    assert NormalRule(r) == r <==>
      NormalKey(r.segmentKey) == r.segmentKey && NormalKey(r.variantKey) == r.variantKey &&
      Map(NormalGroup, r.constraintGroups) == r.constraintGroups;
  }

  /** A flag survives the wire exactly when its values hold no integer literal and no optional key is empty. */
  lemma FlagNormalIff(f: Flag)
    ensures NormalFlag(f) == f <==> FlagNormal(f)
  {
    MapFixed(NormalVariant, f.variants);
    MapFixed(NormalRule, f.rules);
    forall v | v in f.variants
      ensures NormalVariant(v) == v <==> WireNormal(v.value)
    {
      JsonRoundTrip(v.value);
    }
    forall r | r in f.rules { RuleNormalIff(r); }
    assert NormalFlag(f) == f <==> Map(NormalVariant, f.variants) == f.variants && Map(NormalRule, f.rules) == f.rules;
  }

  lemma SegmentNormalIff(s: Segment)
    ensures NormalSegment(s) == s <==> SegmentNormal(s)
  {
    ConstraintsNormalIff(s.constraints);
    assert NormalSegment(s) == s <==> Map(NormalConstraint, s.constraints) == s.constraints;
  }

  // ---- What the write API accepts ----

  lemma {:induction false} TryMapElements<A, B>(f: A -> Result<B, ConversionError>, s: seq<A>, y: B) returns (x: A)
    requires TryMap(f, s).Ok? && y in TryMap(f, s).value
    ensures x in s && f(x) == Ok(y)
  {
    if y == f(s[0]).value {
      x := s[0];
    } else {
      x := TryMapElements(f, s[1..], y);
    }
  }

  lemma ConstraintsFromPbNormal(cs: seq<PbConstraint>)
    requires ConstraintsFromPb(cs).Ok?
    ensures forall c | c in ConstraintsFromPb(cs).value :: ConstraintNormal(c)
  {
    forall c | c in ConstraintsFromPb(cs).value
      ensures ConstraintNormal(c)
    {
      var p := TryMapElements(ConstraintFromPb, cs, c);
      forall v | v in c.values
        ensures WireNormal(v)
      {
        var i :| 0 <= i < |c.values| && c.values[i] == v;
        FromWireIsNormal(p.values[i]);
      }
    }
  }

  /** Every flag that arrives over the wire is normal, so what the write API stores survives being sent again. */
  lemma FlagFromPbNormal(f: PbFlag)
    requires FlagFromPb(f).Ok?
    ensures FlagNormal(FlagFromPb(f).value)
  {
    var g := FlagFromPb(f).value;
    forall v | v in g.variants
      ensures WireNormal(v.value)
    {
      var i :| 0 <= i < |g.variants| && g.variants[i] == v;
      if f.variants[i].value.Some? {
        FromWireIsNormal(f.variants[i].value.value);
      }
    }
    forall r | r in g.rules
      ensures RuleNormal(r)
    {
      var p := TryMapElements(RuleFromPb, f.rules, r);
      forall x | x in r.constraintGroups
        ensures forall c | c in x.constraints :: ConstraintNormal(c)
      {
        var pg := TryMapElements(GroupFromPb, p.constraintGroups, x);
        ConstraintsFromPbNormal(pg.constraints);
      }
    }
  }

  lemma SegmentFromPbNormal(s: PbSegment)
    requires SegmentFromPb(s).Ok?
    ensures SegmentNormal(SegmentFromPb(s).value)
  {
    ConstraintsFromPbNormal(s.constraints);
  }

  // ---- What converts ----

  lemma {:induction false} TryMapOkIff<A, B>(f: A -> Result<B, ConversionError>, s: seq<A>)
    ensures TryMap(f, s).Ok? <==> forall x | x in s :: f(x).Ok?
  {
    if s != [] {
      TryMapOkIff(f, s[1..]);
      assert s == [s[0]] + s[1..];
    }
  }

  ghost predicate OperatorsKnown(cs: seq<PbConstraint>) {
    forall c | c in cs :: c.operator.Known?
  }

  lemma ConstraintsConvertIff(cs: seq<PbConstraint>)
    ensures ConstraintsFromPb(cs).Ok? <==> OperatorsKnown(cs)
  {
    TryMapOkIff(ConstraintFromPb, cs);
  }

  ghost predicate RuleComplete(r: PbRule) {
    forall g | g in r.constraintGroups :: OperatorsKnown(g.constraints)
  }

  lemma RuleConvertsIff(r: PbRule)
    ensures RuleFromPb(r).Ok? <==> RuleComplete(r)
  {
    TryMapOkIff(GroupFromPb, r.constraintGroups);
    forall g | g in r.constraintGroups
      ensures GroupFromPb(g).Ok? <==> OperatorsKnown(g.constraints)
    {
      ConstraintsConvertIff(g.constraints);
    }
  }

  ghost predicate FlagComplete(f: PbFlag) {
    f.valueType.Known? && forall r | r in f.rules :: RuleComplete(r)
  }

  /** A flag converts exactly when its type and every operator in it is specified; nothing else is refused. */
  lemma FlagConvertsIff(f: PbFlag)
    ensures FlagFromPb(f).Ok? <==> FlagComplete(f)
    ensures f.valueType.Unspecified? ==> FlagFromPb(f) == Err(ValueTypeUnspecified)
  {
    TryMapOkIff(RuleFromPb, f.rules);
    forall r | r in f.rules
      ensures RuleFromPb(r).Ok? <==> RuleComplete(r)
    {
      RuleConvertsIff(r);
    }
  }

  /** Where nothing is said, or nothing JSON can say, null is read. */
  lemma UnsaidIsNull(key: string)
    ensures VariantFromPb(PbVariant(key, None)) == Variant(key, Null)
    ensures PbToJson(NoKind) == PbToJson(NullValue) == PbToJson(NumberValue(NonFinite)) == Null
  {
  }

  // ---- Whole snapshots ----

  /** `resp` lists every flag and segment of `s` once, in some order: the maps give no particular one. */
  ghost predicate Renders(resp: SnapshotResponse, s: Snapshot, flagKeys: seq<string>, segmentKeys: seq<string>) {
    && resp.version == s.version
    && Distinct(flagKeys) && (forall k :: k in flagKeys <==> k in s.flags)
    && |resp.flags| == |flagKeys| && (forall i | 0 <= i < |flagKeys| :: resp.flags[i] == FlagToPb(s.flags[flagKeys[i]]))
    && Distinct(segmentKeys) && (forall k :: k in segmentKeys <==> k in s.segments)
    && |resp.segments| == |segmentKeys|
    && (forall i | 0 <= i < |segmentKeys| :: resp.segments[i] == SegmentToPb(s.segments[segmentKeys[i]]))
  }

  method RenderSnapshot(s: Snapshot) returns (resp: SnapshotResponse)
    ensures exists flagKeys, segmentKeys :: Renders(resp, s, flagKeys, segmentKeys)
  {
    var flags: seq<PbFlag> := [];
    ghost var flagKeys: seq<string> := [];
    var keys := s.flags.Keys;
    while keys != {}
      invariant forall k :: k in s.flags <==> k in keys || k in flagKeys
      invariant forall k | k in flagKeys :: k !in keys
      invariant Distinct(flagKeys) && |flags| == |flagKeys|
      invariant forall i | 0 <= i < |flags| :: flagKeys[i] in s.flags && flags[i] == FlagToPb(s.flags[flagKeys[i]])
      decreases keys
    {
      var k :| k in keys;
      flags := flags + [FlagToPb(s.flags[k])];
      flagKeys := flagKeys + [k];
      keys := keys - {k};
    }
    var segments: seq<PbSegment> := [];
    ghost var segmentKeys: seq<string> := [];
    keys := s.segments.Keys;
    while keys != {}
      invariant forall k :: k in s.segments <==> k in keys || k in segmentKeys
      invariant forall k | k in segmentKeys :: k !in keys
      invariant Distinct(segmentKeys) && |segments| == |segmentKeys|
      invariant forall i | 0 <= i < |segments| ::
              segmentKeys[i] in s.segments && segments[i] == SegmentToPb(s.segments[segmentKeys[i]])
      decreases keys
    {
      var k :| k in keys;
      segments := segments + [SegmentToPb(s.segments[k])];
      segmentKeys := segmentKeys + [k];
      keys := keys - {k};
    }
    resp := SnapshotResponse(s.version, flags, segments);
    assert Renders(resp, s, flagKeys, segmentKeys);
  }

  /** Insert the converted flags one by one under their own keys, stopping at the first failure. */
  function InsertFlags(m: map<string, Flag>, flags: seq<PbFlag>): Result<map<string, Flag>, ConversionError>
    decreases flags
  {
    if flags == [] then Ok(m)
    else match FlagFromPb(flags[0])
      case Err(e) => Err(e)
      case Ok(f) => InsertFlags(m[f.key := f], flags[1..])
  }

  function InsertSegments(
    m: map<string, Segment>, segments: seq<PbSegment>): Result<map<string, Segment>, ConversionError>
    decreases segments
  {
    if segments == [] then Ok(m)
    else match SegmentFromPb(segments[0])
      case Err(e) => Err(e)
      case Ok(s) => InsertSegments(m[s.key := s], segments[1..])
  }

  function SnapshotFromResponse(resp: SnapshotResponse): Result<Snapshot, ConversionError> {
    match InsertFlags(map[], resp.flags)
    case Err(e) => Err(e)
    case Ok(flags) => match InsertSegments(map[], resp.segments)
      case Err(e) => Err(e)
      case Ok(segments) => Ok(Snapshot(resp.version, flags, segments))
  }

  lemma {:induction false} FlagsConvertIff(m: map<string, Flag>, flags: seq<PbFlag>)
    ensures InsertFlags(m, flags).Ok? <==> forall f | f in flags :: FlagComplete(f)
    decreases flags
  {
    if flags != [] {
      FlagConvertsIff(flags[0]);
      assert flags == [flags[0]] + flags[1..];
      if FlagFromPb(flags[0]).Ok? {
        FlagsConvertIff(m[FlagFromPb(flags[0]).value.key := FlagFromPb(flags[0]).value], flags[1..]);
      }
    }
  }

  lemma {:induction false} SegmentsConvertIff(m: map<string, Segment>, segments: seq<PbSegment>)
    ensures InsertSegments(m, segments).Ok? <==> forall s | s in segments :: OperatorsKnown(s.constraints)
    decreases segments
  {
    if segments != [] {
      ConstraintsConvertIff(segments[0].constraints);
      assert segments == [segments[0]] + segments[1..];
      if SegmentFromPb(segments[0]).Ok? {
        SegmentsConvertIff(m[SegmentFromPb(segments[0]).value.key := SegmentFromPb(segments[0]).value], segments[1..]);
      }
    }
  }

  /** A response builds a snapshot exactly when every flag and every segment in it is complete. */
  lemma ResponseConvertsIff(resp: SnapshotResponse)
    ensures SnapshotFromResponse(resp).Ok? <==>
              && (forall f | f in resp.flags :: FlagComplete(f))
              && (forall s | s in resp.segments :: OperatorsKnown(s.constraints))
  {
    FlagsConvertIff(map[], resp.flags);
    SegmentsConvertIff(map[], resp.segments);
  }

  method BuildSnapshot(resp: SnapshotResponse) returns (r: Result<Snapshot, ConversionError>)
    ensures r == SnapshotFromResponse(resp)
  {
    var flags: map<string, Flag> := map[];
    for i := 0 to |resp.flags|
      invariant InsertFlags(flags, resp.flags[i..]) == InsertFlags(map[], resp.flags)
    {
      assert resp.flags[i..][0] == resp.flags[i] && resp.flags[i..][1..] == resp.flags[i + 1..];
      var f := FlagFromPb(resp.flags[i]);
      if f.Err? {
        return Err(f.error);
      }
      flags := flags[f.value.key := f.value];
    }
    var segments: map<string, Segment> := map[];
    for i := 0 to |resp.segments|
      invariant InsertSegments(segments, resp.segments[i..]) == InsertSegments(map[], resp.segments)
    {
      assert resp.segments[i..][0] == resp.segments[i] && resp.segments[i..][1..] == resp.segments[i + 1..];
      var s := SegmentFromPb(resp.segments[i]);
      if s.Err? {
        return Err(s.error);
      }
      segments := segments[s.value.key := s.value];
    }
    return Ok(Snapshot(resp.version, flags, segments));
  }

  function NormalSnapshot(s: Snapshot): Snapshot {
    Snapshot(s.version, map k | k in s.flags :: NormalFlag(s.flags[k]), map k | k in s.segments ::
        NormalSegment(s.segments[k]))
  }

  lemma {:induction false} InsertFlagsGets(
    m: map<string, Flag>, s: Snapshot, keys: seq<string>, flags: seq<PbFlag>, k: string)
    requires WellKeyed(s) && Distinct(keys) && |flags| == |keys|
    requires forall i | 0 <= i < |keys| :: keys[i] in s.flags && flags[i] == FlagToPb(s.flags[keys[i]])
    ensures InsertFlags(m, flags).Ok?
    ensures Get(InsertFlags(m, flags).value, k) == if k in keys then Some(NormalFlag(s.flags[k])) else Get(m, k)
    decreases |keys|
  {
    if keys != [] {
      var f := s.flags[keys[0]];
      FlagRoundTrip(f);
      InsertFlagsGets(m[f.key := NormalFlag(f)], s, keys[1..], flags[1..], k);
    }
  }

  lemma {:induction false} InsertSegmentsGets(
    m: map<string, Segment>, s: Snapshot, keys: seq<string>, segments: seq<PbSegment>, k: string)
    requires WellKeyed(s) && Distinct(keys) && |segments| == |keys|
    requires forall i | 0 <= i < |keys| :: keys[i] in s.segments && segments[i] == SegmentToPb(s.segments[keys[i]])
    ensures InsertSegments(m, segments).Ok?
    ensures Get(InsertSegments(m, segments).value, k) == if k in keys then Some(NormalSegment(s.segments[k]))
            else Get(m, k)
    decreases |keys|
  {
    if keys != [] {
      var x := s.segments[keys[0]];
      SegmentRoundTrip(x);
      InsertSegmentsGets(m[x.key := NormalSegment(x)], s, keys[1..], segments[1..], k);
    }
  }

  /** A well-keyed snapshot, sent in any order, is rebuilt as its normal form. */
  lemma SnapshotRoundTrip(s: Snapshot, resp: SnapshotResponse, flagKeys: seq<string>, segmentKeys: seq<string>)
    requires WellKeyed(s) && Renders(resp, s, flagKeys, segmentKeys)
    ensures SnapshotFromResponse(resp) == Ok(NormalSnapshot(s))
  {
    InsertFlagsGets(map[], s, flagKeys, resp.flags, "");
    InsertSegmentsGets(map[], s, segmentKeys, resp.segments, "");
    var flags, segments := InsertFlags(map[], resp.flags).value, InsertSegments(map[], resp.segments).value;
    forall k
      ensures Get(flags, k) == Get(NormalSnapshot(s).flags, k)
      ensures Get(segments, k) == Get(NormalSnapshot(s).segments, k)
    {
      InsertFlagsGets(map[], s, flagKeys, resp.flags, k);
      InsertSegmentsGets(map[], s, segmentKeys, resp.segments, k);
    }
    SameGets(flags, NormalSnapshot(s).flags);
    SameGets(segments, NormalSnapshot(s).segments);
  }

  ghost predicate SnapshotNormal(s: Snapshot) {
    (forall k | k in s.flags :: FlagNormal(s.flags[k])) && (forall k | k in s.segments :: SegmentNormal(s.segments[k]))
  }

  lemma {:induction false} InsertedFlagsWellKeyed(m: map<string, Flag>, flags: seq<PbFlag>)
    requires InsertFlags(m, flags).Ok? && forall k | k in m :: m[k].key == k
    ensures forall k | k in InsertFlags(m, flags).value :: InsertFlags(m, flags).value[k].key == k
    decreases flags
  {
    if flags != [] {
      var f := FlagFromPb(flags[0]).value;
      InsertedFlagsWellKeyed(m[f.key := f], flags[1..]);
    }
  }

  lemma {:induction false} InsertedSegmentsWellKeyed(m: map<string, Segment>, segments: seq<PbSegment>)
    requires InsertSegments(m, segments).Ok? && forall k | k in m :: m[k].key == k
    ensures forall k | k in InsertSegments(m, segments).value :: InsertSegments(m, segments).value[k].key == k
    decreases segments
  {
    if segments != [] {
      var s := SegmentFromPb(segments[0]).value;
      InsertedSegmentsWellKeyed(m[s.key := s], segments[1..]);
    }
  }

  /** A snapshot crosses the wire unchanged exactly when it is well keyed and everything in it is normal. */
  lemma SnapshotSurvivesIff(s: Snapshot, resp: SnapshotResponse, flagKeys: seq<string>, segmentKeys: seq<string>)
    requires Renders(resp, s, flagKeys, segmentKeys)
    ensures SnapshotFromResponse(resp) == Ok(s) <==> WellKeyed(s) && SnapshotNormal(s)
  {
    if SnapshotFromResponse(resp) == Ok(s) {
      InsertedFlagsWellKeyed(map[], resp.flags);
      InsertedSegmentsWellKeyed(map[], resp.segments);
    }
    if WellKeyed(s) {
      SnapshotRoundTrip(s, resp, flagKeys, segmentKeys);
      NormalSnapshotFixedIff(s);
    }
  }

  lemma NormalSnapshotFixedIff(s: Snapshot)
    ensures NormalSnapshot(s) == s <==> SnapshotNormal(s)
  {
    var n := NormalSnapshot(s);
    forall k | k in s.flags
      ensures n.flags[k] == s.flags[k] <==> FlagNormal(s.flags[k])
    {
      FlagNormalIff(s.flags[k]);
    }
    forall k | k in s.segments
      ensures n.segments[k] == s.segments[k] <==> SegmentNormal(s.segments[k])
    {
      SegmentNormalIff(s.segments[k]);
    }
    if SnapshotNormal(s) {
      assert n.flags == s.flags && n.segments == s.segments;
    }
  }
}
