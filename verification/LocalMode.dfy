/**
 Resolving a flag remotely, on the server's snapshot, and locally, on the snapshot the client
 rebuilt from the stream.
 */
module LocalMode {
  import opened Basics
  import opened FlagModel
  import opened FlagSemantics
  import opened FlagEngine
  import opened FlagDecisions
  import opened Wire

  datatype ResolveCode = EngineError(code: ErrorCode) | TypeMismatch

  /** What a caller of the client library sees, whichever mode it is in. */
  datatype ClientResolution<T> = ClientResolution(value: T, variant: string, reason: Reason,
      errorCode: Option<ResolveCode>)

  // ---- Typed extraction ----

  function AsBool(j: Json): Option<bool> {
    if j.Bool? then Some(j.b) else None
  }

  /** Only integer literals that fit 64 signed bits; a double is never an integer here. */
  function AsI64(j: Json): Option<int> {
    if j.Int? && -0x8000_0000_0000_0000 <= j.i < 0x8000_0000_0000_0000 then Some(j.i) else None
  }

  // ---- Contexts ----

  datatype PbContext = PbContext(targetingKey: string, attributes: Option<map<string, PbValue>>)

  function ContextFromPb(c: PbContext): EvalContext {
    var sent := if c.attributes.None? then map[] else c.attributes.value;
    EvalContext(c.targetingKey, map k | k in sent :: PbToJson(sent[k]))
  }

  /** The request that carries a context: every attribute as the wire value of its JSON value. */
  function ContextToPb(ctx: EvalContext): PbContext {
    PbContext(ctx.targetingKey, Some(map k | k in ctx.attributes :: JsonToPb(ctx.attributes[k])))
  }

  ghost predicate ContextNormal(ctx: EvalContext) {
    forall k | k in ctx.attributes :: WireNormal(ctx.attributes[k])
  }

  /** A context sent with a request is the one evaluated exactly when no attribute holds an integer literal. */
  lemma ContextRoundTrip(ctx: EvalContext)
    ensures ContextFromPb(ContextToPb(ctx)) == ctx <==> ContextNormal(ctx)
  {
    var back := ContextFromPb(ContextToPb(ctx));
    forall k | k in ctx.attributes
      ensures k in back.attributes && (back.attributes[k] == ctx.attributes[k] <==> WireNormal(ctx.attributes[k]))
    {
      JsonRoundTrip(ctx.attributes[k]);
    }
    assert back.attributes.Keys == ctx.attributes.Keys;
    if forall k | k in ctx.attributes :: back.attributes[k] == ctx.attributes[k] {
      assert back.attributes == ctx.attributes;
    }
  }

  lemma SentContextIsEvaluated(context: PbContext)
    ensures forall ctx | ContextNormal(ctx) && context == ContextToPb(ctx) :: ContextFromPb(context) == ctx
  {
    forall ctx | ContextNormal(ctx) && context == ContextToPb(ctx)
      ensures ContextFromPb(context) == ctx
    {
      ContextRoundTrip(ctx);
    }
  }

  /** The attribute under `k` that evaluation reads when the request holds `v` there. */
  function Attribute(targetingKey: string, k: string, v: PbValue): Option<Json> {
    Get(ContextFromPb(PbContext(targetingKey, Some(map[k := v]))).attributes, k)
  }

  lemma AttributeIsConverted(targetingKey: string, k: string, v: PbValue)
    ensures Attribute(targetingKey, k, v) == Some(PbToJson(v))
  {
  }

  /** Strings, bools and finite numbers arrive as they were set; a value of no kind arrives as null. */
  lemma AttributesArrive(targetingKey: string, k: string, s: string, b: bool, n: real)
    ensures ContextFromPb(PbContext(targetingKey, None)) == EvalContext(targetingKey, map[])
    ensures Attribute(targetingKey, k, StringValue(s)) == Some(Str(s))
    ensures Attribute(targetingKey, k, BoolValue(b)) == Some(Bool(b))
    ensures Attribute(targetingKey, k, NumberValue(Finite(n))) == Some(Float(n))
    ensures Attribute(targetingKey, k, NullValue) == Attribute(targetingKey, k, NoKind) == Some(Null)
  {
    AttributeIsConverted(targetingKey, k, StringValue(s));
    AttributeIsConverted(targetingKey, k, BoolValue(b));
    AttributeIsConverted(targetingKey, k, NumberValue(Finite(n)));
    AttributeIsConverted(targetingKey, k, NullValue);
    AttributeIsConverted(targetingKey, k, NoKind);
  }

  // ---- The two modes ----

  /** The response metadata; an empty error code means success. */
  datatype ResolutionMeta = ResolutionMeta(variant: string, reason: Reason, errorCode: Option<ResolveCode>)

  datatype Typed<T> = Served(value: T, meta: ResolutionMeta) | Failed(meta: ResolutionMeta)

  function ErrorMeta(code: ResolveCode): ResolutionMeta {
    ResolutionMeta("", Error, Some(code))
  }

  /** The answer both modes are meant to give: the flag's value if it has the requested type, the default otherwise. */
  function Answer<T>(
    e: Engine, flagKey: string, ctx: EvalContext, extract: Json -> Option<T>, fallback: T): ClientResolution<T>
  {
    match Evaluate(e, flagKey, ctx, [])
    case Err(err) => ClientResolution(fallback, "", Error, Some(EngineError(err.Code())))
    case Ok(res) =>
      match extract(res.value)
      case None => ClientResolution(fallback, "", Error, Some(TypeMismatch))
      case Some(v) => ClientResolution(v, res.variant, res.reason, None)
  }

  /** The caller's own fallback, no variant, and the reason it got nothing else. */
  function Refused<T>(fallback: T, code: ResolveCode): ClientResolution<T> {
    ClientResolution(fallback, "", Error, Some(code))
  }

  /**
   The codes callers see, with their own fallback: a flag that is not there is not found, one that
   is there but does not resolve is a parse error, and a value of another type is a mismatch.
   */
  lemma AnswerCodes<T>(e: Engine, flagKey: string, ctx: EvalContext, extract: Json -> Option<T>, fallback: T)
    ensures flagKey !in e.snapshot.flags ==>
              Answer(e, flagKey, ctx, extract, fallback) == Refused(fallback, EngineError(FlagNotFound))
    ensures flagKey in e.snapshot.flags && Evaluate(e, flagKey, ctx, []).Err? ==>
              Answer(e, flagKey, ctx, extract, fallback) == Refused(fallback, EngineError(ParseError))
    ensures Evaluate(e, flagKey, ctx, []).Ok? && extract(Evaluate(e, flagKey, ctx, []).value.value).None? ==>
              Answer(e, flagKey, ctx, extract, fallback) == Refused(fallback, TypeMismatch)
  {
    ErrorsAre(e, flagKey, ctx, []);
  }

  /** Integers are exactly the integer literals of 64 signed bits; bools are the bools. */
  lemma ExtractionIsTyped(j: Json, i: int, b: bool)
    ensures AsI64(j) == Some(i) <==> j == Int(i) && -9223372036854775808 <= i <= 9223372036854775807
    ensures AsBool(j) == Some(b) <==> j == Bool(b)
  {
  }

  /** What a client makes of a typed resolution: its own fallback when the server has no value. */
  function Unpacked<T>(typed: Typed<T>, fallback: T): ClientResolution<T> {
    match typed
    case Served(v, m) => ClientResolution(v, m.variant, m.reason, m.errorCode)
    case Failed(m) => ClientResolution(fallback, m.variant, m.reason, m.errorCode)
  }

  /** A value is served exactly with no error code, and the client's answer is right whatever its fallback. */
  method Resolved<T(!new)>(e: Engine, flagKey: string, ctx: EvalContext, extract: Json -> Option<T>)
    returns (r: Typed<T>)
    ensures r.Served? <==> r.meta.errorCode.None?
    ensures forall fallback :: Unpacked(r, fallback) == Answer(e, flagKey, ctx, extract, fallback)
  {
    var outcome := EvaluateFlag(e, flagKey, ctx);
    match outcome {
      case Err(err) => return Failed(ErrorMeta(EngineError(err.Code())));
      case Ok(res) =>
        var v := extract(res.value);
        if v.None? {
          return Failed(ErrorMeta(TypeMismatch));
        }
        return Served(v.value, ResolutionMeta(res.variant, res.reason, None));
    }
  }

  /** A remote call: the server resolves on `server`, the client unpacks the response. */
  method ResolveRemotely<T(!new)>(
    server: Engine, flagKey: string, context: PbContext, extract: Json -> Option<T>, fallback: T)
    returns (r: ClientResolution<T>)
    ensures r == Answer(server, flagKey, ContextFromPb(context), extract, fallback)
    ensures forall ctx | ContextNormal(ctx) && context == ContextToPb(ctx) ::
              r == Answer(server, flagKey, ctx, extract, fallback)
  {
    SentContextIsEvaluated(context);
    var typed := Resolved(server, flagKey, ContextFromPb(context), extract);
    return Unpacked(typed, fallback);
  }

  /** The client's own evaluator over the latest snapshot it could build. */
  class LocalEvaluator {
    var snapshot: Snapshot

    constructor ()
      ensures snapshot == Snapshot(0, map[], map[])
    {
      snapshot := Snapshot(0, map[], map[]);
    }

    /** A response that does not convert is ignored. */
    method Apply(resp: SnapshotResponse)
      modifies this
      ensures snapshot == if SnapshotFromResponse(resp).Ok? then SnapshotFromResponse(resp).value else old(snapshot)
    {
      var built := BuildSnapshot(resp);
      if built.Ok? {
        snapshot := built.value;
      }
    }

    method Resolve<T>(prim: Primitives, flagKey: string, context: PbContext, extract: Json -> Option<T>, fallback: T)
        returns (r: ClientResolution<T>)
      ensures r == Answer(Engine(snapshot, prim), flagKey, ContextFromPb(context), extract, fallback)
      ensures forall ctx | ContextNormal(ctx) && context == ContextToPb(ctx) ::
                r == Answer(Engine(snapshot, prim), flagKey, ctx, extract, fallback)
    {
      SentContextIsEvaluated(context);
      var outcome := EvaluateFlag(Engine(snapshot, prim), flagKey, ContextFromPb(context));
      match outcome {
        case Err(err) => return ClientResolution(fallback, "", Error, Some(EngineError(err.Code())));
        case Ok(res) =>
          var v := extract(res.value);
          return if v.Some? then ClientResolution(v.value, res.variant, res.reason, None)
                 else ClientResolution(fallback, "", Error, Some(TypeMismatch));
      }
    }
  }

  /** Served over the stream in whatever order, a normal snapshot answers locally exactly as it does remotely. */
  lemma LocalAgreesWithRemote<T>(s: Snapshot, resp: SnapshotResponse, flagKeys: seq<string>, segmentKeys: seq<string>,
                                 prim: Primitives, key: string, context: PbContext, extract: Json -> Option<T>,
                                 fallback: T)
    requires WellKeyed(s) && SnapshotNormal(s) && Renders(resp, s, flagKeys, segmentKeys)
    ensures SnapshotFromResponse(resp).Ok?
    ensures Answer(Engine(SnapshotFromResponse(resp).value, prim), key, ContextFromPb(context), extract, fallback)
         == Answer(Engine(s, prim), key, ContextFromPb(context), extract, fallback)
  {
    SnapshotSurvivesIff(s, resp, flagKeys, segmentKeys);
  }

  /** Normality is needed: an integer literal in the server's snapshot is an integer remotely and a mismatch locally. */
  lemma IntegerLiteralsDisagree(prim: Primitives, context: PbContext)
    ensures var f := Flag("n", Integer, false, "v", false, [Variant("v", Int(7))], []);
            var s := Snapshot(1, map["n" := f], map[]);
            var resp := SnapshotResponse(1, [FlagToPb(f)], []);
            && Renders(resp, s, ["n"], [])
            && SnapshotFromResponse(resp).Ok?
            && Answer(Engine(s, prim), "n", ContextFromPb(context), AsI64, 0).value == 7
            && Answer(Engine(SnapshotFromResponse(resp).value, prim), "n", ContextFromPb(context), AsI64,
                0).errorCode == Some(TypeMismatch)
  {
    var f := Flag("n", Integer, false, "v", false, [Variant("v", Int(7))], []);
    var s := Snapshot(1, map["n" := f], map[]);
    var resp := SnapshotResponse(1, [FlagToPb(f)], []);
    assert Renders(resp, s, ["n"], []);
    SnapshotRoundTrip(s, resp, ["n"], []);
    var g := NormalSnapshot(s).flags["n"];
    assert g.variants == [Variant("v", Float(7.0))];
  }

  /** A double never resolves as an integer, on either side: integer flags written through the API always mismatch. */
  lemma WireNormalNeverAnswersInteger(e: Engine, key: string, ctx: EvalContext)
    requires SnapshotNormal(e.snapshot)
    ensures Answer(e, key, ctx, AsI64, 0).errorCode.Some?
  {
    EvaluationServesAListedValue(e, key, ctx, []);
    if Evaluate(e, key, ctx, []).Ok? {
      var v :| v in e.snapshot.flags[key].variants && v.value == Evaluate(e, key, ctx, []).value.value;
      assert FlagNormal(e.snapshot.flags[key]);
      assert WireNormal(v.value);
    }
  }

  /** Whatever is served is one of the flag's variant values. */
  lemma EvaluationServesAListedValue(e: Engine, key: string, ctx: EvalContext, stack: seq<string>)
    ensures Evaluate(e, key, ctx, stack).Ok? ==>
              key in e.snapshot.flags &&
              exists v :: v in e.snapshot.flags[key].variants && v.value == Evaluate(e, key, ctx, stack).value.value
  {
    if key !in stack && key in e.snapshot.flags {
      var f := e.snapshot.flags[key];
      FindVariantFinds(f.variants, f.defaultVariantKey);
      if f.Active() {
        RulesServeAListedValue(e, f, key, f.rules, ctx, FlagsUnder(e, ctx, stack + [key]));
      }
    }
  }

  lemma {:induction false} RulesServeAListedValue(
    e: Engine, f: Flag, key: string, rules: seq<Rule>, ctx: EvalContext, flags: string -> Outcome)
    ensures var r := ResolveRules(e, f, key, rules, ctx, flags);
            r.Ok? ==> exists v :: v in f.variants && v.value == r.value.value
  {
    FindVariantFinds(f.variants, f.defaultVariantKey);
    if rules != [] {
      var rule := rules[0];
      if RuleMatches(e, rule, ctx, flags) && Decides(rule) {
        if rule.distributions != [] {
          FindVariantFinds(f.variants,
              Picked(rule.distributions, BucketOf(e.prim, key, rule.bucketSalt, ctx.targetingKey)));
        } else {
          FindVariantFinds(f.variants, rule.variantKey.value);
        }
      } else {
        RulesServeAListedValue(e, f, key, rules[1..], ctx, flags);
      }
    }
  }
}
