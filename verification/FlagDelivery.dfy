/**
 From an applied configuration to what clients compute from it: the store, the loads, the streams,
 the wire and the change reports put together.
 */
module FlagDelivery {
  import opened Basics
  import opened FlagModel
  import opened FlagSemantics
  import opened FlagMeaning
  import opened FlagTables
  import opened FlagWrites
  import opened FlagLoad
  import opened ConfigDiff
  import opened ConfigApply
  import opened ChangeSet
  import opened SnapshotManager
  import opened FlagCluster
  import opened ClusterSafety
  import opened Wire

  // ---- Loads ----

  /** However many commits its reads straddle, a complete load is one the loops can assemble. */
  lemma LoadsCanBeAssembled(h: seq<Commit>, l: Load)
    requires HistoryOk(h) && LoadOk(h, l) && Complete(l)
    ensures ReadsOk(l.rows)
  {
    assert ReadOk(h, l, 0) && ReadOk(h, l, 4) && ReadOk(h, l, 5);
    assert TablesOk(h[l.origin[0]].tables) && TablesOk(h[l.origin[4]].tables) && TablesOk(h[l.origin[5]].tables);
  }

  // ---- Snapshot clients ----

  ghost predicate DeclaredNormal(flags: seq<Flag>, segments: seq<Segment>) {
    && (forall d | d in flags :: VariantKeysDistinct(d.variants) && FlagNormal(d))
    && forall s | s in segments :: SegmentNormal(s)
  }

  lemma {:induction false} DistinctFindsEach(vs: seq<Variant>, v: Variant)
    requires VariantKeysDistinct(vs) && v in vs
    ensures FindVariant(vs, v.key) == Some(v)
  {
    if vs[0] != v {
      DistinctFindsEach(vs[1..], v);
    }
  }

  lemma SimilarRuleNormal(a: Rule, b: Rule)
    requires SimilarRules(a, b) && RuleNormal(b)
    ensures RuleNormal(a)
  {
    assert a.(rank := 0, constraintGroups := []).segmentKey == b.(rank := 0, constraintGroups := []).segmentKey;
    assert a.(rank := 0, constraintGroups := []).variantKey == b.(rank := 0, constraintGroups := []).variantKey;
    forall g | g in a.constraintGroups
      ensures forall c | c in g.constraints :: ConstraintNormal(c)
    {
      NonEmptyGroupsFacts(a.constraintGroups);
      NonEmptyGroupsFacts(b.constraintGroups);
      if g.constraints != [] {
        assert g in NonEmptyGroups(b.constraintGroups);
      }
    }
  }

  lemma SimilarFlagNormal(f: Flag, d: Flag)
    requires SimilarFlags(f, d) && VariantKeysDistinct(f.variants) && FlagNormal(d)
    ensures FlagNormal(f)
  {
    forall v | v in f.variants
      ensures WireNormal(v.value)
    {
      DistinctFindsEach(f.variants, v);
      assert FindVariant(f.variants, v.key) == FindVariant(d.variants, v.key);
      FindVariantFinds(d.variants, v.key);
    }
    forall r | r in f.rules
      ensures RuleNormal(r)
    {
      var i :| 0 <= i < |f.rules| && f.rules[i] == r;
      assert d.rules[i] in d.rules;
      SimilarRuleNormal(r, d.rules[i]);
    }
  }

  /** What is stored of a normal configuration is normal. */
  lemma ReconciledIsNormal(t: Tables, live: Snapshot, flags: seq<Flag>, segments: seq<Segment>)
    requires TablesOk(t) && Reconciled(t, flags, segments) && Reads(live, t) && DeclaredNormal(flags, segments)
    ensures SnapshotNormal(live)
  {
    forall k | k in live.flags
      ensures FlagNormal(live.flags[k])
    {
      ReconciledIsSimilar(t, live, 0, flags, segments, k);
      assert Get(live.flags, k) == FlagAt(t, k);
      StoredStateIsRepresentable(t, k);
      FindFlagFinds(flags, k);
      SimilarFlagNormal(live.flags[k], FindFlag(flags, k).value);
    }
    forall k | k in live.segments
      ensures SegmentNormal(live.segments[k])
    {
      assert ReconciledAt(t, flags, segments, k) && Get(live.segments, k) == SegmentAt(t, k);
      FindSegmentFinds(segments, k);
    }
  }

  /** Snapshot client `client` of replica `id` holds all its replica has, and the replica all the store has. */
  ghost predicate CaughtUp(c: Cluster, id: nat, client: nat) {
    && c.history != [] && id in c.replicas && client in c.replicas[id].receivers
    && c.replicas[id].current.version == Latest(c).version
    && c.replicas[id].receivers[client].kind == SnapshotStream
    && Settled(c.replicas[id], c.replicas[id].receivers[client])
  }

  /** `resp` is the last response the client was sent, in whatever order its flags and segments came. */
  ghost predicate LastResponse(
    c: Cluster, id: nat, client: nat, resp: SnapshotResponse, flagKeys: seq<string>, segmentKeys: seq<string>)
    requires CaughtUp(c, id, client)
  {
    var got := c.replicas[id].receivers[client].got;
    got[|got| - 1].Whole? && Renders(resp, SnapshotOf(got[|got| - 1].snapshot), flagKeys, segmentKeys)
  }

  /**
   What is applied reaches the clients: after an apply commits, and as long as nothing else does, a
   client that has caught up and rebuilds the last response it was sent evaluates every flag, in
   every context, as the configuration applied declares it.
   */
  lemma AppliedConfigReachesClients(
    run: seq<Cluster>, j: nat, i: nat, session: nat, version: int, id: nat, client: nat,
    resp: SnapshotResponse, flagKeys: seq<string>, segmentKeys: seq<string>,
    prim: Primitives, key: string, ctx: EvalContext)
    requires IsRun(run) && j < i < |run| && run[j].history != []
    requires StoreStep(run[j], run[j + 1], ApplyCommit(session, version))
    requires run[i].history == run[j + 1].history
    requires CaughtUp(run[i], id, client) && LastResponse(run[i], id, client, resp, flagKeys, segmentKeys)
    requires var request := run[j].sessions[session].request;
             && DistinctFlagKeys(request.flags) && DistinctSegmentKeys(request.segments)
             && DeclaredNormal(request.flags, request.segments)
    ensures var request := run[j].sessions[session].request;
            && SnapshotFromResponse(resp).Ok?
            && Evaluate(Engine(SnapshotFromResponse(resp).value, prim), key, ctx, [])
            == Evaluate(Engine(Declared(version, request.flags, request.segments), prim), key, ctx, [])
  {
    var request := run[j].sessions[session].request;
    NoLostUpdate(run, j, session, version);
    RunsKeepInv(run, i);
    ServedAndCachedLabelsAreLowerBounds(run, i, id, 0);
    DrainedClientIsUpToDate(run, i, id, client);
    CurrentIsDelivered(run[i], id, client, resp, flagKeys, segmentKeys, request.flags, request.segments);
    ReconciledEvaluatesAsDeclared(Latest(run[i]).tables, SnapshotOf(run[i].replicas[id].current), version,
                                  request.flags, request.segments, prim, key, ctx, []);
  }

  lemma CurrentIsDelivered(
    c: Cluster, id: nat, client: nat, resp: SnapshotResponse, flagKeys: seq<string>, segmentKeys: seq<string>,
    flags: seq<Flag>, segments: seq<Segment>)
    requires CaughtUp(c, id, client) && LastResponse(c, id, client, resp, flagKeys, segmentKeys)
    requires var got := c.replicas[id].receivers[client].got; got[|got| - 1] == Whole(c.replicas[id].current)
    requires TablesOk(Latest(c).tables) && Reconciled(Latest(c).tables, flags, segments) &&
            DeclaredNormal(flags, segments)
    requires Reads(SnapshotOf(c.replicas[id].current), Latest(c).tables)
    ensures SnapshotFromResponse(resp) == Ok(SnapshotOf(c.replicas[id].current))
  {
    var s := SnapshotOf(c.replicas[id].current);
    ReconciledIsNormal(Latest(c).tables, s, flags, segments);
    SnapshotSurvivesIff(s, resp, flagKeys, segmentKeys);
  }

  // ---- Event clients ----

  function Snapshots(served: seq<Load>): (s: seq<Snapshot>)
    ensures |s| == |served| && forall n | 0 <= n < |s| :: s[n] == SnapshotOf(served[n])
  {
    seq(|served|, n requires 0 <= n < |served| => SnapshotOf(served[n]))
  }

  /** No change the client was told of names a flag that `key` reached when the client was ready. */
  ghost predicate NothingToldReaches(r: Replica, v: Receiver, key: string)
    requires v.since < |r.served|
  {
    forall m, k | m in v.got && m.Changed? && k in m.update.changed ::
      !Reaches(SnapshotOf(r.served[v.since]), key, k)
  }

  /** A client that lost nothing was told of every swap since it was ready. */
  lemma ToldOfEverySwap(r: Replica, v: Receiver, key: string)
    requires ServedOk(r) && ReceiverOk(r, v) && v.kind == EventStream && Settled(r, v)
    requires forall m | m in v.got :: !m.Resync?
    requires NothingToldReaches(r, v, key)
    ensures Quiet(Snapshots(r.served), v.since, |r.served| - 1, key)
  {
    var s := Snapshots(r.served);
    forall n, k | v.since <= n < |r.served| - 1 && Reaches(s[v.since], key, k)
      ensures !Reported(s[n], s[n + 1], k)
    {
      assert Changed(r.published[n]) in v.got;
      assert Announces(r.served[n], r.served[n + 1], r.published[n]);
    }
  }

  /**
   An event client may keep an answer it computed when it was ready: if it has lost nothing, is
   settled, and no change it was told of names a flag the answer could depend on, the snapshot now
   served gives the same answer.
   */
  lemma KeptAnswersAreCurrent(
    run: seq<Cluster>, i: nat, id: nat, client: nat, prim: Primitives, key: string, ctx: EvalContext)
    requires IsRun(run) && i < |run| && id in run[i].replicas && client in run[i].replicas[id].receivers
    requires var r := run[i].replicas[id];
             var v := r.receivers[client];
             && v.kind == EventStream && Settled(r, v) && (forall m | m in v.got :: !m.Resync?)
             && (v.since < |r.served| ==> NothingToldReaches(r, v, key))
    ensures var r := run[i].replicas[id];
            var v := r.receivers[client];
            && v.since < |r.served|
            && Evaluate(Engine(SnapshotOf(r.served[v.since]), prim), key, ctx, [])
            == Evaluate(Engine(SnapshotOf(r.current), prim), key, ctx, [])
  {
    RunsKeepInv(run, i);
    var r := run[i].replicas[id];
    assert ReplicaOk(run[i].history, r);
    var v := r.receivers[client];
    assert ReceiverOk(r, v);
    ToldOfEverySwap(r, v, key);
    SelectiveInvalidationIsSound(Snapshots(r.served), v.since, |r.served| - 1, prim, key, ctx);
  }
}
