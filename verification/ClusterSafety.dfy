/**
 Safety of the service over every run: what a version label promises about the rows behind it,
 that no apply overwrites a change it did not plan for, and that no connected client is left behind.
 */
module ClusterSafety {
  import opened Basics
  import opened FlagModel
  import opened FlagSemantics
  import opened FlagTables
  import opened FlagWrites
  import opened ConfigDiff
  import opened ConfigApply
  import opened ChangeSet
  import opened FlagCluster

  // ---- The invariant ----

  ghost predicate HistoryOk(h: seq<Commit>) {
    && h != []
    && h[0].tables == EMPTY && h[0].version >= 0
    && (forall i, j | 0 <= i < j < |h| :: h[i].version < h[j].version)
    && (forall i | 0 <= i < |h| :: TablesOk(h[i].tables))
  }

  /** Read `k` of the load holds that table as some commit at or after the load's version left it. */
  ghost predicate ReadOk(h: seq<Commit>, l: Load, k: nat)
    requires k < |l.origin|
  {
    l.origin[k] < |h| && h[l.origin[k]].version >= l.version && WithRead(l.rows, k, h[l.origin[k]].tables) == l.rows
  }

  ghost predicate LoadOk(h: seq<Commit>, l: Load)
    requires h != []
  {
    && |l.origin| <= READS && l.rows.nextId == 0
    && l.version <= h[|h| - 1].version
    && forall k | 0 <= k < |l.origin| :: ReadOk(h, l, k)
  }

  /** The store is at the version the request expects, if it expects one. */
  ghost predicate Expected(c: Cluster, request: Request)
    requires c.history != []
  {
    request.expectedVersion == 0 || request.expectedVersion == Latest(c).version
  }

  ghost predicate SessionOk(c: Cluster, id: nat)
    requires HistoryOk(c.history) && id in c.sessions
  {
    var s := c.sessions[id];
    && (s.Planning? || s.Planned? || s.Locked? ==> LoadOk(c.history, s.load))
    && (s.Planned? || s.Locked? ==>
          && Complete(s.load)
          && IsDiff(SnapshotOf(s.load), s.request.flags, s.request.segments, s.changes))
    && (s.Locked? ==> c.lockedBy == Some(id) && s.load.version == Latest(c).version && Expected(c, s.request))
  }

  ghost predicate BootOk(h: seq<Commit>, b: Boot)
    requires h != []
  {
    (b.BootLoading? ==> LoadOk(h, b.load)) && (b.BootLoaded? ==> LoadOk(h, b.load) && Complete(b.load))
  }

  ghost predicate JobOk(h: seq<Commit>, r: Replica)
    requires h != []
  {
    match r.job
    case Idle => true
    case Begun(begun) => begun <= h[|h| - 1].version
    case Loading(begun, load) => LoadOk(h, load) && begun <= load.version
    case Publishing(begun, load) =>
      LoadOk(h, load) && Complete(load) && begun <= load.version && r.current.version < load.version
    case Swapped(begun, update) =>
      begun <= update.version == r.current.version && forall u | u in r.published :: u.version < update.version
  }

  ghost predicate Increasing(s: seq<ConfigUpdate>) {
    forall i, j | 0 <= i < j < |s| :: s[i].version < s[j].version
  }

  ghost predicate PublishedOk(r: Replica) {
    && Increasing(r.published)
    && (forall u | u in r.published :: u.version <= r.current.version)
    && (r.published != [] && !r.job.Swapped? ==> r.published[|r.published| - 1].version == r.current.version)
    && r.freshAsOf <= r.current.version
  }

  /** The update names the version swapped in, and exactly the flags the swap touched. */
  ghost predicate Announces(a: Load, b: Load, u: ConfigUpdate) {
    u.version == b.version && ReportOf(SnapshotOf(a), SnapshotOf(b), u.changed)
  }

  /** Every swap but one still to be sent has its update among the published ones. */
  ghost predicate ServedOk(r: Replica) {
    && |r.served| == |r.published| + (if r.job.Swapped? then 2 else 1)
    && r.served[|r.served| - 1] == r.current
    && (forall i | 0 <= i < |r.published| :: Announces(r.served[i], r.served[i + 1], r.published[i]))
    && (r.job.Swapped? ==> Announces(r.served[|r.published|], r.current, r.job.update))
  }

  /** A client that has been sent something as new as what is served, or for whom news is still on the way. */
  ghost predicate InTouch(r: Replica, v: Receiver) {
    || v.got == []
    || r.job.Swapped?
    || v.pos < |r.published|
    || exists i :: 0 <= i < |v.got| && v.got[i].Version() == r.current.version
  }

  ghost predicate VersionsNeverDecrease(got: seq<Message>) {
    forall i, j | 0 <= i < j < |got| :: got[i].Version() <= got[j].Version()
  }

  /** What a snapshot client is sent: whole snapshots, and under the served version the served one. */
  ghost predicate SnapshotsOk(r: Replica, got: seq<Message>) {
    && VersionsNeverDecrease(got)
    && forall m | m in got :: m.Whole? && (m.Version() == r.current.version ==> m.snapshot == r.current)
  }

  /** The changes an event client is told of, strictly newer each time. */
  ghost predicate ChangesIncrease(got: seq<Message>) {
    forall i, j | 0 <= i < j < |got| && got[i].Changed? && got[j].Changed? :: got[i].Version() < got[j].Version()
  }

  /** Each was published, and is older than those still to come. */
  ghost predicate ChangesPublished(r: Replica, v: Receiver) {
    forall m | m in v.got && m.Changed? ::
      && m.update in r.published
      && (r.job.Swapped? ==> m.Version() < r.current.version)
      && forall i | v.pos <= i < |r.published| :: m.Version() < r.published[i].version
  }

  /** A client that lost nothing was sent every update from where it started. */
  ghost predicate NothingSkipped(r: Replica, v: Receiver)
    requires v.pos <= |r.published|
  {
    (forall m | m in v.got :: !m.Resync?) ==> forall i | v.from <= i < v.pos :: Changed(r.published[i]) in v.got
  }

  ghost predicate EventsOk(r: Replica, v: Receiver)
    requires v.pos <= |r.published|
  {
    && ChangesIncrease(v.got) && ChangesPublished(r, v) && NothingSkipped(r, v)
    && (v.got != [] ==> v.from <= v.since < |r.served|)
  }

  ghost predicate ReceiverOk(r: Replica, v: Receiver) {
    && v.from <= v.pos <= |r.published|
    && (forall m | m in v.got :: m.Version() <= r.current.version)
    && InTouch(r, v)
    && (v.kind == SnapshotStream ==> SnapshotsOk(r, v.got))
    && (v.kind == EventStream ==> EventsOk(r, v))
  }

  ghost predicate ReceiversOk(r: Replica) {
    forall k | k in r.receivers :: ReceiverOk(r, r.receivers[k])
  }

  ghost predicate ReplicaOk(h: seq<Commit>, r: Replica)
    requires h != []
  {
    LoadOk(h, r.current) && Complete(r.current) && JobOk(h, r) && PublishedOk(r) && ServedOk(r) && ReceiversOk(r)
  }

  ghost predicate Inv(c: Cluster) {
    && HistoryOk(c.history)
    && (forall id | id in c.sessions :: SessionOk(c, id))
    && (c.lockedBy.Some? ==> c.lockedBy.value in c.sessions && c.sessions[c.lockedBy.value].Locked?)
    && (c.cache.Some? ==> LoadOk(c.history, c.cache.value) && Complete(c.cache.value))
    && (forall id | id in c.boots :: BootOk(c.history, c.boots[id]))
    && (forall id | id in c.replicas :: ReplicaOk(c.history, c.replicas[id]))
  }

  // ---- Loads ----

  lemma NewLoadOk(c: Cluster)
    requires HistoryOk(c.history)
    ensures LoadOk(c.history, NewLoad(c))
  {
  }

  lemma ReadNextOk(c: Cluster, l: Load)
    requires HistoryOk(c.history) && LoadOk(c.history, l) && !Complete(l)
    ensures LoadOk(c.history, ReadNext(c, l))
  {
    var m := ReadNext(c, l);
    forall k | 0 <= k < |m.origin|
      ensures ReadOk(c.history, m, k)
    {
      if k < |l.origin| {
        assert ReadOk(c.history, l, k);
      }
    }
  }

  lemma LoadOkGrows(h: seq<Commit>, commit: Commit, l: Load)
    requires h != [] && LoadOk(h, l) && h[|h| - 1].version < commit.version
    ensures LoadOk(h + [commit], l)
  {
    forall k | 0 <= k < |l.origin|
      ensures ReadOk(h + [commit], l, k)
    {
      assert ReadOk(h, l, k);
    }
  }

  lemma EmptyLoadOk(h: seq<Commit>)
    requires HistoryOk(h)
    ensures LoadOk(h, EMPTY_LOAD)
  {
    assert h[|h| - 1].version >= h[0].version;
  }

  lemma BootOkGrows(h: seq<Commit>, commit: Commit, b: Boot)
    requires h != [] && BootOk(h, b) && h[|h| - 1].version < commit.version
    ensures BootOk(h + [commit], b)
  {
    if !b.BootChecked? {
      LoadOkGrows(h, commit, b.load);
    }
  }

  lemma ReplicaOkGrows(h: seq<Commit>, commit: Commit, r: Replica)
    requires h != [] && ReplicaOk(h, r) && h[|h| - 1].version < commit.version
    ensures ReplicaOk(h + [commit], r)
  {
    LoadOkGrows(h, commit, r.current);
    if r.job.Loading? || r.job.Publishing? {
      LoadOkGrows(h, commit, r.job.load);
    }
  }

  // ---- Preservation ----

  /** Committing keeps every load, boot and replica as it was judged before. */
  lemma CommitKeepsReaders(c: Cluster, d: Cluster, commit: Commit)
    requires Inv(c) && d.history == c.history + [commit]
    requires commit.version > Latest(c).version && TablesOk(commit.tables)
    ensures HistoryOk(d.history)
    ensures c.cache.Some? ==> LoadOk(d.history, c.cache.value)
    ensures forall id | id in c.boots :: BootOk(d.history, c.boots[id])
    ensures forall id | id in c.replicas :: ReplicaOk(d.history, c.replicas[id])
  {
    if c.cache.Some? {
      LoadOkGrows(c.history, commit, c.cache.value);
    }
    forall id | id in c.boots
      ensures BootOk(d.history, c.boots[id])
    {
      BootOkGrows(c.history, commit, c.boots[id]);
    }
    forall id | id in c.replicas
      ensures ReplicaOk(d.history, c.replicas[id])
    {
      ReplicaOkGrows(c.history, commit, c.replicas[id]);
    }
  }

  /** Other sessions outlive a commit; none of them holds the lock. */
  lemma CommitKeepsSession(c: Cluster, d: Cluster, commit: Commit, id: nat)
    requires Inv(c) && d.history == c.history + [commit] && HistoryOk(d.history)
    requires commit.version > Latest(c).version
    requires id in c.sessions && id in d.sessions && d.sessions[id] == c.sessions[id] && !c.sessions[id].Locked?
    ensures SessionOk(d, id)
  {
    assert SessionOk(c, id);
    var s := c.sessions[id];
    if s.Planning? || s.Planned? {
      LoadOkGrows(c.history, commit, s.load);
    }
  }

  /** A complete load labelled with the store's latest version is that version, whole. */
  lemma LatestLabelIsLatestState(h: seq<Commit>, l: Load)
    requires HistoryOk(h) && LoadOk(h, l) && Complete(l) && l.version == h[|h| - 1].version
    ensures l.rows == h[|h| - 1].tables.(nextId := 0)
  {
    var n := |h| - 1;
    assert forall i | 0 <= i < n :: h[i].version < h[n].version;
    forall k | 0 <= k < READS
      ensures l.origin[k] == n && WithRead(l.rows, k, h[n].tables) == l.rows
    {
      assert ReadOk(h, l, k);
    }
    var t := h[n].tables;
    assert WithRead(l.rows, 0, t) == l.rows && WithRead(l.rows, 1, t) == l.rows && WithRead(l.rows, 2, t) == l.rows;
    assert WithRead(l.rows, 3, t) == l.rows && WithRead(l.rows, 4, t) == l.rows && WithRead(l.rows, 5, t) == l.rows;
    assert WithRead(l.rows, 6, t) == l.rows;
  }

  /** Row ids yet to be drawn are nothing a read can see. */
  lemma ReadIgnoresNextId(t: Tables, s: Snapshot)
    requires Reads(s, t.(nextId := 0))
    ensures Reads(s, t)
  {
    var u := t.(nextId := 0);
    forall k
      ensures FlagAt(t, k) == FlagAt(u, k) && SegmentAt(t, k) == SegmentAt(u, k)
    {
      if FindKeyed(t.flags, k).Some? {
        FlagOfFrame(u, t, FindKeyed(t.flags, k).value);
      }
    }
    forall k
      ensures Get(s.flags, k) == FlagAt(t, k) && Get(s.segments, k) == SegmentAt(t, k)
    {
      assert Get(s.flags, k) == FlagAt(u, k) && Get(s.segments, k) == SegmentAt(u, k);
    }
  }

  /** What a session that holds the lock planned against is what is in the store. */
  lemma LockedPlanIsCurrent(c: Cluster, id: nat)
    requires Inv(c) && id in c.sessions && c.sessions[id].Locked?
    ensures Reads(SnapshotOf(c.sessions[id].load), Latest(c).tables)
  {
    assert SessionOk(c, id);
    var s := c.sessions[id];
    LatestLabelIsLatestState(c.history, s.load);
    ReadIgnoresNextId(Latest(c).tables, SnapshotOf(s.load));
  }

  /** The state an apply commits is the declared one. */
  lemma ApplyCommitReconciles(c: Cluster, id: nat)
    requires Inv(c) && id in c.sessions && c.sessions[id].Locked?
    requires WritesStorable(c.sessions[id].changes, c.sessions[id].request.flags)
    ensures var s := c.sessions[id];
            var after := ApplyChanges(Latest(c).tables, s.changes, s.request.flags, s.request.segments);
            && TablesOk(after)
            && (DistinctFlagKeys(s.request.flags) && DistinctSegmentKeys(s.request.segments) ==>
                  Reconciled(after, s.request.flags, s.request.segments))
  {
    assert SessionOk(c, id);
    var s := c.sessions[id];
    LockedPlanIsCurrent(c, id);
    DiffIsBacked(SnapshotOf(s.load), s.request.flags, s.request.segments, s.changes);
    ApplyChangesOk(Latest(c).tables, s.changes, s.request.flags, s.request.segments, "");
    if DistinctFlagKeys(s.request.flags) && DistinctSegmentKeys(s.request.segments) {
      ApplyConverges(Latest(c).tables, SnapshotOf(s.load), s.request.flags, s.request.segments, s.changes);
    }
  }

  lemma WriteKeepsInv(c: Cluster, d: Cluster, step: StoreAction)
    requires Inv(c) && step.Write? && StoreStep(c, d, step)
    ensures Inv(d)
  {
    CommitKeepsReaders(c, d, step.commit);
    forall id | id in d.sessions
      ensures SessionOk(d, id)
    {
      assert SessionOk(c, id);
      CommitKeepsSession(c, d, step.commit, id);
    }
  }

  /** A step that only rewrites one session, without the history or the lock moving. */
  lemma SessionUpdateKeepsInv(c: Cluster, id: nat, s: Session)
    requires Inv(c) && !s.Locked? && (id in c.sessions ==> !c.sessions[id].Locked?)
    requires SessionOk(SetSession(c, id, s), id)
    ensures Inv(SetSession(c, id, s))
  {
    var d := SetSession(c, id, s);
    forall x | x in d.sessions
      ensures SessionOk(d, x)
    {
      if x != id {
        assert SessionOk(c, x);
      }
    }
  }

  lemma ApplyStepKeepsInv(c: Cluster, d: Cluster, step: StoreAction)
    requires Inv(c) && StoreStep(c, d, step)
    requires step.ApplyBegin? || step.ApplyRead? || step.ApplyPlan?
    ensures Inv(d)
  {
    match step {
      case ApplyBegin(id, request) =>
        NewLoadOk(c);
        SessionUpdateKeepsInv(c, id, Planning(request, NewLoad(c)));
      case ApplyRead(id) =>
        assert SessionOk(c, id);
        ReadNextOk(c, c.sessions[id].load);
        SessionUpdateKeepsInv(c, id, Planning(c.sessions[id].request, ReadNext(c, c.sessions[id].load)));
      case ApplyPlan(id, changes) =>
        assert SessionOk(c, id);
        var s := c.sessions[id];
        SessionUpdateKeepsInv(c, id, if changes == [] then Finished else Planned(s.request, s.load, changes));
    }
  }

  lemma LockTakenKeepsInv(c: Cluster, id: nat)
    requires Inv(c) && Unlocked(c) && id in c.sessions && c.sessions[id].Planned?
    requires c.sessions[id].load.version == Latest(c).version && Expected(c, c.sessions[id].request)
    ensures var s := c.sessions[id];
            Inv(SetSession(c, id, Locked(s.request, s.load, s.changes)).(lockedBy := Some(id)))
  {
    var s := c.sessions[id];
    var d := SetSession(c, id, Locked(s.request, s.load, s.changes)).(lockedBy := Some(id));
    assert SessionOk(c, id);
    forall x | x in d.sessions
      ensures SessionOk(d, x)
    {
      if x != id {
        assert SessionOk(c, x);
      }
    }
  }

  lemma ApplyLockKeepsInv(c: Cluster, d: Cluster, step: StoreAction)
    requires Inv(c) && step.ApplyLock? && StoreStep(c, d, step)
    ensures Inv(d)
  {
    if d.lockedBy.None? {
      SessionUpdateKeepsInv(c, step.id, Session.Aborted);
    } else {
      LockTakenKeepsInv(c, step.id);
    }
  }

  lemma ApplyCommitKeepsInv(c: Cluster, d: Cluster, step: StoreAction)
    requires Inv(c) && step.ApplyCommit? && StoreStep(c, d, step)
    ensures Inv(d)
  {
    var s := c.sessions[step.id];
    assert SessionOk(c, step.id);
    ApplyCommitReconciles(c, step.id);
    var commit := d.history[|c.history|];
    CommitKeepsReaders(c, d, commit);
    forall x | x in d.sessions
      ensures SessionOk(d, x)
    {
      if x != step.id {
        assert SessionOk(c, x);
        CommitKeepsSession(c, d, commit, x);
      }
    }
  }

  lemma ApplyRollbackKeepsInv(c: Cluster, d: Cluster, step: StoreAction)
    requires Inv(c) && step.ApplyRollback? && StoreStep(c, d, step)
    ensures Inv(d)
  {
    assert SessionOk(c, step.id);
    forall x | x in d.sessions
      ensures SessionOk(d, x)
    {
      if x != step.id {
        assert SessionOk(c, x);
      }
    }
  }

  /** A step that leaves the store and its sessions alone. */
  ghost predicate StoreUntouched(c: Cluster, d: Cluster) {
    d.history == c.history && d.lockedBy == c.lockedBy && d.sessions == c.sessions
  }

  lemma UntouchedSessionsOk(c: Cluster, d: Cluster)
    requires Inv(c) && StoreUntouched(c, d)
    ensures forall id | id in d.sessions :: SessionOk(d, id)
  {
    forall id | id in d.sessions
      ensures SessionOk(d, id)
    {
      assert SessionOk(c, id);
    }
  }

  lemma ReplicaUpdateKeepsInv(c: Cluster, id: nat, r: Replica)
    requires Inv(c) && ReplicaOk(c.history, r)
    ensures Inv(SetReplica(c, id, r))
  {
    UntouchedSessionsOk(c, SetReplica(c, id, r));
  }

  lemma BootUpdateKeepsInv(c: Cluster, id: nat, b: Boot)
    requires Inv(c) && BootOk(c.history, b)
    ensures Inv(SetBoot(c, id, b))
  {
    UntouchedSessionsOk(c, SetBoot(c, id, b));
  }

  lemma CacheUpdateKeepsInv(c: Cluster, l: Option<Load>)
    requires Inv(c) && (l.Some? ==> LoadOk(c.history, l.value) && Complete(l.value))
    ensures Inv(c.(cache := l))
  {
    UntouchedSessionsOk(c, c.(cache := l));
  }

  lemma NewReplicaOk(h: seq<Commit>, l: Load)
    requires h != [] && LoadOk(h, l) && Complete(l)
    ensures ReplicaOk(h, NewReplica(l))
  {
  }

  lemma BootStepKeepsInv(c: Cluster, d: Cluster, step: BootAction)
    requires Inv(c) && BootStep(c, d, step)
    ensures Inv(d)
  {
    match step {
      case CacheExpire =>
        CacheUpdateKeepsInv(c, None);
      case BootCheck(id) =>
        BootUpdateKeepsInv(c, id, BootChecked(Latest(c).version));
      case BootHit(id) =>
        NewReplicaOk(c.history, c.cache.value);
        ReplicaUpdateKeepsInv(c, id, NewReplica(c.cache.value));
      case BootMiss(id) =>
        NewLoadOk(c);
        BootUpdateKeepsInv(c, id, BootLoading(NewLoad(c)));
      case BootRead(id) =>
        assert BootOk(c.history, c.boots[id]);
        ReadNextOk(c, c.boots[id].load);
        var l := ReadNext(c, c.boots[id].load);
        BootUpdateKeepsInv(c, id, if Complete(l) then BootLoaded(l) else BootLoading(l));
      case BootPut(id) =>
        assert BootOk(c.history, c.boots[id]);
        CacheUpdateKeepsInv(c, Some(c.boots[id].load));
      case BootServe(id) =>
        assert BootOk(c.history, c.boots[id]);
        NewReplicaOk(c.history, c.boots[id].load);
        ReplicaUpdateKeepsInv(c, id, NewReplica(c.boots[id].load));
      case BootFail(id) =>
        EmptyLoadOk(c.history);
        NewReplicaOk(c.history, EMPTY_LOAD);
        ReplicaUpdateKeepsInv(c, id, NewReplica(EMPTY_LOAD));
    }
  }

  lemma LoadingStepOk(c: Cluster, d: Cluster, step: ReloadAction, id: nat)
    requires HistoryOk(c.history) && id in c.replicas && ReplicaOk(c.history, c.replicas[id])
    requires ReloadStep(c, d, step, id)
    requires step.ReloadBegin? || step.ReloadLabel? || step.ReloadRead? || step.ReloadFail?
    ensures d == SetReplica(c, id, d.replicas[id]) && ReplicaOk(c.history, d.replicas[id])
  {
    var r := c.replicas[id];
    if step.ReloadLabel? {
      NewLoadOk(c);
    } else if step.ReloadRead? {
      ReadNextOk(c, r.job.load);
    }
    JobChangeOk(c.history, r, d.replicas[id].job);
  }

  lemma DecidingStepOk(c: Cluster, d: Cluster, step: ReloadAction, id: nat)
    requires HistoryOk(c.history) && id in c.replicas && ReplicaOk(c.history, c.replicas[id])
    requires ReloadStep(c, d, step, id) && (step.ReloadSkip? || step.ReloadAccept?)
    ensures d == SetReplica(c, id, d.replicas[id]) && ReplicaOk(c.history, d.replicas[id])
  {
    var r := c.replicas[id];
    JobChangeOk(c.history, r, d.replicas[id].job);
    if step.ReloadSkip? {
      FreshnessChangeOk(c.history, r.(job := Idle), d.replicas[id].freshAsOf);
    }
  }

  lemma PublishingStepOk(c: Cluster, d: Cluster, step: ReloadAction, id: nat)
    requires HistoryOk(c.history) && id in c.replicas && ReplicaOk(c.history, c.replicas[id])
    requires ReloadStep(c, d, step, id) && (step.ReloadSwap? || step.ReloadSend?)
    ensures d == SetReplica(c, id, d.replicas[id]) && ReplicaOk(c.history, d.replicas[id])
  {
    if step.ReloadSwap? {
      SwapOk(c.history, c.replicas[id], step.changed);
    } else {
      SendOk(c.history, c.replicas[id]);
    }
  }

  lemma PutKeepsInv(c: Cluster, d: Cluster, step: ReloadAction, id: nat)
    requires Inv(c) && id in c.replicas && step.ReloadPut? && ReloadStep(c, d, step, id)
    ensures Inv(d)
  {
    assert JobOk(c.history, c.replicas[id]);
    CacheUpdateKeepsInv(c, Some(c.replicas[id].job.load));
  }

  lemma ReloadStepKeepsInv(c: Cluster, d: Cluster, step: ReloadAction, id: nat)
    requires Inv(c) && id in c.replicas && ReloadStep(c, d, step, id)
    ensures Inv(d)
  {
    if step.ReloadPut? {
      PutKeepsInv(c, d, step, id);
      return;
    }
    if step.ReloadSwap? || step.ReloadSend? {
      PublishingStepOk(c, d, step, id);
    } else if step.ReloadSkip? || step.ReloadAccept? {
      DecidingStepOk(c, d, step, id);
    } else {
      LoadingStepOk(c, d, step, id);
    }
    ReplicaUpdateKeepsInv(c, id, d.replicas[id]);
  }

  /** Before the swap a reload changes nothing a client can see. */
  lemma JobChangeOk(h: seq<Commit>, r: Replica, job: Job)
    requires h != [] && ReplicaOk(h, r) && !r.job.Swapped? && !job.Swapped? && JobOk(h, r.(job := job))
    ensures ReplicaOk(h, r.(job := job))
  {
    forall k | k in r.receivers
      ensures ReceiverOk(r.(job := job), r.receivers[k])
    {
      SameNewsSameReceiver(r, r.(job := job), r.receivers[k]);
    }
  }

  /** A receiver sees only what is served, what was published, and whether an update is about to be. */
  lemma SameNewsSameReceiver(r: Replica, q: Replica, v: Receiver)
    requires ReceiverOk(r, v)
    requires q.current == r.current && q.served == r.served && q.published == r.published
    requires q.job.Swapped? == r.job.Swapped?
    ensures ReceiverOk(q, v)
  {
  }

  lemma FreshnessChangeOk(h: seq<Commit>, r: Replica, asOf: int)
    requires h != [] && ReplicaOk(h, r) && asOf <= r.current.version
    ensures ReplicaOk(h, r.(freshAsOf := asOf))
  {
    forall k | k in r.receivers
      ensures ReceiverOk(r.(freshAsOf := asOf), r.receivers[k])
    {
      SameNewsSameReceiver(r, r.(freshAsOf := asOf), r.receivers[k]);
    }
  }

  // ---- Swap ----

  lemma SwapServedOk(h: seq<Commit>, r: Replica, changed: seq<string>)
    requires h != [] && JobOk(h, r) && ServedOk(r) && r.job.Publishing?
    requires ReportOf(SnapshotOf(r.current), SnapshotOf(r.job.load), changed)
    ensures ServedOk(Swap(r, changed))
  {
    var q := Swap(r, changed);
    forall i | 0 <= i < |q.published|
      ensures Announces(q.served[i], q.served[i + 1], q.published[i])
    {
      assert Announces(r.served[i], r.served[i + 1], r.published[i]);
    }
  }

  lemma SwapReceiverOk(h: seq<Commit>, r: Replica, changed: seq<string>, v: Receiver)
    requires h != [] && JobOk(h, r) && ReceiverOk(r, v) && r.job.Publishing?
    ensures ReceiverOk(Swap(r, changed), v)
  {
  }

  lemma SwapOk(h: seq<Commit>, r: Replica, changed: seq<string>)
    requires h != [] && ReplicaOk(h, r) && r.job.Publishing?
    requires ReportOf(SnapshotOf(r.current), SnapshotOf(r.job.load), changed)
    ensures ReplicaOk(h, Swap(r, changed))
  {
    var q := Swap(r, changed);
    SwapServedOk(h, r, changed);
    assert PublishedOk(q);
    forall k | k in q.receivers
      ensures ReceiverOk(q, q.receivers[k])
    {
      SwapReceiverOk(h, r, changed, r.receivers[k]);
    }
  }

  // ---- Send ----

  lemma AppendIncreases(s: seq<ConfigUpdate>, x: ConfigUpdate)
    requires Increasing(s) && forall u | u in s :: u.version < x.version
    ensures Increasing(s + [x])
  {
    forall i, j | 0 <= i < j < |s| + 1
      ensures (s + [x])[i].version < (s + [x])[j].version
    {
      if j == |s| {
        assert s[i] in s;
      }
    }
  }

  lemma SentPublishedOk(h: seq<Commit>, r: Replica)
    requires h != [] && JobOk(h, r) && PublishedOk(r) && r.job.Swapped?
    ensures PublishedOk(Send(r))
  {
    AppendIncreases(r.published, r.job.update);
  }

  lemma SentServedOk(r: Replica)
    requires ServedOk(r) && r.job.Swapped?
    ensures ServedOk(Send(r))
  {
    var q := Send(r);
    forall i | 0 <= i < |q.published|
      ensures Announces(q.served[i], q.served[i + 1], q.published[i])
    {
      if i < |r.published| {
        assert Announces(r.served[i], r.served[i + 1], r.published[i]);
      }
    }
  }

  lemma SentEventsOk(h: seq<Commit>, r: Replica, v: Receiver)
    requires h != [] && JobOk(h, r) && v.pos <= |r.published| && EventsOk(r, v) && r.job.Swapped?
    ensures EventsOk(Send(r), v)
  {
    var q := Send(r);
    forall m | m in v.got && m.Changed?
      ensures m.update in q.published
      ensures forall i | v.pos <= i < |q.published| :: m.Version() < q.published[i].version
    {
      assert m.update in r.published && m.Version() < r.current.version;
      forall i | v.pos <= i < |q.published|
        ensures m.Version() < q.published[i].version
      {
        if i < |r.published| {
          assert q.published[i] == r.published[i];
        }
      }
    }
    forall i | v.from <= i < v.pos && forall m | m in v.got :: !m.Resync?
      ensures Changed(q.published[i]) in v.got
    {
      assert q.published[i] == r.published[i];
    }
  }

  lemma SendOk(h: seq<Commit>, r: Replica)
    requires h != [] && ReplicaOk(h, r) && r.job.Swapped?
    ensures ReplicaOk(h, Send(r))
  {
    SentPublishedOk(h, r);
    SentServedOk(r);
    forall k | k in r.receivers
      ensures ReceiverOk(Send(r), r.receivers[k])
    {
      if r.receivers[k].kind == EventStream {
        SentEventsOk(h, r, r.receivers[k]);
      }
    }
  }

  // ---- Receivers ----

  lemma ReceiverUpdateOk(h: seq<Commit>, r: Replica, client: nat, v: Receiver)
    requires h != [] && ReplicaOk(h, r) && ReceiverOk(r, v)
    ensures ReplicaOk(h, r.(receivers := r.receivers[client := v]))
  {
    var q := r.(receivers := r.receivers[client := v]);
    forall k | k in q.receivers
      ensures ReceiverOk(q, q.receivers[k])
    {
      SameNewsSameReceiver(r, q, q.receivers[k]);
    }
  }

  lemma ReceiverUpdateKeepsInv(c: Cluster, id: nat, client: nat, v: Receiver)
    requires Inv(c) && id in c.replicas && ReceiverOk(c.replicas[id], v)
    ensures var r := c.replicas[id];
            Inv(SetReplica(c, id, r.(receivers := r.receivers[client := v])))
  {
    var r := c.replicas[id];
    ReceiverUpdateOk(c.history, r, client, v);
    ReplicaUpdateKeepsInv(c, id, r.(receivers := r.receivers[client := v]));
  }

  lemma HeadOk(r: Replica, v: Receiver)
    requires ServedOk(r) && ReceiverOk(r, v) && v.got == []
    ensures ReceiverOk(r, WithHead(r, v))
  {
    var w := WithHead(r, v);
    assert w.got[0].Version() == r.current.version;
  }

  lemma PopInTouch(r: Replica, v: Receiver)
    requires PublishedOk(r) && ReceiverOk(r, v) && v.pos < |r.published|
    ensures InTouch(r, Pop(r, v))
  {
    var w := Pop(r, v);
    if w.pos == |r.published| && !r.job.Swapped? {
      assert w.got[|v.got|].Version() == r.current.version;
    }
  }

  lemma PopSnapshotsOk(r: Replica, v: Receiver)
    requires ReceiverOk(r, v) && v.kind == SnapshotStream && v.pos < |r.published|
    ensures SnapshotsOk(r, Pop(r, v).got)
  {
    forall i | 0 <= i < |v.got|
      ensures v.got[i].Version() <= r.current.version
    {
      assert v.got[i] in v.got;
    }
  }

  /** The next update is newer than every change told so far. */
  lemma PopChangesOk(h: seq<Commit>, r: Replica, v: Receiver)
    requires h != [] && JobOk(h, r) && PublishedOk(r) && ReceiverOk(r, v)
    requires v.kind == EventStream && v.pos < |r.published|
    ensures ChangesIncrease(Pop(r, v).got) && ChangesPublished(r, Pop(r, v))
  {
    var w := Pop(r, v);
    forall i | 0 <= i < |v.got| && v.got[i].Changed?
      ensures v.got[i].Version() < r.published[v.pos].version
    {
      assert v.got[i] in v.got;
    }
    assert r.published[v.pos] in r.published;
  }

  lemma PopSkipsNothing(r: Replica, v: Receiver)
    requires v.from <= v.pos < |r.published| && NothingSkipped(r, v) && v.kind == EventStream
    ensures NothingSkipped(r, Pop(r, v))
  {
    var w := Pop(r, v);
    if forall m | m in w.got :: !m.Resync? {
      assert w.got[|v.got|] in w.got;
      forall m | m in v.got
        ensures !m.Resync?
      {
        assert m in w.got;
      }
    }
  }

  lemma PopOk(h: seq<Commit>, r: Replica, v: Receiver)
    requires h != [] && JobOk(h, r) && PublishedOk(r) && ReceiverOk(r, v) && v.got != [] && v.pos < |r.published|
    ensures ReceiverOk(r, Pop(r, v))
  {
    assert r.published[v.pos] in r.published;
    PopInTouch(r, v);
    if v.kind == SnapshotStream {
      PopSnapshotsOk(r, v);
    } else {
      PopChangesOk(h, r, v);
      PopSkipsNothing(r, v);
    }
  }

  lemma StreamStepKeepsInv(c: Cluster, d: Cluster, step: StreamAction, id: nat, client: nat)
    requires Inv(c) && id in c.replicas && StreamStep(c, d, step, id, client)
    ensures Inv(d)
  {
    var r := c.replicas[id];
    assert ReplicaOk(c.history, r);
    match step {
      case Subscribe(kind) =>
        ReceiverUpdateKeepsInv(c, id, client, Receiver(kind, |r.published|, |r.published|, 0, []));
      case SendHead =>
        HeadOk(r, r.receivers[client]);
        ReceiverUpdateKeepsInv(c, id, client, WithHead(r, r.receivers[client]));
      case Receive =>
        PopOk(c.history, r, r.receivers[client]);
        ReceiverUpdateKeepsInv(c, id, client, Pop(r, r.receivers[client]));
    }
  }

  // ---- Over every run ----

  lemma InitHasInv(c: Cluster)
    requires Init(c)
    ensures Inv(c)
  {
  }

  lemma StoreStepKeepsInv(c: Cluster, d: Cluster, step: StoreAction)
    requires Inv(c) && StoreStep(c, d, step)
    ensures Inv(d)
  {
    if step.Write? {
      WriteKeepsInv(c, d, step);
    } else if step.ApplyLock? {
      ApplyLockKeepsInv(c, d, step);
    } else if step.ApplyCommit? {
      ApplyCommitKeepsInv(c, d, step);
    } else if step.ApplyRollback? {
      ApplyRollbackKeepsInv(c, d, step);
    } else {
      ApplyStepKeepsInv(c, d, step);
    }
  }

  lemma StepKeepsInv(c: Cluster, d: Cluster, step: Step)
    requires Inv(c) && Next(c, d, step)
    ensures Inv(d)
  {
    match step {
      case OnStore(action) => StoreStepKeepsInv(c, d, action);
      case OnBoot(action) => BootStepKeepsInv(c, d, action);
      case OnReload(id, action) => ReloadStepKeepsInv(c, d, action, id);
      case OnStream(id, client, action) => StreamStepKeepsInv(c, d, action, id, client);
    }
  }

  lemma {:induction false} RunsKeepInv(run: seq<Cluster>, i: nat)
    requires IsRun(run) && i < |run|
    ensures Inv(run[i])
  {
    if i == 0 {
      InitHasInv(run[0]);
    } else {
      RunsKeepInv(run, i - 1);
      assert Steps(run[i - 1], run[i]);
      var step :| Next(run[i - 1], run[i], step);
      StepKeepsInv(run[i - 1], run[i], step);
    }
  }

  /**
   No lost update: whenever a run commits an apply, the diff it applies is the diff of the very
   state it is applied to, and the state it commits is the declared one, though the snapshot that
   was diffed came from separate reads with other writers in between. A request that expected a
   version is committed on that version only.
   */
  lemma NoLostUpdate(run: seq<Cluster>, i: nat, id: nat, version: int)
    requires IsRun(run) && i + 1 < |run| && run[i].history != [] &&
            StoreStep(run[i], run[i + 1], ApplyCommit(id, version))
    ensures Inv(run[i]) && Inv(run[i + 1])
    ensures var c, d := run[i], run[i + 1];
            var s := c.sessions[id];
            && Reads(SnapshotOf(s.load), Latest(c).tables)
            && (s.request.expectedVersion == 0 || s.request.expectedVersion == Latest(c).version)
            && IsDiff(SnapshotOf(s.load), s.request.flags, s.request.segments, s.changes)
            && d.history[..|c.history|] == c.history && |d.history| == |c.history| + 1
            && Latest(d).version > Latest(c).version
            && Latest(d).tables == ApplyChanges(Latest(c).tables, s.changes, s.request.flags, s.request.segments)
            && (DistinctFlagKeys(s.request.flags) && DistinctSegmentKeys(s.request.segments) ==>
                  Reconciled(Latest(d).tables, s.request.flags, s.request.segments))
  {
    RunsKeepInv(run, i);
    RunsKeepInv(run, i + 1);
    assert SessionOk(run[i], id);
    LockedPlanIsCurrent(run[i], id);
    ApplyCommitReconciles(run[i], id);
  }

  // ---- An apply and what others commit meanwhile ----

  /** The session may still commit. */
  predicate Alive(s: Session) {
    s.Planning? || s.Planned? || s.Locked?
  }

  /** Between `c` and `d` session `id` was not given another label, nor brought back to life. */
  ghost predicate KeepsLabel(c: Cluster, d: Cluster, id: nat)
    requires id in c.sessions
  {
    && id in d.sessions
    && (Alive(d.sessions[id]) ==>
          Alive(c.sessions[id]) && d.sessions[id].load.version == c.sessions[id].load.version)
  }

  lemma StoreStepKeepsLabel(c: Cluster, d: Cluster, step: StoreAction, id: nat)
    requires c.history != [] && StoreStep(c, d, step) && id in c.sessions
    ensures KeepsLabel(c, d, id)
  {
  }

  lemma StepKeepsLabel(c: Cluster, d: Cluster, step: Step, id: nat)
    requires c.history != [] && Next(c, d, step) && id in c.sessions
    ensures KeepsLabel(c, d, id)
  {
    match step {
      case OnStore(action) => StoreStepKeepsLabel(c, d, action, id);
      case OnBoot(action) => assert d.sessions == c.sessions;
      case OnReload(_, action) => assert d.sessions == c.sessions;
      case OnStream(_, _, action) => assert d.sessions == c.sessions;
    }
  }

  lemma StepExtendsHistory(c: Cluster, d: Cluster, step: Step)
    requires c.history != [] && Next(c, d, step)
    ensures c.history <= d.history
  {
    match step {
      case OnStore(action) => assert d.history == c.history || d.history[..|c.history|] == c.history;
      case OnBoot(action) => assert d.history == c.history;
      case OnReload(_, action) => assert d.history == c.history;
      case OnStream(_, _, action) => assert d.history == c.history;
    }
  }

  lemma RunStep(run: seq<Cluster>, i: nat) returns (step: Step)
    requires IsRun(run) && 0 < i < |run|
    ensures run[i - 1].history != [] && Next(run[i - 1], run[i], step)
  {
    assert Steps(run[i - 1], run[i]);
    step :| Next(run[i - 1], run[i], step);
  }

  lemma RunStepExtendsHistory(run: seq<Cluster>, i: nat)
    requires IsRun(run) && 0 < i < |run|
    ensures run[i - 1].history <= run[i].history
  {
    var step := RunStep(run, i);
    StepExtendsHistory(run[i - 1], run[i], step);
  }

  lemma RunStepKeepsLabel(run: seq<Cluster>, i: nat, id: nat)
    requires IsRun(run) && 0 < i < |run| && id in run[i - 1].sessions
    ensures KeepsLabel(run[i - 1], run[i], id)
  {
    var step := RunStep(run, i);
    StepKeepsLabel(run[i - 1], run[i], step, id);
  }

  ghost predicate HistoryGrows(run: seq<Cluster>) {
    forall k | 0 < k < |run| :: run[k - 1].history <= run[k].history
  }

  lemma RunGrowsHistory(run: seq<Cluster>)
    requires IsRun(run)
    ensures HistoryGrows(run)
  {
    forall k | 0 < k < |run|
      ensures run[k - 1].history <= run[k].history
    {
      RunStepExtendsHistory(run, k);
    }
  }

  lemma {:induction false} EarlierHistoryIsPrefix(run: seq<Cluster>, j: nat, i: nat)
    requires HistoryGrows(run) && j <= i < |run|
    ensures run[j].history <= run[i].history
    decreases i
  {
    if j < i {
      EarlierHistoryIsPrefix(run, j, i - 1);
    }
  }

  /**
   Every run's history begins with the empty tables at version 1, so the store never shows version
   0, the label of the empty snapshot a failed bootstrap serves.
   */
  lemma StoreStartsAtOne(run: seq<Cluster>, i: nat)
    requires IsRun(run) && i < |run|
    ensures HistoryOk(run[i].history) && run[i].history[0] == Commit(1, EMPTY)
    ensures Latest(run[i]).version >= 1 && EMPTY_LOAD.version == 0
  {
    RunsKeepInv(run, i);
    RunGrowsHistory(run);
    EarlierHistoryIsPrefix(run, 0, i);
  }

  ghost predicate LabelStays(run: seq<Cluster>, id: nat) {
    forall k | 0 < k < |run| && id in run[k - 1].sessions :: KeepsLabel(run[k - 1], run[k], id)
  }

  lemma RunKeepsLabel(run: seq<Cluster>, id: nat)
    requires IsRun(run)
    ensures LabelStays(run, id)
  {
    forall k | 0 < k < |run| && id in run[k - 1].sessions
      ensures KeepsLabel(run[k - 1], run[k], id)
    {
      RunStepKeepsLabel(run, k, id);
    }
  }

  /** A session keeps the version it read first for as long as it may still commit. */
  lemma {:induction false} LabelFromTheStart(run: seq<Cluster>, j: nat, i: nat, id: nat)
    requires LabelStays(run, id) && j <= i < |run| && id in run[j].sessions
    ensures KeepsLabel(run[j], run[i], id)
    decreases i
  {
    if j < i {
      LabelFromTheStart(run, j, i - 1, id);
      assert KeepsLabel(run[i - 1], run[i], id);
    }
  }

  /**
   An apply commits only if nobody else did since it read the version: between the step that reads
   the version and the step that commits, the history of the store has not grown. So an apply whose
   store moved while it was loading, planning or waiting for the lock never writes.
   */
  lemma ApplyCommitsOnlyUndisturbed(
    run: seq<Cluster>, j: nat, i: nat, id: nat, request: Request, version: int)
    requires IsRun(run) && j < i && i + 1 < |run| && run[j].history != [] && run[i].history != []
    requires StoreStep(run[j], run[j + 1], ApplyBegin(id, request))
    requires StoreStep(run[i], run[i + 1], ApplyCommit(id, version))
    ensures run[i].history == run[j].history
  {
    RunsKeepInv(run, i);
    RunKeepsLabel(run, id);
    LabelFromTheStart(run, j + 1, i, id);
    RunGrowsHistory(run);
    EarlierHistoryIsPrefix(run, j, i);
    assert SessionOk(run[i], id);
    SameVersionSameHistory(run[j].history, run[i].history);
  }

  lemma SameVersionSameHistory(a: seq<Commit>, b: seq<Commit>)
    requires HistoryOk(b) && a != [] && a <= b && a[|a| - 1].version == b[|b| - 1].version
    ensures a == b
  {
    assert b[|a| - 1] == a[|a| - 1];
  }

  /**
   The version label is a lower bound on every row behind it, so a snapshot whose label is still
   the store's version is the store's state: whether it was loaded, served or taken from the cache.
   */
  lemma LabelledLatestIsTheStore(c: Cluster, l: Load)
    requires Inv(c) && LoadOk(c.history, l) && Complete(l) && l.version == Latest(c).version
    ensures Reads(SnapshotOf(l), Latest(c).tables)
  {
    LatestLabelIsLatestState(c.history, l);
    ReadIgnoresNextId(Latest(c).tables, SnapshotOf(l));
  }

  lemma ServedAndCachedLabelsAreLowerBounds(run: seq<Cluster>, i: nat, id: nat, k: nat)
    requires IsRun(run) && i < |run| && id in run[i].replicas && k < READS
    ensures var c := run[i]; Inv(c) && ReadOk(c.history, c.replicas[id].current, k)
    ensures var c := run[i]; c.cache.Some? ==> Complete(c.cache.value) && ReadOk(c.history, c.cache.value, k)
    ensures var c := run[i];
            c.replicas[id].current.version == Latest(c).version ==>
                Reads(SnapshotOf(c.replicas[id].current), Latest(c).tables)
  {
    RunsKeepInv(run, i);
    var c := run[i];
    assert ReplicaOk(c.history, c.replicas[id]);
    if c.replicas[id].current.version == Latest(c).version {
      LabelledLatestIsTheStore(c, c.replicas[id].current);
    }
  }

  /** A replica serving the latest version answers every evaluation as the configuration applied there declares. */
  lemma ReplicaEvaluatesAsDeclared(
    run: seq<Cluster>, i: nat, id: nat, flags: seq<Flag>, segments: seq<Segment>, version: int, prim: Primitives,
    key: string, ctx: EvalContext)
    requires IsRun(run) && i < |run| && id in run[i].replicas && run[i].history != []
    requires run[i].replicas[id].current.version == Latest(run[i]).version
    requires Reconciled(Latest(run[i]).tables, flags, segments) && forall d | d in flags ::
            VariantKeysDistinct(d.variants)
    ensures Evaluate(Engine(SnapshotOf(run[i].replicas[id].current), prim), key, ctx, [])
         == Evaluate(Engine(Declared(version, flags, segments), prim), key, ctx, [])
  {
    ServedAndCachedLabelsAreLowerBounds(run, i, id, 0);
    ReconciledEvaluatesAsDeclared(Latest(run[i]).tables, SnapshotOf(run[i].replicas[id].current), version, flags,
        segments,
                                  prim, key, ctx, []);
  }

  /**
   What a replica publishes strictly increases, and a completed reload leaves it at or past the version it began
   from.
   */
  lemma ReloadsAdvance(run: seq<Cluster>, i: nat, id: nat)
    requires IsRun(run) && i < |run| && id in run[i].replicas
    ensures Increasing(run[i].replicas[id].published)
    ensures run[i].replicas[id].freshAsOf <= run[i].replicas[id].current.version
  {
    RunsKeepInv(run, i);
    assert ReplicaOk(run[i].history, run[i].replicas[id]);
  }

  /**
   Read-your-writes: a reload that began at store version `w` has, on completing, left its replica at `w` or
   later.
   */
  lemma CompletedReloadIsFresh(c: Cluster, d: Cluster, step: ReloadAction, id: nat)
    requires Inv(c) && id in c.replicas && ReloadStep(c, d, step, id) && (step.ReloadSkip? || step.ReloadSend?)
    ensures id in d.replicas && d.replicas[id].job.Idle?
    ensures d.replicas[id].current.version >= d.replicas[id].freshAsOf >= c.replicas[id].job.begun
  {
    ReloadStepKeepsInv(c, d, step, id);
    assert ReplicaOk(d.history, d.replicas[id]);
  }

  /** Replica `id` is there in `d`, no further back than in `c`. */
  ghost predicate ReplicaNotOlder(c: Cluster, d: Cluster, id: nat)
    requires id in c.replicas
  {
    && id in d.replicas && d.replicas[id].current.version >= c.replicas[id].current.version
    && c.replicas[id].published <= d.replicas[id].published
  }

  /** `d` is no further back than `c`, at the store and at replica `id`. */
  ghost predicate NotOlder(c: Cluster, d: Cluster, id: nat)
    requires c.history != [] && id in c.replicas
  {
    d.history != [] && Latest(d).version >= Latest(c).version && ReplicaNotOlder(c, d, id)
  }

  lemma SetReplicaNotOlder(c: Cluster, at: nat, q: Replica, id: nat)
    requires id in c.replicas && at in c.replicas
    requires q.current.version >= c.replicas[at].current.version && c.replicas[at].published <= q.published
    ensures ReplicaNotOlder(c, SetReplica(c, at, q), id)
  {
  }

  lemma ReloadNeverGoesBack(c: Cluster, d: Cluster, step: ReloadAction, at: nat, id: nat)
    requires c.history != [] && at in c.replicas && JobOk(c.history, c.replicas[at])
    requires ReloadStep(c, d, step, at) && id in c.replicas
    ensures ReplicaNotOlder(c, d, id)
  {
    if !step.ReloadPut? {
      SetReplicaNotOlder(c, at, d.replicas[at], id);
    }
  }

  lemma StreamNeverGoesBack(c: Cluster, d: Cluster, step: StreamAction, at: nat, client: nat, id: nat)
    requires at in c.replicas && StreamStep(c, d, step, at, client) && id in c.replicas
    ensures ReplicaNotOlder(c, d, id)
  {
    SetReplicaNotOlder(c, at, d.replicas[at], id);
  }

  lemma BootKeepsReplica(c: Cluster, d: Cluster, step: BootAction, id: nat)
    requires c.history != [] && BootStep(c, d, step) && id in c.replicas
    ensures id in d.replicas && d.replicas[id] == c.replicas[id]
  {
    match step {
      case CacheExpire =>
      case BootCheck(_) =>
      case BootHit(_) =>
      case BootMiss(_) =>
      case BootRead(_) =>
      case BootPut(_) =>
      case BootServe(_) =>
      case BootFail(_) =>
    }
  }

  lemma LongerHistoryIsLater(a: seq<Commit>, b: seq<Commit>)
    requires HistoryOk(b) && a != [] && a <= b
    ensures b[|b| - 1].version >= a[|a| - 1].version
  {
    assert b[|a| - 1] == a[|a| - 1];
  }

  lemma StoreKeepsReplicas(c: Cluster, d: Cluster, step: StoreAction)
    requires c.history != [] && StoreStep(c, d, step)
    ensures d.replicas == c.replicas
  {
  }

  lemma ReplicaNeverGoesBack(c: Cluster, d: Cluster, step: Step, id: nat)
    requires c.history != [] && forall at | at in c.replicas :: JobOk(c.history, c.replicas[at])
    requires Next(c, d, step) && id in c.replicas
    ensures ReplicaNotOlder(c, d, id)
  {
    match step {
      case OnStore(action) => StoreKeepsReplicas(c, d, action);
      case OnBoot(action) => BootKeepsReplica(c, d, action, id);
      case OnReload(at, action) => ReloadNeverGoesBack(c, d, action, at, id);
      case OnStream(at, client, action) => StreamNeverGoesBack(c, d, action, at, client, id);
    }
  }

  lemma StepKeepsHistoryOk(c: Cluster, d: Cluster, step: Step)
    requires Inv(c) && Next(c, d, step)
    ensures HistoryOk(d.history)
  {
    StepKeepsInv(c, d, step);
  }

  /** No step ever takes a replica, or the store, back to an older version. */
  lemma VersionsNeverGoBack(c: Cluster, d: Cluster, step: Step, id: nat)
    requires Inv(c) && Next(c, d, step) && id in c.replicas
    ensures NotOlder(c, d, id)
  {
    StepKeepsHistoryOk(c, d, step);
    StepExtendsHistory(c, d, step);
    LongerHistoryIsLater(c.history, d.history);
    ReplicaNeverGoesBack(c, d, step, id);
  }

  /** Client `client` of replica `id` is still there, and what it was sent stays sent. */
  ghost predicate StaysSent(c: Cluster, d: Cluster, id: nat, client: nat)
    requires id in c.replicas && client in c.replicas[id].receivers
  {
    && id in d.replicas && client in d.replicas[id].receivers
    && var (v, w) := (c.replicas[id].receivers[client], d.replicas[id].receivers[client]);
    && w.kind == v.kind && w.from == v.from && v.pos <= w.pos && v.got <= w.got
  }

  lemma StreamKeepsSent(
    c: Cluster, d: Cluster, step: StreamAction, at: nat, reader: nat, id: nat, client: nat)
    requires at in c.replicas && StreamStep(c, d, step, at, reader)
    requires id in c.replicas && client in c.replicas[id].receivers
    ensures StaysSent(c, d, id, client)
  {
  }

  lemma ReloadKeepsSent(c: Cluster, d: Cluster, step: ReloadAction, at: nat, id: nat, client: nat)
    requires c.history != [] && at in c.replicas && ReloadStep(c, d, step, at)
    requires id in c.replicas && client in c.replicas[id].receivers
    ensures StaysSent(c, d, id, client)
  {
  }

  /** No step takes back a message, or a client's place in the queue. */
  lemma SentStaysSent(c: Cluster, d: Cluster, step: Step, id: nat, client: nat)
    requires c.history != [] && Next(c, d, step) && id in c.replicas && client in c.replicas[id].receivers
    ensures StaysSent(c, d, id, client)
  {
    match step {
      case OnStore(action) => StoreKeepsReplicas(c, d, action);
      case OnBoot(action) => BootKeepsReplica(c, d, action, id);
      case OnReload(at, action) => ReloadKeepsSent(c, d, action, at, id, client);
      case OnStream(at, reader, action) => StreamKeepsSent(c, d, action, at, reader, id, client);
    }
  }

  /** An event client more than 64 updates behind is told so once, and goes on with the last 64; others miss none. */
  lemma LagIsAnnounced(c: Cluster, d: Cluster, id: nat, client: nat)
    requires id in c.replicas && StreamStep(c, d, Receive, id, client)
    requires c.replicas[id].receivers[client].kind == EventStream
    ensures id in d.replicas && client in d.replicas[id].receivers
    ensures var r := c.replicas[id];
            var (v, w) := (r.receivers[client], d.replicas[id].receivers[client]);
            if |r.published| - v.pos > 64 then
              w.got == v.got + [Resync(r.current.version)] && |r.published| - w.pos == 64
            else
              w.got == v.got + [Changed(r.published[v.pos])] && w.pos == v.pos + 1
  {
  }

  /** The client has read its head, its queue is empty, and no update is about to be sent. */
  ghost predicate Settled(r: Replica, v: Receiver) {
    v.got != [] && v.pos == |r.published| && !r.job.Swapped?
  }

  /**
   No missed update: the versions a snapshot client is sent never decrease, and once it has read
   its head, drained its queue and no reload sits between swap and send, the last message it was
   sent is the snapshot its replica serves. Lagging behind the bounded queue does not change that.
   */
  lemma DrainedClientIsUpToDate(run: seq<Cluster>, i: nat, id: nat, client: nat)
    requires IsRun(run) && i < |run| && id in run[i].replicas && client in run[i].replicas[id].receivers
    requires run[i].replicas[id].receivers[client].kind == SnapshotStream
    ensures var r := run[i].replicas[id];
            var v := r.receivers[client];
            && VersionsNeverDecrease(v.got)
            && (Settled(r, v) ==> v.got[|v.got| - 1] == Whole(r.current))
  {
    RunsKeepInv(run, i);
    var r := run[i].replicas[id];
    assert ReplicaOk(run[i].history, r);
    var v := r.receivers[client];
    assert ReceiverOk(r, v);
    if Settled(r, v) {
      SettledClientHoldsCurrent(r, v);
    }
  }

  lemma SettledClientHoldsCurrent(r: Replica, v: Receiver)
    requires ReceiverOk(r, v) && Settled(r, v) && v.kind == SnapshotStream
    ensures v.got[|v.got| - 1] == Whole(r.current)
  {
    var last := v.got[|v.got| - 1];
    var j :| 0 <= j < |v.got| && v.got[j].Version() == r.current.version;
    assert v.got[j].Version() <= last.Version();
    assert last in v.got;
  }

  /** The update announces one of the swaps the replica made. */
  ghost predicate AnnouncesASwap(r: Replica, u: ConfigUpdate) {
    exists n :: 0 < n < |r.served| && Announces(r.served[n - 1], r.served[n], u)
  }

  /**
   The changes an event client is told of strictly increase, lag or no lag, and each names the
   version of a swap its replica made and exactly the flags that swap touched; a settled client has
   been told the version that is served.
   */
  lemma DrainedEventClientWasTold(run: seq<Cluster>, i: nat, id: nat, client: nat)
    requires IsRun(run) && i < |run| && id in run[i].replicas && client in run[i].replicas[id].receivers
    requires run[i].replicas[id].receivers[client].kind == EventStream
    ensures var r := run[i].replicas[id];
            var v := r.receivers[client];
            && ChangesIncrease(v.got)
            && (forall m | m in v.got && m.Changed? :: AnnouncesASwap(r, m.update))
            && (Settled(r, v) ==> exists m :: m in v.got && m.Version() == r.current.version)
  {
    RunsKeepInv(run, i);
    var r := run[i].replicas[id];
    assert ReplicaOk(run[i].history, r);
    var v := r.receivers[client];
    assert ReceiverOk(r, v);
    forall m | m in v.got && m.Changed?
      ensures AnnouncesASwap(r, m.update)
    {
      PublishedAnnounces(r, m.update);
    }
    if Settled(r, v) {
      SettledClientWasTold(r, v);
    }
  }

  lemma PublishedAnnounces(r: Replica, u: ConfigUpdate)
    requires ServedOk(r) && u in r.published
    ensures AnnouncesASwap(r, u)
  {
    var n :| 0 <= n < |r.published| && r.published[n] == u;
    assert Announces(r.served[n + 1 - 1], r.served[n + 1], r.published[n]);
  }

  lemma SettledClientWasTold(r: Replica, v: Receiver)
    requires InTouch(r, v) && Settled(r, v)
    ensures exists m :: m in v.got && m.Version() == r.current.version
  {
    var j :| 0 <= j < |v.got| && v.got[j].Version() == r.current.version;
    assert v.got[j] in v.got;
  }
}
