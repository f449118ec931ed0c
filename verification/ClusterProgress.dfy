/**
 No dead ends: whatever has happened, a declared configuration can still be applied, every replica
 can still catch up with the store, and every connected client can still be brought up to date.
 Together with safety this fixes the steps from both sides: none allows too much, none too little.
 */
module ClusterProgress {
  import opened Basics
  import opened FlagModel
  import opened FlagTables
  import opened FlagWrites
  import opened ConfigDiff
  import opened ConfigApply
  import opened ChangeSet
  import opened FlagCluster
  import opened ClusterSafety

  // ---- Paths ----

  ghost predicate IsPath(path: seq<Cluster>, c: Cluster, d: Cluster) {
    && path != [] && path[0] == c && path[|path| - 1] == d
    && forall i, j | 0 <= i && j == i + 1 < |path| :: Steps(path[i], path[j])
  }

  /** Some steps take `c` to `d`. */
  ghost predicate Leads(c: Cluster, d: Cluster) {
    exists path :: IsPath(path, c, d)
  }

  lemma Stays(c: Cluster)
    ensures Leads(c, c)
  {
    assert IsPath([c], c, c);
  }

  lemma TakesAStep(c: Cluster, d: Cluster, step: Step)
    requires c.history != [] && Next(c, d, step)
    ensures Leads(c, d)
  {
    assert Steps(c, d);
    assert IsPath([c, d], c, d);
  }

  lemma LeadsOn(c: Cluster, d: Cluster, e: Cluster)
    requires Leads(c, d) && Leads(d, e)
    ensures Leads(c, e)
  {
    var p :| IsPath(p, c, d);
    var q :| IsPath(q, d, e);
    var path := p + q[1..];
    forall i, j | 0 <= i && j == i + 1 < |path|
      ensures Steps(path[i], path[j])
    {
      if j < |p| {
        assert Steps(p[i], p[j]);
      } else {
        assert path[i] == q[i - (|p| - 1)] && path[j] == q[j - (|p| - 1)];
        assert Steps(q[i - (|p| - 1)], q[j - (|p| - 1)]);
      }
    }
    assert IsPath(path, c, e);
  }

  lemma StepsKeepInv(c: Cluster, d: Cluster)
    requires Inv(c) && Steps(c, d)
    ensures Inv(d)
  {
    var step :| Next(c, d, step);
    StepKeepsInv(c, d, step);
  }

  lemma {:induction false} PathKeepsInv(path: seq<Cluster>, c: Cluster, d: Cluster)
    requires Inv(c) && IsPath(path, c, d)
    ensures Inv(d)
    decreases |path|
  {
    if |path| > 1 {
      assert Steps(path[0], path[1]);
      StepsKeepInv(path[0], path[1]);
      PathKeepsInv(path[1..], path[1], d);
    }
  }

  lemma LeadsKeepsInv(c: Cluster, d: Cluster)
    requires Inv(c) && Leads(c, d)
    ensures Inv(d)
  {
    var path :| IsPath(path, c, d);
    PathKeepsInv(path, c, d);
  }

  // ---- Reports and diffs exist ----

  lemma {:induction false} SetHasList<T>(s: set<T>) returns (list: seq<T>)
    ensures forall x :: x in list <==> x in s
  {
    if s == {} {
      list := [];
    } else {
      var x :| x in s;
      var rest := SetHasList(s - {x});
      list := [x] + rest;
    }
  }

  lemma {:induction false} KeysHaveOrder(keys: set<string>) returns (list: seq<string>)
    ensures KeysAscend(list) && forall k :: k in list <==> k in keys
  {
    if keys == {} {
      list := [];
    } else {
      var k :| k in keys;
      var rest := KeysHaveOrder(keys - {k});
      InsertKeyFacts(rest, k);
      list := InsertKey(rest, k);
    }
  }

  lemma ReportExists(before: Snapshot, after: Snapshot) returns (keys: seq<string>)
    ensures ReportOf(before, after, keys)
  {
    var named := set k | k in after.flags :: after.flags[k].key;
    var reported := set k | k in before.flags.Keys + after.flags.Keys + named && Reported(before, after, k);
    keys := KeysHaveOrder(reported);
    forall k | Reported(before, after, k)
      ensures k in reported
    {
    }
  }

  lemma DiffExists(current: Snapshot, flags: seq<Flag>, segments: seq<Segment>) returns (changes: seq<ConfigChange>)
    ensures IsDiff(current, flags, segments, changes)
  {
    var prunedSegments := SetHasList(
      set k | k in current.segments && !DeclaresSegment(segments, k) ::
          ConfigChange(SegmentTarget, k, Delete, NoDetail));
    var prunedFlags := SetHasList(
      set k | k in current.flags && !Declares(flags, k) ::
          ConfigChange(FlagTarget, k, Delete, NoDetail));
    changes := SegmentChanges(current, segments) + prunedSegments + FlagChanges(current, flags) + prunedFlags;
    forall c
      ensures c in changes <==> Wanted(current, flags, segments, c)
    {
      SegmentChangesHold(current, segments, c);
      FlagChangesHold(current, flags, c);
    }
  }

  lemma FreshId(used: set<nat>) returns (id: nat)
    ensures id !in used && forall x | x in used :: x < id
  {
    if used == {} {
      id := 0;
    } else {
      var x :| x in used;
      var rest := FreshId(used - {x});
      id := if x < rest then rest else x + 1;
      assert forall y | y in used :: y == x || y in used - {x};
    }
  }

  // ---- Replicas can catch up ----

  /** Replica `id` can become `q` while everything else stays as it is. */
  ghost predicate CanBecome(c: Cluster, id: nat, q: Replica) {
    Leads(c, SetReplica(c, id, q))
  }

  lemma StaysItself(c: Cluster, id: nat)
    requires id in c.replicas
    ensures CanBecome(c, id, c.replicas[id])
  {
    assert SetReplica(c, id, c.replicas[id]) == c;
    Stays(c);
  }

  lemma Moves(c: Cluster, id: nat, q: Replica, p: Replica, step: Step)
    requires c.history != [] && CanBecome(c, id, q)
    requires Next(SetReplica(c, id, q), SetReplica(c, id, p), step)
    ensures CanBecome(c, id, p)
  {
    TakesAStep(SetReplica(c, id, q), SetReplica(c, id, p), step);
    LeadsOn(c, SetReplica(c, id, q), SetReplica(c, id, p));
  }

  lemma SetTwice(c: Cluster, id: nat, q: Replica, p: Replica)
    ensures SetReplica(SetReplica(c, id, q), id, p) == SetReplica(c, id, p)
    ensures SetReplica(c, id, q).replicas[id] == q && SetReplica(c, id, q).history == c.history
  {
    assert c.replicas[id := q][id := p] == c.replicas[id := p];
  }

  lemma Reloads(c: Cluster, id: nat, q: Replica, p: Replica, step: ReloadAction)
    requires c.history != [] && CanBecome(c, id, q)
    requires ReloadStep(SetReplica(c, id, q), SetReplica(SetReplica(c, id, q), id, p), step, id)
    ensures CanBecome(c, id, p)
  {
    SetTwice(c, id, q, p);
    Moves(c, id, q, p, OnReload(id, step));
  }

  /** Whatever a replica is busy with, it can be done with it, and serve what it served. */
  lemma JobCanEnd(c: Cluster, id: nat, q: Replica) returns (p: Replica)
    requires c.history != [] && CanBecome(c, id, q)
    ensures CanBecome(c, id, p) && p.job.Idle? && p.current == q.current && p.receivers == q.receivers
  {
    if q.job.Idle? {
      p := q;
    } else if q.job.Swapped? {
      p := Send(q);
      Reloads(c, id, q, p, ReloadSend);
    } else {
      p := q.(job := Idle);
      Reloads(c, id, q, p, ReloadFail);
    }
  }

  /** A load that has begun can be completed. */
  lemma {:induction false} LoadCanComplete(c: Cluster, id: nat, q: Replica) returns (load: Load)
    requires c.history != [] && CanBecome(c, id, q) && q.job.Loading? && |q.job.load.origin| <= READS
    ensures load.version == q.job.load.version && Complete(load)
    ensures CanBecome(c, id, q.(job := Loading(q.job.begun, load)))
    decreases READS - |q.job.load.origin|
  {
    if Complete(q.job.load) {
      load := q.job.load;
      assert q == q.(job := Loading(q.job.begun, load));
    } else {
      var p := q.(job := Loading(q.job.begun, ReadNext(c, q.job.load)));
      SetTwice(c, id, q, p);
      Reloads(c, id, q, p, ReloadRead);
      load := LoadCanComplete(c, id, p);
    }
  }

  /** An idle replica can load what the store holds. */
  lemma ReloadCanLoad(c: Cluster, id: nat, q: Replica) returns (load: Load)
    requires c.history != [] && CanBecome(c, id, q) && q.job.Idle?
    ensures load.version == Latest(c).version && Complete(load)
    ensures CanBecome(c, id, q.(job := Loading(Latest(c).version, load)))
  {
    var begun := q.(job := Begun(Latest(c).version));
    SetTwice(c, id, q, begun);
    Reloads(c, id, q, begun, ReloadBegin);
    var labelled := q.(job := Loading(Latest(c).version, NewLoad(c)));
    SetTwice(c, id, begun, labelled);
    Reloads(c, id, begun, labelled, ReloadLabel);
    load := LoadCanComplete(c, id, labelled);
  }

  /** A newer load can be accepted, swapped in and sent. */
  lemma NewerLoadCanBeServed(c: Cluster, id: nat, q: Replica) returns (p: Replica)
    requires c.history != [] && CanBecome(c, id, q) && q.job.Loading? && Complete(q.job.load)
    requires q.job.load.version > q.current.version
    ensures CanBecome(c, id, p) && p.job.Idle? && p.current == q.job.load && p.receivers == q.receivers
  {
    var accepted := q.(job := Publishing(q.job.begun, q.job.load));
    SetTwice(c, id, q, accepted);
    Reloads(c, id, q, accepted, ReloadAccept);
    var changed := ReportExists(SnapshotOf(q.current), SnapshotOf(q.job.load));
    var swapped := Swap(accepted, changed);
    SetTwice(c, id, accepted, swapped);
    Reloads(c, id, accepted, swapped, ReloadSwap(changed));
    p := JobCanEnd(c, id, swapped);
  }

  lemma IdleReplicaCanCatchUp(c: Cluster, id: nat, q: Replica) returns (p: Replica)
    requires c.history != [] && CanBecome(c, id, q) && q.job.Idle? && q.current.version <= Latest(c).version
    ensures CanBecome(c, id, p) && p.job.Idle? && p.receivers == q.receivers
    ensures p.current.version == Latest(c).version
  {
    var load := ReloadCanLoad(c, id, q);
    var loaded := q.(job := Loading(Latest(c).version, load));
    if q.current.version == Latest(c).version {
      p := q.(freshAsOf := Later(Latest(c).version, q.freshAsOf));
      SetTwice(c, id, loaded, p);
      Reloads(c, id, loaded, p, ReloadSkip);
    } else {
      p := NewerLoadCanBeServed(c, id, loaded);
    }
  }

  /** From every reachable state a replica can reload up to the store's version, with nothing left to send. */
  lemma ReplicaCanCatchUp(c: Cluster, id: nat) returns (p: Replica)
    requires Inv(c) && id in c.replicas
    ensures CanBecome(c, id, p) && p.job.Idle? && p.receivers == c.replicas[id].receivers
    ensures p.current.version == Latest(c).version
  {
    assert ReplicaOk(c.history, c.replicas[id]);
    StaysItself(c, id);
    var q := JobCanEnd(c, id, c.replicas[id]);
    p := IdleReplicaCanCatchUp(c, id, q);
  }

  // ---- Clients can be brought up to date ----

  function WithReceiver(q: Replica, client: nat, v: Receiver): Replica {
    q.(receivers := q.receivers[client := v])
  }

  lemma Streams(c: Cluster, id: nat, q: Replica, p: Replica, client: nat, step: StreamAction)
    requires c.history != [] && CanBecome(c, id, q)
    requires StreamStep(SetReplica(c, id, q), SetReplica(SetReplica(c, id, q), id, p), step, id, client)
    ensures CanBecome(c, id, p)
  {
    SetTwice(c, id, q, p);
    Moves(c, id, q, p, OnStream(id, client, step));
  }

  lemma HeadCanBeSent(c: Cluster, id: nat, q: Replica, client: nat) returns (v: Receiver)
    requires c.history != [] && CanBecome(c, id, q) && client in q.receivers && q.served != []
    ensures CanBecome(c, id, WithReceiver(q, client, v)) && v.got != []
    ensures v.kind == q.receivers[client].kind && v.pos == q.receivers[client].pos
  {
    v := q.receivers[client];
    if v.got != [] {
      assert WithReceiver(q, client, v) == q;
    } else {
      v := WithHead(q, v);
      Streams(c, id, q, WithReceiver(q, client, v), client, SendHead);
    }
  }

  lemma {:induction false} QueueCanDrain(c: Cluster, id: nat, q: Replica, client: nat) returns (v: Receiver)
    requires c.history != [] && CanBecome(c, id, q) && client in q.receivers
    requires q.receivers[client].got != [] && q.receivers[client].pos <= |q.published|
    ensures CanBecome(c, id, WithReceiver(q, client, v)) && v.got != [] && v.pos == |q.published|
    ensures v.kind == q.receivers[client].kind
    decreases |q.published| - q.receivers[client].pos
  {
    v := q.receivers[client];
    if v.pos == |q.published| {
      assert WithReceiver(q, client, v) == q;
    } else {
      var p := WithReceiver(q, client, Pop(q, v));
      Streams(c, id, q, p, client, Receive);
      v := QueueCanDrain(c, id, p, client);
      assert WithReceiver(p, client, v) == WithReceiver(q, client, v);
    }
  }

  lemma ReceiverCanSettle(c: Cluster, id: nat, q: Replica, client: nat) returns (v: Receiver)
    requires c.history != [] && CanBecome(c, id, q) && client in q.receivers && q.job.Idle? && q.served != []
    requires q.receivers[client].pos <= |q.published|
    ensures CanBecome(c, id, WithReceiver(q, client, v)) && Settled(WithReceiver(q, client, v), v)
    ensures v.kind == q.receivers[client].kind
  {
    var headed := HeadCanBeSent(c, id, q, client);
    v := QueueCanDrain(c, id, WithReceiver(q, client, headed), client);
    assert WithReceiver(WithReceiver(q, client, headed), client, v) == WithReceiver(q, client, v);
  }

  /** A client of an idle replica can be sent all there is. */
  lemma ClientCanSettle(c: Cluster, id: nat, client: nat) returns (v: Receiver)
    requires Inv(c) && id in c.replicas && client in c.replicas[id].receivers && c.replicas[id].job.Idle?
    ensures CanBecome(c, id, WithReceiver(c.replicas[id], client, v))
    ensures Settled(WithReceiver(c.replicas[id], client, v), v) && v.kind == c.replicas[id].receivers[client].kind
  {
    assert ReplicaOk(c.history, c.replicas[id]);
    assert ReceiverOk(c.replicas[id], c.replicas[id].receivers[client]);
    StaysItself(c, id);
    v := ReceiverCanSettle(c, id, c.replicas[id], client);
  }

  // ---- Configurations can be applied ----

  /** Only the store and the sessions on it have moved. */
  ghost predicate OnlyStoreMoved(c: Cluster, d: Cluster) {
    d.replicas == c.replicas && d.boots == c.boots && d.cache == c.cache
  }

  lemma LockCanBeFreed(c: Cluster) returns (d: Cluster)
    requires Inv(c)
    ensures Leads(c, d) && OnlyStoreMoved(c, d) && Unlocked(d) && d.history == c.history
  {
    if c.lockedBy.None? {
      d := c;
      Stays(c);
    } else {
      var id := c.lockedBy.value;
      d := SetSession(c, id, Aborted).(lockedBy := None);
      assert StoreStep(c, d, ApplyRollback(id));
      TakesAStep(c, d, OnStore(ApplyRollback(id)));
    }
  }

  lemma {:induction false} SessionCanLoad(c: Cluster, id: nat) returns (d: Cluster)
    requires c.history != [] && id in c.sessions && c.sessions[id].Planning? && |c.sessions[id].load.origin| <= READS
    ensures Leads(c, d) && id in d.sessions && d == SetSession(c, id, d.sessions[id])
    ensures d.sessions[id].Planning? && Complete(d.sessions[id].load)
    ensures d.sessions[id].request == c.sessions[id].request
    ensures d.sessions[id].load.version == c.sessions[id].load.version
    decreases READS - |c.sessions[id].load.origin|
  {
    var s := c.sessions[id];
    if Complete(s.load) {
      d := c;
      Stays(c);
      assert c.sessions == c.sessions[id := s];
    } else {
      var e := SetSession(c, id, Planning(s.request, ReadNext(c, s.load)));
      assert StoreStep(c, e, ApplyRead(id));
      TakesAStep(c, e, OnStore(ApplyRead(id)));
      d := SessionCanLoad(e, id);
      LeadsOn(c, e, d);
    }
  }

  lemma SessionCanPlan(c: Cluster, id: nat, request: Request) returns (d: Cluster)
    requires c.history != [] && id !in c.sessions
    ensures Leads(c, d) && id in d.sessions && d == SetSession(c, id, d.sessions[id])
    ensures d.sessions[id].Planning? && Complete(d.sessions[id].load) && d.sessions[id].request == request
    ensures d.sessions[id].load.version == Latest(c).version
  {
    var e := SetSession(c, id, Planning(request, NewLoad(c)));
    assert StoreStep(c, e, ApplyBegin(id, request));
    TakesAStep(c, e, OnStore(ApplyBegin(id, request)));
    d := SessionCanLoad(e, id);
    LeadsOn(c, e, d);
  }

  ghost predicate Storable(flags: seq<Flag>) {
    forall f | f in flags :: WeightsStorable(f.rules)
  }

  lemma StorableWrites(changes: seq<ConfigChange>, flags: seq<Flag>)
    requires Storable(flags)
    ensures WritesStorable(changes, flags)
  {
    forall c | c in changes && c.kind == FlagTarget && c.op != Delete && FindFlag(flags, c.key).Some?
      ensures WeightsStorable(FindFlag(flags, c.key).value.rules)
    {
      FindFlagFinds(flags, c.key);
    }
  }

  lemma LockCanCommit(c: Cluster, id: nat) returns (d: Cluster)
    requires c.history != [] && id in c.sessions && c.sessions[id].Locked? && Storable(c.sessions[id].request.flags)
    ensures Leads(c, d) && OnlyStoreMoved(c, d) && d.history != []
    ensures var s := c.sessions[id];
            Latest(d).tables == ApplyChanges(Latest(c).tables, s.changes, s.request.flags, s.request.segments)
  {
    var s := c.sessions[id];
    StorableWrites(s.changes, s.request.flags);
    var version := Latest(c).version + 1;
    var commit := Commit(version, ApplyChanges(Latest(c).tables, s.changes, s.request.flags, s.request.segments));
    d := SetSession(c, id, Finished).(lockedBy := None, history := c.history + [commit]);
    assert StoreStep(c, d, ApplyCommit(id, version));
    TakesAStep(c, d, OnStore(ApplyCommit(id, version)));
  }

  /** A plan that still holds can be locked and committed. */
  lemma PlanCanCommit(c: Cluster, id: nat) returns (d: Cluster)
    requires c.history != [] && Unlocked(c) && id in c.sessions && c.sessions[id].Planned?
    requires c.sessions[id].load.version == Latest(c).version && Expected(c, c.sessions[id].request)
    requires Storable(c.sessions[id].request.flags)
    ensures Leads(c, d) && OnlyStoreMoved(c, d) && d.history != []
    ensures var s := c.sessions[id];
            Latest(d).tables == ApplyChanges(Latest(c).tables, s.changes, s.request.flags, s.request.segments)
  {
    var s := c.sessions[id];
    var locked := SetSession(c, id, Locked(s.request, s.load, s.changes)).(lockedBy := Some(id));
    assert StoreStep(c, locked, ApplyLock(id));
    TakesAStep(c, locked, OnStore(ApplyLock(id)));
    d := LockCanCommit(locked, id);
    LeadsOn(c, locked, d);
  }

  /** What a session has loaded without disturbance reads as the store. */
  lemma LoadedIsTheStore(c: Cluster, id: nat)
    requires Inv(c) && id in c.sessions && c.sessions[id].Planning? && Complete(c.sessions[id].load)
    requires c.sessions[id].load.version == Latest(c).version
    ensures Reads(SnapshotOf(c.sessions[id].load), Latest(c).tables)
  {
    assert SessionOk(c, id);
    LabelledLatestIsTheStore(c, c.sessions[id].load);
  }

  /**
   From every reachable state a declared configuration can be applied, by a request that expects
   the store's version or none: the store then holds what is declared.
   */
  lemma ConfigCanBeApplied(c: Cluster, request: Request) returns (d: Cluster)
    requires Inv(c) && Expected(c, request) && Storable(request.flags)
    requires DistinctFlagKeys(request.flags) && DistinctSegmentKeys(request.segments)
    ensures Leads(c, d) && OnlyStoreMoved(c, d)
    ensures d.history != [] && Reconciled(Latest(d).tables, request.flags, request.segments)
  {
    var free := LockCanBeFreed(c);
    var id := FreshId(free.sessions.Keys);
    var loaded := SessionCanPlan(free, id, request);
    LeadsOn(c, free, loaded);
    LeadsKeepsInv(c, loaded);
    LoadedIsTheStore(loaded, id);
    var t := Latest(loaded).tables;
    var current := SnapshotOf(loaded.sessions[id].load);
    var changes := DiffExists(current, request.flags, request.segments);
    StorableWrites(changes, request.flags);
    ApplyConverges(t, current, request.flags, request.segments, changes);
    d := DiffCanBeApplied(loaded, id, changes);
    LeadsOn(c, loaded, d);
  }

  lemma DiffCanBeApplied(c: Cluster, id: nat, changes: seq<ConfigChange>) returns (d: Cluster)
    requires c.history != [] && Unlocked(c) && id in c.sessions
    requires c.sessions[id].Planning? && Complete(c.sessions[id].load)
    requires Expected(c, c.sessions[id].request) && Storable(c.sessions[id].request.flags)
    requires c.sessions[id].load.version == Latest(c).version
    requires var s := c.sessions[id];
             IsDiff(SnapshotOf(s.load), s.request.flags, s.request.segments, changes)
    ensures Leads(c, d) && OnlyStoreMoved(c, d) && d.history != []
    ensures var s := c.sessions[id];
            Latest(d).tables == ApplyChanges(Latest(c).tables, changes, s.request.flags, s.request.segments)
  {
    var s := c.sessions[id];
    var planned := SetSession(c, id, if changes == [] then Finished else Planned(s.request, s.load, changes));
    assert StoreStep(c, planned, ApplyPlan(id, changes));
    TakesAStep(c, planned, OnStore(ApplyPlan(id, changes)));
    if changes == [] {
      d := planned;
    } else {
      d := PlanCanCommit(planned, id);
      LeadsOn(c, planned, d);
    }
  }

  /** The replica serves what the store holds, and that is what its client was sent last. */
  ghost predicate HasLatest(c: Cluster, id: nat, client: nat) {
    && c.history != [] && id in c.replicas && HoldsCurrent(c.replicas[id], client)
    && c.replicas[id].current.version == Latest(c).version
  }

  /**
   From every state of every run a declared configuration can be brought to a connected client:
   applied to the store, reloaded by the client's replica, and sent whole.
   */
  lemma ConfigCanReachClient(run: seq<Cluster>, i: nat, id: nat, client: nat, request: Request) returns (d: Cluster)
    requires IsRun(run) && i < |run| && run[i].history != [] && Expected(run[i], request) && Storable(request.flags)
    requires DistinctFlagKeys(request.flags) && DistinctSegmentKeys(request.segments)
    requires id in run[i].replicas && client in run[i].replicas[id].receivers
    requires run[i].replicas[id].receivers[client].kind == SnapshotStream
    ensures Leads(run[i], d) && HasLatest(d, id, client)
    ensures Reconciled(Latest(d).tables, request.flags, request.segments)
  {
    RunsKeepInv(run, i);
    var applied := ConfigCanBeApplied(run[i], request);
    LeadsKeepsInv(run[i], applied);
    d := ChangesCanReachClient(applied, id, client);
    LeadsOn(run[i], applied, d);
  }

  lemma ChangesCanReachClient(c: Cluster, id: nat, client: nat) returns (d: Cluster)
    requires Inv(c) && id in c.replicas && client in c.replicas[id].receivers
    requires c.replicas[id].receivers[client].kind == SnapshotStream
    ensures Leads(c, d) && d.history == c.history && HasLatest(d, id, client)
  {
    var p := ReplicaCanCatchUp(c, id);
    var reloaded := SetReplica(c, id, p);
    LeadsKeepsInv(c, reloaded);
    d := SettledClientHasLatest(reloaded, id, client);
    LeadsOn(c, reloaded, d);
  }

  /** What the client was sent last is what the replica serves. */
  ghost predicate HoldsCurrent(q: Replica, client: nat) {
    && client in q.receivers && q.receivers[client].got != []
    && var got := q.receivers[client].got; got[|got| - 1] == Whole(q.current)
  }

  lemma SettledClientHasLatest(c: Cluster, id: nat, client: nat) returns (d: Cluster)
    requires Inv(c) && id in c.replicas && client in c.replicas[id].receivers && c.replicas[id].job.Idle?
    requires c.replicas[id].receivers[client].kind == SnapshotStream
    requires c.replicas[id].current.version == Latest(c).version
    ensures Leads(c, d) && d.history == c.history && HasLatest(d, id, client)
  {
    var v := ClientCanSettle(c, id, client);
    var q := WithReceiver(c.replicas[id], client, v);
    BecomesReplicaOk(c, id, q);
    SettledReceiverHoldsCurrent(c.history, q, client);
    d := SetReplica(c, id, q);
    HeldIsLatest(c, id, q, client);
  }

  lemma HeldIsLatest(c: Cluster, id: nat, q: Replica, client: nat)
    requires c.history != [] && HoldsCurrent(q, client) && q.current.version == Latest(c).version
    ensures HasLatest(SetReplica(c, id, q), id, client)
  {
  }

  lemma BecomesReplicaOk(c: Cluster, id: nat, q: Replica)
    requires Inv(c) && CanBecome(c, id, q)
    ensures ReplicaOk(c.history, q)
  {
    LeadsKeepsInv(c, SetReplica(c, id, q));
    assert id in SetReplica(c, id, q).replicas;
  }

  lemma SettledReceiverHoldsCurrent(h: seq<Commit>, q: Replica, client: nat)
    requires h != [] && ReplicaOk(h, q) && client in q.receivers && q.receivers[client].kind == SnapshotStream
    requires Settled(q, q.receivers[client])
    ensures HoldsCurrent(q, client)
  {
    assert ReceiverOk(q, q.receivers[client]);
    SettledClientHoldsCurrent(q, q.receivers[client]);
  }

  // ---- Bootstraps can succeed ----

  ghost predicate BootCanKnow(c: Cluster, id: nat, b: Boot) {
    Leads(c, SetBoot(c, id, b))
  }

  lemma Boots(c: Cluster, id: nat, a: Boot, b: Boot, step: BootAction)
    requires c.history != [] && BootCanKnow(c, id, a)
    requires BootStep(SetBoot(c, id, a), SetBoot(SetBoot(c, id, a), id, b), step)
    ensures BootCanKnow(c, id, b)
  {
    assert c.boots[id := a][id := b] == c.boots[id := b];
    TakesAStep(SetBoot(c, id, a), SetBoot(c, id, b), OnBoot(step));
    LeadsOn(c, SetBoot(c, id, a), SetBoot(c, id, b));
  }

  lemma BootCanCheck(c: Cluster, id: nat)
    requires c.history != [] && id !in c.boots && id !in c.replicas
    ensures BootCanKnow(c, id, BootChecked(Latest(c).version))
  {
    var d := SetBoot(c, id, BootChecked(Latest(c).version));
    assert BootStep(c, d, BootCheck(id));
    TakesAStep(c, d, OnBoot(BootCheck(id)));
  }

  lemma {:induction false} BootCanLoad(c: Cluster, id: nat, l: Load) returns (load: Load)
    requires c.history != [] && BootCanKnow(c, id, BootLoading(l)) && |l.origin| < READS
    ensures BootCanKnow(c, id, BootLoaded(load)) && load.version == l.version
    decreases READS - |l.origin|
  {
    load := ReadNext(c, l);
    var b := if Complete(load) then BootLoaded(load) else BootLoading(load);
    Boots(c, id, BootLoading(l), b, BootRead(id));
    if !Complete(load) {
      load := BootCanLoad(c, id, load);
    }
  }

  /** A replica that is not there yet can be booted to serve what the store holds. */
  lemma ReplicaCanBoot(c: Cluster, id: nat) returns (d: Cluster)
    requires c.history != [] && id !in c.boots && id !in c.replicas
    ensures Leads(c, d) && d.history == c.history
    ensures id in d.replicas && d.replicas[id].current.version == Latest(c).version
  {
    BootCanCheck(c, id);
    Boots(c, id, BootChecked(Latest(c).version), BootLoading(NewLoad(c)), BootMiss(id));
    var load := BootCanLoad(c, id, NewLoad(c));
    var e := SetBoot(c, id, BootLoaded(load));
    d := SetReplica(e, id, NewReplica(load));
    assert BootStep(e, d, BootServe(id));
    TakesAStep(e, d, OnBoot(BootServe(id)));
    LeadsOn(c, e, d);
  }

  /** The cache can lose its entry at any time; nothing else is lost with it. */
  lemma CacheCanExpire(c: Cluster)
    requires c.history != []
    ensures Leads(c, c.(cache := None))
  {
    assert BootStep(c, c.(cache := None), CacheExpire);
    TakesAStep(c, c.(cache := None), OnBoot(CacheExpire));
  }

  /** From the cache, without reading a table, while the cache holds the store's version. */
  lemma ReplicaCanBootFromCache(c: Cluster, id: nat) returns (d: Cluster)
    requires c.history != [] && id !in c.boots && id !in c.replicas
    requires c.cache.Some? && c.cache.value.version == Latest(c).version
    ensures Leads(c, d) && d.history == c.history && id in d.replicas && d.replicas[id].current == c.cache.value
  {
    BootCanCheck(c, id);
    var e := SetBoot(c, id, BootChecked(Latest(c).version));
    d := SetReplica(e, id, NewReplica(c.cache.value));
    assert BootStep(e, d, BootHit(id));
    TakesAStep(e, d, OnBoot(BootHit(id)));
    LeadsOn(c, e, d);
  }
}
