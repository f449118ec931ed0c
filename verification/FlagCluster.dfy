/**
 The feature-flag service as a state machine over the steps that can interleave: commits to the
 store, the seven reads of every snapshot load, the apply sessions that lock the version row, the
 replicas that reload, cache, swap and broadcast, and the client streams they feed.
 */
module FlagCluster {
  import opened Basics
  import opened FlagModel
  import opened FlagTables
  import opened ConfigDiff
  import opened ConfigApply
  import opened ChangeSet

  // ---- State ----

  /** One committed state of the store, under the version its triggers advanced to. */
  datatype Commit = Commit(version: int, tables: Tables)

  /** A snapshot as loaded: its version label, read first, the rows read after it, and which commit each read saw. */
  datatype Load = Load(version: int, rows: Tables, origin: seq<nat>)

  const READS := 7

  predicate Complete(l: Load) {
    |l.origin| == READS
  }

  /** Read `k` of a load, in the order `load_snapshot` issues them. Row ids are never read as such. */
  function WithRead(rows: Tables, k: nat, t: Tables): Tables {
    if k == 0 then rows.(flags := t.flags)
    else if k == 1 then rows.(variants := t.variants)
    else if k == 2 then rows.(distributions := t.distributions)
    else if k == 3 then rows.(ruleConstraints := t.ruleConstraints)
    else if k == 4 then rows.(rules := t.rules)
    else if k == 5 then rows.(segments := t.segments)
    else rows.(segmentConstraints := t.segmentConstraints)
  }

  function SnapshotOf(l: Load): Snapshot {
    Assemble(l.version, l.rows)
  }

  datatype Request = Request(flags: seq<Flag>, segments: seq<Segment>, expectedVersion: int)

  datatype Session =
    | Planning(request: Request, load: Load)
    | Planned(request: Request, load: Load, changes: seq<ConfigChange>)
    | Locked(request: Request, load: Load, changes: seq<ConfigChange>)
    | Finished
    | Aborted

  /** A reload in progress; `begun` is the store's version when its lock was taken. */
  datatype Job =
    | Idle
    | Begun(begun: int)
    | Loading(begun: int, load: Load)
    | Publishing(begun: int, load: Load)
    | Swapped(begun: int, update: ConfigUpdate)

  datatype StreamKind = SnapshotStream | EventStream

  /**
   What a client is sent: a snapshot client whole snapshots, head and tail alike; an event client
   that it is ready, what an update changed, or that it lost updates.
   */
  datatype Message =
    | Whole(snapshot: Load)
    | Ready(at: int)
    | Changed(update: ConfigUpdate)
    | Resync(at: int)
  {
    function Version(): int {
      match this
      case Whole(l) => l.version
      case Ready(v) => v
      case Changed(u) => u.version
      case Resync(v) => v
    }
  }

  /**
   A broadcast receiver: the item it starts from, the next it will take, which of the snapshots
   its replica served was current when its head was sent, and what its client has been sent.
   */
  datatype Receiver = Receiver(kind: StreamKind, from: nat, pos: nat, since: nat, got: seq<Message>)

  /**
   `served` holds every snapshot served, oldest first; `published` every update sent; `freshAsOf`
   is the latest `begun` of a completed reload.
   */
  datatype Replica = Replica(
    current: Load,
    served: seq<Load>,
    job: Job,
    published: seq<ConfigUpdate>,
    freshAsOf: int,
    receivers: map<nat, Receiver>)

  datatype Boot = BootChecked(version: int) | BootLoading(load: Load) | BootLoaded(load: Load)

  datatype Cluster = Cluster(
    history: seq<Commit>,
    lockedBy: Option<nat>,
    sessions: map<nat, Session>,
    cache: Option<Load>,
    boots: map<nat, Boot>,
    replicas: map<nat, Replica>)

  function Latest(c: Cluster): Commit
    requires c.history != []
  {
    c.history[|c.history| - 1]
  }

  /** The broadcast channel keeps this many items for a slow receiver. */
  const CAPACITY := 64

  /** The snapshot a replica serves when its bootstrap fails: no flags, version 0. */
  const EMPTY_LOAD := Load(0, EMPTY, [0, 0, 0, 0, 0, 0, 0])

  /** The migrations leave empty tables at version 1. */
  ghost predicate Init(c: Cluster) {
    c == Cluster([Commit(1, EMPTY)], None, map[], None, map[], map[])
  }

  // ---- Steps ----

  datatype StoreAction =
    | Write(commit: Commit)
    | ApplyBegin(id: nat, request: Request)
    | ApplyRead(id: nat)
    | ApplyPlan(id: nat, changes: seq<ConfigChange>)
    | ApplyLock(id: nat)
    | ApplyCommit(id: nat, version: int)
    | ApplyRollback(id: nat)

  datatype BootAction =
    | CacheExpire
    | BootCheck(id: nat)
    | BootHit(id: nat)
    | BootMiss(id: nat)
    | BootRead(id: nat)
    | BootPut(id: nat)
    | BootServe(id: nat)
    | BootFail(id: nat)

  datatype ReloadAction =
    | ReloadBegin
    | ReloadLabel
    | ReloadRead
    | ReloadFail
    | ReloadSkip
    | ReloadAccept
    | ReloadPut
    | ReloadSwap(changed: seq<string>)
    | ReloadSend

  datatype StreamAction = Subscribe(kind: StreamKind) | SendHead | Receive

  datatype Step =
    | OnStore(store: StoreAction)
    | OnBoot(boot: BootAction)
    | OnReload(id: nat, reload: ReloadAction)
    | OnStream(id: nat, client: nat, stream: StreamAction)

  function NewLoad(c: Cluster): Load
    requires c.history != []
  {
    Load(Latest(c).version, EMPTY, [])
  }

  function ReadNext(c: Cluster, l: Load): Load
    requires c.history != []
  {
    Load(l.version, WithRead(l.rows, |l.origin|, Latest(c).tables), l.origin + [|c.history| - 1])
  }

  function SetSession(c: Cluster, id: nat, s: Session): Cluster {
    c.(sessions := c.sessions[id := s])
  }

  function SetBoot(c: Cluster, id: nat, b: Boot): Cluster {
    c.(boots := c.boots[id := b])
  }

  function SetReplica(c: Cluster, id: nat, r: Replica): Cluster {
    c.(replicas := c.replicas[id := r])
  }

  function NewReplica(current: Load): Replica {
    Replica(current, [current], Idle, [], current.version, map[])
  }

  /** The version row is free, so a transaction that writes may commit. */
  predicate Unlocked(c: Cluster) {
    c.lockedBy.None?
  }

  ghost predicate StoreStep(c: Cluster, d: Cluster, step: StoreAction)
    requires c.history != []
  {
    match step
    case Write(commit) =>
      && Unlocked(c) && commit.version > Latest(c).version && TablesOk(commit.tables)
      && d == c.(history := c.history + [commit])
    case ApplyBegin(id, request) =>
      && id !in c.sessions
      && d == SetSession(c, id, Planning(request, NewLoad(c)))
    case ApplyRead(id) =>
      && id in c.sessions && c.sessions[id].Planning? && !Complete(c.sessions[id].load)
      && d == SetSession(c, id, Planning(c.sessions[id].request, ReadNext(c, c.sessions[id].load)))
    case ApplyPlan(id, changes) =>
      && id in c.sessions && c.sessions[id].Planning? && Complete(c.sessions[id].load)
      && var s := c.sessions[id];
      && IsDiff(SnapshotOf(s.load), s.request.flags, s.request.segments, changes)
      && d == SetSession(c, id, if changes == [] then Finished else Planned(s.request, s.load, changes))
    case ApplyLock(id) =>
      && id in c.sessions && c.sessions[id].Planned? && Unlocked(c)
      && var s := c.sessions[id];
      && d == (if Latest(c).version != s.load.version ||
                  (s.request.expectedVersion != 0 && Latest(c).version != s.request.expectedVersion)
               then SetSession(c, id, Aborted)
               else SetSession(c, id, Locked(s.request, s.load, s.changes)).(lockedBy := Some(id)))
    case ApplyCommit(id, version) =>
      && id in c.sessions && c.sessions[id].Locked? && version > Latest(c).version
      && var s := c.sessions[id];
      && WritesStorable(s.changes, s.request.flags)
      && d == SetSession(c, id, Finished).(
            lockedBy := None,
            history := c.history +
              [Commit(version, ApplyChanges(Latest(c).tables, s.changes, s.request.flags, s.request.segments))])
    case ApplyRollback(id) =>
      && id in c.sessions && c.sessions[id].Locked?
      && d == SetSession(c, id, Aborted).(lockedBy := None)
  }

  ghost predicate BootStep(c: Cluster, d: Cluster, step: BootAction)
    requires c.history != []
  {
    match step
    case CacheExpire => d == c.(cache := None)
    case BootCheck(id) =>
      && id !in c.boots && id !in c.replicas
      && d == SetBoot(c, id, BootChecked(Latest(c).version))
    case BootHit(id) =>
      && id in c.boots && c.boots[id].BootChecked? && c.cache.Some? && c.cache.value.version == c.boots[id].version
      && id !in c.replicas && d == SetReplica(c, id, NewReplica(c.cache.value))
    case BootMiss(id) =>
      && id in c.boots && c.boots[id].BootChecked?
      && d == SetBoot(c, id, BootLoading(NewLoad(c)))
    case BootRead(id) =>
      && id in c.boots && c.boots[id].BootLoading? && !Complete(c.boots[id].load)
      && var l := ReadNext(c, c.boots[id].load);
      && d == SetBoot(c, id, if Complete(l) then BootLoaded(l) else BootLoading(l))
    case BootPut(id) =>
      && id in c.boots && c.boots[id].BootLoaded?
      && d == c.(cache := Some(c.boots[id].load))
    case BootServe(id) =>
      && id in c.boots && c.boots[id].BootLoaded? && id !in c.replicas
      && d == SetReplica(c, id, NewReplica(c.boots[id].load))
    case BootFail(id) =>
      && id in c.boots && id !in c.replicas
      && d == SetReplica(c, id, NewReplica(EMPTY_LOAD))
  }

  ghost predicate ReloadStep(c: Cluster, d: Cluster, step: ReloadAction, id: nat)
    requires c.history != [] && id in c.replicas
  {
    var r := c.replicas[id];
    match step
    case ReloadBegin =>
      && r.job.Idle?
      && d == SetReplica(c, id, r.(job := Begun(Latest(c).version)))
    case ReloadLabel =>
      && r.job.Begun?
      && d == SetReplica(c, id, r.(job := Loading(r.job.begun, NewLoad(c))))
    case ReloadRead =>
      && r.job.Loading? && !Complete(r.job.load)
      && d == SetReplica(c, id, r.(job := Loading(r.job.begun, ReadNext(c, r.job.load))))
    case ReloadFail =>
      && (r.job.Begun? || r.job.Loading? || r.job.Publishing?)
      && d == SetReplica(c, id, r.(job := Idle))
    case ReloadSkip =>
      && r.job.Loading? && Complete(r.job.load) && r.job.load.version <= r.current.version
      && d == SetReplica(c, id, r.(job := Idle, freshAsOf := Later(r.job.begun, r.freshAsOf)))
    case ReloadAccept =>
      && r.job.Loading? && Complete(r.job.load) && r.job.load.version > r.current.version
      && d == SetReplica(c, id, r.(job := Publishing(r.job.begun, r.job.load)))
    case ReloadPut =>
      && r.job.Publishing?
      && d == c.(cache := Some(r.job.load))
    case ReloadSwap(changed) =>
      && r.job.Publishing?
      && ReportOf(SnapshotOf(r.current), SnapshotOf(r.job.load), changed)
      && d == SetReplica(c, id, Swap(r, changed))
    case ReloadSend =>
      && r.job.Swapped?
      && d == SetReplica(c, id, Send(r))
  }

  function Later(a: int, b: int): int {
    if a > b then a else b
  }

  function Swap(r: Replica, changed: seq<string>): Replica
    requires r.job.Publishing?
  {
    r.(current := r.job.load, served := r.served + [r.job.load],
       job := Swapped(r.job.begun, ConfigUpdate(r.job.load.version, changed)))
  }

  function Send(r: Replica): Replica
    requires r.job.Swapped?
  {
    r.(job := Idle, published := r.published + [r.job.update], freshAsOf := Later(r.job.begun, r.freshAsOf))
  }

  /** What a receiver is handed next: the oldest kept item, or the lag marker when items were lost. */
  function Pop(r: Replica, v: Receiver): Receiver
    requires v.pos < |r.published|
  {
    if |r.published| - v.pos > CAPACITY then
      v.(pos := |r.published| - CAPACITY,
         got := v.got + [if v.kind == SnapshotStream then Whole(r.current) else Resync(r.current.version)])
    else
      v.(pos := v.pos + 1,
         got := v.got + [if v.kind == SnapshotStream then Whole(r.current) else Changed(r.published[v.pos])])
  }

  /** The first message: what the replica serves when the head is read. */
  function WithHead(r: Replica, v: Receiver): Receiver
    requires r.served != []
  {
    v.(since := |r.served| - 1,
       got := [if v.kind == SnapshotStream then Whole(r.current) else Ready(r.current.version)])
  }

  ghost predicate StreamStep(c: Cluster, d: Cluster, step: StreamAction, id: nat, client: nat)
    requires id in c.replicas
  {
    var r := c.replicas[id];
    match step
    case Subscribe(kind) =>
      && client !in r.receivers
      && d == SetReplica(c, id,
          r.(receivers := r.receivers[client := Receiver(kind, |r.published|, |r.published|, 0, [])]))
    case SendHead =>
      && client in r.receivers && r.receivers[client].got == [] && r.served != []
      && d == SetReplica(c, id, r.(receivers := r.receivers[client := WithHead(r, r.receivers[client])]))
    case Receive =>
      && client in r.receivers && r.receivers[client].got != [] && r.receivers[client].pos < |r.published|
      && d == SetReplica(c, id, r.(receivers := r.receivers[client := Pop(r, r.receivers[client])]))
  }

  ghost predicate Next(c: Cluster, d: Cluster, step: Step)
    requires c.history != []
  {
    match step
    case OnStore(action) => StoreStep(c, d, action)
    case OnBoot(action) => BootStep(c, d, action)
    case OnReload(id, action) => id in c.replicas && ReloadStep(c, d, action, id)
    case OnStream(id, client, action) => id in c.replicas && StreamStep(c, d, action, id, client)
  }

  ghost predicate Steps(c: Cluster, d: Cluster) {
    c.history != [] && exists step :: Next(c, d, step)
  }

  /** A run: every state follows from the one before by some step. */
  ghost predicate IsRun(run: seq<Cluster>) {
    run != [] && Init(run[0]) && forall i, j | 0 <= i && j == i + 1 < |run| :: Steps(run[i], run[j])
  }
}
