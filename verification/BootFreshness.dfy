/**
 How fresh a bootstrapped replica is: it compares the cached version with the store's, and serves
 the cache only when they are the same, so over every run its first snapshot is never older than
 the version it checked, hit or miss.
 */
module BootFreshness {
  import opened Basics
  import opened FlagCluster
  import opened ClusterSafety

  /** What bootstrap `id` knows is at version `v` or later, and so is what it first served, unless it failed. */
  ghost predicate BootedSince(c: Cluster, id: nat, v: int) {
    && c.history != [] && Latest(c).version >= v && id in c.boots
    && (match c.boots[id]
        case BootChecked(version) => version == v
        case BootLoading(load) => load.version >= v
        case BootLoaded(load) => load.version >= v)
    && (id in c.replicas ==>
          && c.replicas[id].served != []
          && (c.replicas[id].served[0] == EMPTY_LOAD || c.replicas[id].served[0].version >= v))
  }

  /** Replica `id` began by serving `first`. */
  ghost predicate BeganWith(c: Cluster, id: nat, first: Load) {
    id in c.replicas && c.replicas[id].served != [] && c.replicas[id].served[0] == first
  }

  lemma ReloadKeepsFirst(c: Cluster, d: Cluster, step: ReloadAction, at: nat, id: nat, first: Load)
    requires c.history != [] && at in c.replicas && ReloadStep(c, d, step, at) && BeganWith(c, id, first)
    ensures BeganWith(d, id, first)
  {
  }

  lemma StreamKeepsFirst(c: Cluster, d: Cluster, step: StreamAction, at: nat, client: nat, id: nat, first: Load)
    requires at in c.replicas && StreamStep(c, d, step, at, client) && BeganWith(c, id, first)
    ensures BeganWith(d, id, first)
  {
  }

  lemma StepKeepsFirst(c: Cluster, d: Cluster, step: Step, id: nat, first: Load)
    requires c.history != [] && Next(c, d, step) && BeganWith(c, id, first)
    ensures BeganWith(d, id, first)
  {
    match step {
      case OnStore(action) => StoreKeepsReplicas(c, d, action);
      case OnBoot(action) => BootKeepsReplica(c, d, action, id);
      case OnReload(at, action) => ReloadKeepsFirst(c, d, action, at, id, first);
      case OnStream(at, client, action) => StreamKeepsFirst(c, d, action, at, client, id, first);
    }
  }

  /** Only bootstraps make replicas, or change what bootstraps know. */
  lemma ReloadKeepsBoots(c: Cluster, d: Cluster, step: ReloadAction, at: nat)
    requires c.history != [] && at in c.replicas && ReloadStep(c, d, step, at)
    ensures d.boots == c.boots && d.replicas.Keys == c.replicas.Keys
  {
  }

  lemma StreamKeepsBoots(c: Cluster, d: Cluster, step: StreamAction, at: nat, client: nat)
    requires at in c.replicas && StreamStep(c, d, step, at, client)
    ensures d.boots == c.boots && d.replicas.Keys == c.replicas.Keys
  {
  }

  lemma OthersKeepBoots(c: Cluster, d: Cluster, step: Step)
    requires c.history != [] && Next(c, d, step) && !step.OnBoot?
    ensures d.boots == c.boots && d.replicas.Keys == c.replicas.Keys
  {
    match step {
      case OnStore(action) => StoreKeepsReplicas(c, d, action);
      case OnReload(at, action) => ReloadKeepsBoots(c, d, action, at);
      case OnStream(at, client, action) => StreamKeepsBoots(c, d, action, at, client);
    }
  }

  lemma BootStepKeepsBooted(c: Cluster, d: Cluster, step: BootAction, id: nat, v: int)
    requires c.history != [] && BootStep(c, d, step) && BootedSince(c, id, v)
    ensures BootedSince(d, id, v)
  {
    match step {
      case CacheExpire =>
      case BootCheck(_) =>
      case BootHit(_) =>
      case BootMiss(_) =>
      case BootRead(_) =>
      case BootPut(_) =>
      case BootServe(_) =>
      case BootFail(_) =>
    }
  }

  lemma StepKeepsBooted(c: Cluster, d: Cluster, step: Step, id: nat, v: int)
    requires HistoryOk(d.history) && BootedSince(c, id, v) && Next(c, d, step)
    ensures BootedSince(d, id, v)
  {
    StepExtendsHistory(c, d, step);
    LongerHistoryIsLater(c.history, d.history);
    if step.OnBoot? {
      BootStepKeepsBooted(c, d, step.boot, id, v);
    } else {
      OthersKeepBoots(c, d, step);
      if id in c.replicas {
        StepKeepsFirst(c, d, step, id, c.replicas[id].served[0]);
      }
    }
  }

  lemma CheckIsKnown(c: Cluster, d: Cluster, id: nat)
    requires c.history != [] && BootStep(c, d, BootCheck(id))
    ensures BootedSince(d, id, Latest(c).version)
  {
  }

  lemma HitServesTheCache(c: Cluster, d: Cluster, id: nat, v: int)
    requires BootedSince(c, id, v) && BootStep(c, d, BootHit(id))
    ensures c.cache.Some? && c.cache.value.version == v && BeganWith(d, id, c.cache.value)
  {
  }

  // ---- Over runs ----

  ghost predicate BootedStays(run: seq<Cluster>, id: nat, v: int) {
    forall k | 0 < k < |run| && BootedSince(run[k - 1], id, v) :: BootedSince(run[k], id, v)
  }

  ghost predicate FirstStays(run: seq<Cluster>, id: nat, first: Load) {
    forall k | 0 < k < |run| && BeganWith(run[k - 1], id, first) :: BeganWith(run[k], id, first)
  }

  lemma RunKeepsBooted(run: seq<Cluster>, id: nat, v: int)
    requires IsRun(run)
    ensures BootedStays(run, id, v)
  {
    forall k | 0 < k < |run| && BootedSince(run[k - 1], id, v)
      ensures BootedSince(run[k], id, v)
    {
      var step := RunStep(run, k);
      RunsKeepInv(run, k);
      StepKeepsBooted(run[k - 1], run[k], step, id, v);
    }
  }

  lemma RunKeepsFirst(run: seq<Cluster>, id: nat, first: Load)
    requires IsRun(run)
    ensures FirstStays(run, id, first)
  {
    forall k | 0 < k < |run| && BeganWith(run[k - 1], id, first)
      ensures BeganWith(run[k], id, first)
    {
      var step := RunStep(run, k);
      StepKeepsFirst(run[k - 1], run[k], step, id, first);
    }
  }

  lemma {:induction false} BootedFromCheck(run: seq<Cluster>, i: nat, j: nat, id: nat, v: int)
    requires BootedStays(run, id, v) && i <= j < |run| && BootedSince(run[i], id, v)
    ensures BootedSince(run[j], id, v)
    decreases j
  {
    if i < j {
      BootedFromCheck(run, i, j - 1, id, v);
    }
  }

  lemma {:induction false} FirstFromServing(run: seq<Cluster>, i: nat, j: nat, id: nat, first: Load)
    requires FirstStays(run, id, first) && i <= j < |run| && BeganWith(run[i], id, first)
    ensures BeganWith(run[j], id, first)
    decreases j
  {
    if i < j {
      FirstFromServing(run, i, j - 1, id, first);
    }
  }

  lemma BootedEverAfter(run: seq<Cluster>, i: nat, j: nat, id: nat)
    requires IsRun(run) && i < j < |run| && run[i].history != []
    requires BootStep(run[i], run[i + 1], BootCheck(id))
    ensures BootedSince(run[j], id, Latest(run[i]).version)
  {
    CheckIsKnown(run[i], run[i + 1], id);
    RunKeepsBooted(run, id, Latest(run[i]).version);
    BootedFromCheck(run, i + 1, j, id, Latest(run[i]).version);
  }

  lemma BeganEverAfter(run: seq<Cluster>, i: nat, j: nat, id: nat, first: Load)
    requires IsRun(run) && i <= j < |run| && BeganWith(run[i], id, first)
    ensures BeganWith(run[j], id, first)
  {
    RunKeepsFirst(run, id, first);
    FirstFromServing(run, i, j, id, first);
  }

  /**
   A bootstrap that read the store's version serves first a snapshot of that version or a later
   one, from the cache or from its own load, or else the empty snapshot of a failed bootstrap.
   */
  lemma BootedReplicaIsFresh(run: seq<Cluster>, i: nat, j: nat, id: nat)
    requires IsRun(run) && i < j < |run| && run[i].history != []
    requires BootStep(run[i], run[i + 1], BootCheck(id))
    requires id in run[j].replicas
    ensures run[j].replicas[id].served != []
    ensures var first := run[j].replicas[id].served[0];
            first == EMPTY_LOAD || first.version >= Latest(run[i]).version
  {
    BootedEverAfter(run, i, j, id);
  }

  /** On a cache hit the first snapshot served is the cached one, of exactly the version checked. */
  lemma HitServesTheVersionChecked(run: seq<Cluster>, i: nat, k: nat, j: nat, id: nat)
    requires IsRun(run) && i < k < j < |run| && run[i].history != [] && run[k].history != []
    requires BootStep(run[i], run[i + 1], BootCheck(id))
    requires BootStep(run[k], run[k + 1], BootHit(id))
    ensures run[k].cache.Some? && BeganWith(run[j], id, run[k].cache.value)
    ensures run[k].cache.value.version == Latest(run[i]).version
  {
    BootedEverAfter(run, i, k, id);
    HitServesTheCache(run[k], run[k + 1], id, Latest(run[i]).version);
    BeganEverAfter(run, k + 1, j, id, run[k].cache.value);
  }

  // ---- What is cached ----

  /** A reload caches the very snapshot it is about to swap in, newer than the one its replica serves. */
  lemma ReloadCachesWhatItSwapsIn(c: Cluster, d: Cluster, e: Cluster, id: nat, changed: seq<string>)
    requires Inv(c) && id in c.replicas && id in d.replicas
    requires ReloadStep(c, d, ReloadPut, id) && ReloadStep(d, e, ReloadSwap(changed), id)
    ensures id in e.replicas && d.cache == Some(e.replicas[id].current)
    ensures e.replicas[id].current.version > c.replicas[id].current.version
  {
    assert ReplicaOk(c.history, c.replicas[id]);
  }

  /** A bootstrap that missed caches the very snapshot it is about to serve. */
  lemma BootCachesWhatItServes(c: Cluster, d: Cluster, e: Cluster, id: nat)
    requires c.history != [] && d.history != []
    requires BootStep(c, d, BootPut(id)) && BootStep(d, e, BootServe(id))
    ensures id in e.replicas && d.cache == Some(e.replicas[id].current)
  {
  }
}
