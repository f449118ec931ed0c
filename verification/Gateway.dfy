/** The order in which a request goes out: the routing table and the failover loop put together. */
module Gateway {
  import opened Basics
  import opened Registry
  import opened Failover

  /** The upstreams of a request for `model`: its candidates, in order. */
  ghost predicate Serving(r: Registry, model: string, kind: ModelKind, u: Upstreams) {
    u.candidates == |ProvidersForModel(r, model, kind)|
  }

  /** The configuration lists the model for the provider, as a chat or as an embedding model. */
  predicate Lists(p: ProviderConfig, model: string, kind: ModelKind) {
    match kind
    case Chat => model in p.models
    case Embedding => model in p.embeddingModels
  }

  /** A provider with a key that lists the model. */
  ghost predicate Listed(config: Config, hasKey: string -> bool, name: string, model: string, kind: ModelKind) {
    name in config && hasKey(name) && Lists(config[name], model, kind)
  }

  /** Of two different providers, the one with the smaller number goes first; with the same number, the smaller name. */
  ghost predicate GoesBefore(config: Config, a: string, b: string) {
    && a in config && b in config
    && (config[a].priority < config[b].priority || (config[a].priority == config[b].priority && Precedes(a, b)))
  }

  lemma NotAfterGoesBefore(config: Config, a: string, b: string)
    requires a in config && b in config
    ensures NotAfter(config, a, b) <==> a == b || GoesBefore(config, a, b)
  {
    StringLessIsLexicographic(a, b);
  }

  /** Candidates told of the configuration alone: who they are, and who of two goes first. */
  lemma CandidatesInPlainTerms(
    config: Config, names: seq<string>, hasKey: string -> bool, r: Registry, model: string, kind: ModelKind)
    requires Walks(names, config) && IsRegistryOf(config, names, hasKey, r)
    ensures forall p :: p in ProvidersForModel(r, model, kind) <==>
              && p.name in config && hasKey(p.name) && p.dialect == config[p.name].dialect
              && if exists n :: Listed(config, hasKey, n, model, kind) then Listed(config, hasKey, p.name, model, kind)
                 else config[p.name].fallback
    ensures var ps := ProvidersForModel(r, model, kind);
            forall i, j | 0 <= i < j < |ps| :: ps[i] == ps[j] || GoesBefore(config, ps[i].name, ps[j].name)
  {
    CandidatesAreExact(config, names, hasKey, r, model, kind);
    forall n
      ensures Serves(config, hasKey, n, model, kind) <==> Listed(config, hasKey, n, model, kind)
    {
    }
    assert SomeServes(config, hasKey, model, kind) <==> exists n :: Listed(config, hasKey, n, model, kind);
    var ps := ProvidersForModel(r, model, kind);
    forall i, j | 0 <= i < j < |ps|
      ensures ps[i] == ps[j] || GoesBefore(config, ps[i].name, ps[j].name)
    {
      assert ps[i] in ps && ps[j] in ps;
      NotAfterGoesBefore(config, ps[i].name, ps[j].name);
    }
  }

  /**
   Whatever the configuration's map order, requests go out to enabled providers for the model in
   order of priority and then name, three at most to each candidate, and never back to an earlier one.
   */
  lemma RequestsFollowPriority(
    config: Config, names: seq<string>, hasKey: string -> bool, r: Registry,
    model: string, kind: ModelKind, u: Upstreams)
    requires Walks(names, config) && IsRegistryOf(config, names, hasKey, r) && Serving(r, model, kind, u)
    ensures var tried, candidates := WholeTrail(u).0, ProvidersForModel(r, model, kind);
            && (forall m | 0 <= m < |tried| ::
                  && tried[m].candidate < |candidates| && tried[m].number < 3
                  && IsCandidate(config, hasKey, candidates[tried[m].candidate], model, kind))
            && (forall m, n | 0 <= m < n < |tried| ::
                  && tried[m].candidate <= tried[n].candidate
                  && NotAfter(config, candidates[tried[m].candidate].name, candidates[tried[n].candidate].name))
  {
    var tried, candidates := WholeTrail(u).0, ProvidersForModel(r, model, kind);
    AttemptsAreExact(u);
    CandidatesAreExact(config, names, hasKey, r, model, kind);
    forall m | 0 <= m < |tried|
      ensures tried[m].candidate < |candidates| && tried[m].number < 3
      ensures IsCandidate(config, hasKey, candidates[tried[m].candidate], model, kind)
    {
      assert tried[m] in tried;
      assert candidates[tried[m].candidate] in candidates;
    }
    forall m, n | 0 <= m < n < |tried|
      ensures tried[m].candidate <= tried[n].candidate
      ensures NotAfter(config, candidates[tried[m].candidate].name, candidates[tried[n].candidate].name)
    {
      assert Before(tried[m], tried[n]);
      if tried[m].candidate == tried[n].candidate {
        NotAfterIsTotal(config, candidates[tried[m].candidate].name, candidates[tried[m].candidate].name);
      }
    }
  }
}
