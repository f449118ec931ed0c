/** The gateway's routing table: which providers serve a model, in failover order. */
module Registry {
  import opened Basics

  datatype Dialect = Anthropic | OpenAiCompatible

  datatype ModelKind = Chat | Embedding

  datatype ProviderConfig = ProviderConfig(
    dialect: Dialect, models: seq<string>, embeddingModels: seq<string>, priority: int, fallback: bool)

  datatype Provider = Provider(name: string, dialect: Dialect)

  type Config = map<string, ProviderConfig>

  type Routes = map<(string, ModelKind), seq<string>>

  datatype Registry = Registry(providers: map<string, Provider>, routes: Routes, fallbacks: seq<string>)

  const I32_MAX := 0x7fff_ffff

  // ---- Failover order ----

  function PriorityOf(config: Config, name: string): int {
    if name in config then config[name].priority else I32_MAX
  }

  /** Lowest priority first, then by name. */
  predicate NotAfter(config: Config, a: string, b: string) {
    var (pa, pb) := (PriorityOf(config, a), PriorityOf(config, b));
    pa < pb || (pa == pb && (a == b || StringLess(a, b)))
  }

  lemma NotAfterIsTotal(config: Config, a: string, b: string)
    ensures NotAfter(config, a, b) || NotAfter(config, b, a)
    ensures NotAfter(config, a, b) && NotAfter(config, b, a) ==> a == b
  {
    StringLessTotal(a, b);
  }

  lemma NotAfterIsTransitive(config: Config, a: string, b: string, c: string)
    requires NotAfter(config, a, b) && NotAfter(config, b, c)
    ensures NotAfter(config, a, c)
  {
    if PriorityOf(config, a) == PriorityOf(config, b) == PriorityOf(config, c) && a != b && b != c {
      StringLessTransitive(a, b, c);
    }
  }

  ghost predicate InFailoverOrder(config: Config, names: seq<string>) {
    forall i, j | 0 <= i < j < |names| :: NotAfter(config, names[i], names[j])
  }

  function Insert(config: Config, name: string, names: seq<string>): seq<string> {
    if names == [] || NotAfter(config, name, names[0]) then [name] + names
    else [names[0]] + Insert(config, name, names[1..])
  }

  function SortNames(config: Config, names: seq<string>): seq<string> {
    if names == [] then [] else Insert(config, names[0], SortNames(config, names[1..]))
  }

  lemma {:induction false} InsertKeepsNames(config: Config, name: string, names: seq<string>)
    ensures multiset(Insert(config, name, names)) == multiset{name} + multiset(names)
  {
    if names != [] && !NotAfter(config, name, names[0]) {
      InsertKeepsNames(config, name, names[1..]);
      assert names == [names[0]] + names[1..];
    }
  }

  lemma {:induction false} InsertSorts(config: Config, name: string, names: seq<string>)
    requires InFailoverOrder(config, names)
    ensures InFailoverOrder(config, Insert(config, name, names))
  {
    if names == [] {
    } else if NotAfter(config, name, names[0]) {
      forall j | 0 <= j < |names|
        ensures NotAfter(config, name, names[j])
      {
        if j > 0 {
          NotAfterIsTransitive(config, name, names[0], names[j]);
        }
      }
    } else {
      var rest := Insert(config, name, names[1..]);
      InsertSorts(config, name, names[1..]);
      InsertKeepsNames(config, name, names[1..]);
      forall j | 0 <= j < |rest|
        ensures NotAfter(config, names[0], rest[j])
      {
        NotAfterIsTotal(config, name, names[0]);
        assert rest[j] in multiset(rest);
        if rest[j] != name {
          assert rest[j] in names[1..];
        }
      }
    }
  }

  lemma {:induction false} SortNamesSorts(config: Config, names: seq<string>)
    ensures InFailoverOrder(config, SortNames(config, names))
    ensures multiset(SortNames(config, names)) == multiset(names)
  {
    if names != [] {
      SortNamesSorts(config, names[1..]);
      InsertSorts(config, names[0], SortNames(config, names[1..]));
      InsertKeepsNames(config, names[0], SortNames(config, names[1..]));
      assert names == [names[0]] + names[1..];
    }
  }

  /** There is one way to put a collection of names in failover order. */
  lemma {:induction false} FailoverOrderIsUnique(config: Config, a: seq<string>, b: seq<string>)
    requires InFailoverOrder(config, a) && InFailoverOrder(config, b) && multiset(a) == multiset(b)
    ensures a == b
  {
    if a != [] || b != [] {
      SameFirst(config, a, b);
      RestOf(a);
      RestOf(b);
      FailoverOrderIsUnique(config, a[1..], b[1..]);
      assert a == [a[0]] + a[1..] && b == [b[0]] + b[1..];
    }
  }

  lemma SameFirst(config: Config, a: seq<string>, b: seq<string>)
    requires InFailoverOrder(config, a) && InFailoverOrder(config, b) && multiset(a) == multiset(b)
    requires a != [] || b != []
    ensures a != [] && b != [] && a[0] == b[0]
  {
    assert a != [] && b != [];
    assert a[0] in multiset(b);
    assert b[0] in multiset(a);
    FirstIsNotAfter(config, a, b[0]);
    FirstIsNotAfter(config, b, a[0]);
    NotAfterIsTotal(config, a[0], b[0]);
  }

  lemma RestOf(s: seq<string>)
    requires s != []
    ensures multiset(s[1..]) == multiset(s) - multiset{s[0]}
  {
    assert s == [s[0]] + s[1..];
  }

  lemma FirstIsNotAfter(config: Config, names: seq<string>, x: string)
    requires InFailoverOrder(config, names) && x in names
    ensures NotAfter(config, names[0], x)
  {
    NotAfterIsTotal(config, names[0], names[0]);
  }

  // ---- What the configuration declares ----

  function Declared(p: ProviderConfig, kind: ModelKind): seq<string> {
    if kind == Chat then p.models else p.embeddingModels
  }

  /** The map's names in some order: how the map happens to be walked. */
  ghost predicate Walks(names: seq<string>, config: Config) {
    Distinct(names) && forall n :: n in names <==> n in config
  }

  /** The names pushed for a model, in the order of the walk, once for each time a provider lists it. */
  function RouteOf(config: Config, names: seq<string>, model: string, kind: ModelKind): seq<string>
    requires forall n | n in names :: n in config
  {
    if names == [] then []
    else
      var last := names[|names| - 1];
      RouteOf(config, names[..|names| - 1], model, kind)
        + Repeat(last, multiset(Declared(config[last], kind))[model])
  }

  function Repeat(name: string, n: nat): seq<string> {
    if n == 0 then [] else Repeat(name, n - 1) + [name]
  }

  function FallbacksOf(config: Config, names: seq<string>): seq<string>
    requires forall n | n in names :: n in config
  {
    if names == [] then []
    else
      var last := names[|names| - 1];
      FallbacksOf(config, names[..|names| - 1]) + if config[last].fallback then [last] else []
  }

  function At(routes: Routes, model: string, kind: ModelKind): seq<string> {
    if (model, kind) in routes then routes[(model, kind)] else []
  }

  /** The registry of a configuration, when only some API keys are set. */
  ghost predicate IsRegistryOf(config: Config, names: seq<string>, hasKey: string -> bool, r: Registry)
    requires forall n | n in names :: n in config
  {
    && r.providers == (map n | n in config && hasKey(n) :: Provider(n, config[n].dialect))
    && (forall model, kind :: At(r.routes, model, kind) == SortNames(config, RouteOf(config, names, model, kind)))
    && (forall mk | mk in r.routes :: r.routes[mk] != [])
    && r.fallbacks == SortNames(config, FallbacksOf(config, names))
  }

  // ---- The walk does not matter ----

  lemma {:induction false} RepeatCounts(name: string, n: nat, x: string)
    ensures multiset(Repeat(name, n))[x] == if x == name then n else 0
  {
    if n > 0 {
      RepeatCounts(name, n - 1, x);
    }
  }

  lemma {:induction false} RouteCounts(config: Config, names: seq<string>, model: string, kind: ModelKind, x: string)
    requires Distinct(names) && forall n | n in names :: n in config
    ensures multiset(RouteOf(config, names, model, kind))[x]
      == if x in names then multiset(Declared(config[x], kind))[model] else 0
  {
    if names != [] {
      var front, last := names[..|names| - 1], names[|names| - 1];
      assert names == front + [last];
      RouteCounts(config, front, model, kind, x);
      RepeatCounts(last, multiset(Declared(config[last], kind))[model], x);
    }
  }

  lemma {:induction false} FallbackCounts(config: Config, names: seq<string>, x: string)
    requires Distinct(names) && forall n | n in names :: n in config
    ensures multiset(FallbacksOf(config, names))[x] == if x in names && config[x].fallback then 1 else 0
  {
    if names != [] {
      var front, last := names[..|names| - 1], names[|names| - 1];
      assert names == front + [last];
      FallbackCounts(config, front, x);
    }
  }

  lemma SameSorted(config: Config, a: seq<string>, b: seq<string>)
    requires forall x :: multiset(a)[x] == multiset(b)[x]
    ensures SortNames(config, a) == SortNames(config, b)
  {
    SortNamesSorts(config, a);
    SortNamesSorts(config, b);
    assert multiset(a) == multiset(b);
    FailoverOrderIsUnique(config, SortNames(config, a), SortNames(config, b));
  }

  /** However the configuration map is walked, the registry is the same. */
  lemma RegistryIgnoresTheWalk(
    config: Config, names1: seq<string>, names2: seq<string>, hasKey: string -> bool, r1: Registry, r2: Registry)
    requires Walks(names1, config) && Walks(names2, config)
    requires IsRegistryOf(config, names1, hasKey, r1) && IsRegistryOf(config, names2, hasKey, r2)
    ensures r1 == r2
  {
    forall model, kind
      ensures At(r1.routes, model, kind) == At(r2.routes, model, kind)
    {
      var (a, b) := (RouteOf(config, names1, model, kind), RouteOf(config, names2, model, kind));
      forall x ensures multiset(a)[x] == multiset(b)[x] {
        RouteCounts(config, names1, model, kind, x);
        RouteCounts(config, names2, model, kind, x);
      }
      SameSorted(config, a, b);
    }
    SameRoutes(r1.routes, r2.routes);
    forall x ensures multiset(FallbacksOf(config, names1))[x] == multiset(FallbacksOf(config, names2))[x] {
      FallbackCounts(config, names1, x);
      FallbackCounts(config, names2, x);
    }
    SameSorted(config, FallbacksOf(config, names1), FallbacksOf(config, names2));
  }

  lemma SameRoutes(a: Routes, b: Routes)
    requires forall model, kind :: At(a, model, kind) == At(b, model, kind)
    requires forall mk | mk in a :: a[mk] != []
    requires forall mk | mk in b :: b[mk] != []
    ensures a == b
  {
    forall mk: (string, ModelKind)
      ensures mk in a <==> mk in b
      ensures mk in a ==> a[mk] == b[mk]
    {
      assert At(a, mk.0, mk.1) == At(b, mk.0, mk.1);
    }
  }

  // ---- Candidates ----

  /** The named providers that are enabled, in the order of the names. */
  function Enabled(r: Registry, names: seq<string>): seq<Provider> {
    if names == [] then []
    else
      Enabled(r, names[..|names| - 1])
        + if names[|names| - 1] in r.providers then [r.providers[names[|names| - 1]]] else []
  }

  function ProvidersForModel(r: Registry, model: string, kind: ModelKind): seq<Provider> {
    var declared := Enabled(r, At(r.routes, model, kind));
    if declared != [] then declared else Enabled(r, r.fallbacks)
  }

  /** The provider has a key and lists the model for this kind of endpoint. */
  ghost predicate Serves(config: Config, hasKey: string -> bool, name: string, model: string, kind: ModelKind) {
    name in config && hasKey(name) && model in Declared(config[name], kind)
  }

  ghost predicate FallsBack(config: Config, hasKey: string -> bool, name: string) {
    name in config && hasKey(name) && config[name].fallback
  }

  ghost predicate IsCandidate(config: Config, hasKey: string -> bool, p: Provider, model: string, kind: ModelKind) {
    && p.name in config && p.dialect == config[p.name].dialect
    && if SomeServes(config, hasKey, model, kind) then Serves(config, hasKey, p.name, model, kind)
       else FallsBack(config, hasKey, p.name)
  }

  ghost predicate Ordered(config: Config, ps: seq<Provider>) {
    forall i, j | 0 <= i < j < |ps| :: NotAfter(config, ps[i].name, ps[j].name)
  }

  lemma {:induction false} EnabledAre(config: Config, hasKey: string -> bool, r: Registry, names: seq<string>)
    requires InFailoverOrder(config, names)
    requires r.providers == map n | n in config && hasKey(n) :: Provider(n, config[n].dialect)
    ensures Ordered(config, Enabled(r, names))
    ensures forall p :: p in Enabled(r, names) <==>
      p.name in names && p.name in config && hasKey(p.name) && p.dialect == config[p.name].dialect
  {
    if names != [] {
      var front, last := names[..|names| - 1], names[|names| - 1];
      assert names == front + [last];
      EnabledAre(config, hasKey, r, front);
      var rest := Enabled(r, front);
      forall i | 0 <= i < |rest|
        ensures NotAfter(config, rest[i].name, last)
      {
        assert rest[i] in rest;
        var k :| 0 <= k < |front| && front[k] == rest[i].name;
        assert names[k] == front[k];
      }
    }
  }

  /**
   * The candidates come lowest priority first and then by name; they are exactly the enabled providers that
   * list the model, or, when no enabled provider lists it, exactly the enabled fallback providers.
   */
  lemma CandidatesAreExact(
    config: Config, names: seq<string>, hasKey: string -> bool, r: Registry, model: string, kind: ModelKind)
    requires Walks(names, config) && IsRegistryOf(config, names, hasKey, r)
    ensures Ordered(config, ProvidersForModel(r, model, kind))
    ensures forall p :: p in ProvidersForModel(r, model, kind) <==> IsCandidate(config, hasKey, p, model, kind)
  {
    EnabledMembers(config, names, hasKey, r, model, kind);
    SomeDeclared(config, hasKey, Enabled(r, At(r.routes, model, kind)), model, kind);
  }

  ghost predicate SomeServes(config: Config, hasKey: string -> bool, model: string, kind: ModelKind) {
    exists n :: Serves(config, hasKey, n, model, kind)
  }

  lemma SomeDeclared(config: Config, hasKey: string -> bool, declared: seq<Provider>, model: string, kind: ModelKind)
    requires forall p :: p in declared <==>
      Serves(config, hasKey, p.name, model, kind) && p.dialect == config[p.name].dialect
    ensures declared != [] <==> SomeServes(config, hasKey, model, kind)
  {
    if n :| Serves(config, hasKey, n, model, kind) {
      assert Provider(n, config[n].dialect) in declared;
    }
    if declared != [] {
      assert declared[0] in declared;
    }
  }

  lemma EnabledMembers(
    config: Config, names: seq<string>, hasKey: string -> bool, r: Registry, model: string, kind: ModelKind)
    requires Walks(names, config) && IsRegistryOf(config, names, hasKey, r)
    ensures Ordered(config, Enabled(r, At(r.routes, model, kind))) && Ordered(config, Enabled(r, r.fallbacks))
    ensures forall p :: p in Enabled(r, At(r.routes, model, kind)) <==>
      Serves(config, hasKey, p.name, model, kind) && p.dialect == config[p.name].dialect
    ensures forall p :: p in Enabled(r, r.fallbacks) <==>
      FallsBack(config, hasKey, p.name) && p.dialect == config[p.name].dialect
  {
    RouteHolds(config, names, hasKey, r, model, kind);
    EnabledAre(config, hasKey, r, At(r.routes, model, kind));
    EnabledAre(config, hasKey, r, r.fallbacks);
  }

  lemma RouteHolds(
    config: Config, names: seq<string>, hasKey: string -> bool, r: Registry, model: string, kind: ModelKind)
    requires Walks(names, config) && IsRegistryOf(config, names, hasKey, r)
    ensures InFailoverOrder(config, At(r.routes, model, kind)) && InFailoverOrder(config, r.fallbacks)
    ensures forall n :: n in At(r.routes, model, kind) <==> n in config && model in Declared(config[n], kind)
    ensures forall n :: n in r.fallbacks <==> n in config && config[n].fallback
  {
    var pushed, backs := RouteOf(config, names, model, kind), FallbacksOf(config, names);
    SortNamesSorts(config, pushed);
    SortNamesSorts(config, backs);
    forall n
      ensures n in At(r.routes, model, kind) <==> n in config && model in Declared(config[n], kind)
      ensures n in r.fallbacks <==> n in config && config[n].fallback
    {
      RouteCounts(config, names, model, kind, n);
      FallbackCounts(config, names, n);
      assert multiset(SortNames(config, pushed))[n] == multiset(pushed)[n];
      assert multiset(SortNames(config, backs))[n] == multiset(backs)[n];
    }
  }

  // ---- Building the registry ----

  ghost predicate NoEmptyRoute(routes: Routes) {
    forall mk | mk in routes :: routes[mk] != []
  }

  function Times(name: string, models: seq<string>, model: string): seq<string> {
    Repeat(name, multiset(models)[model])
  }

  /** A route after `name` is pushed once for each model listed. */
  function Grown(
    routes: Routes, name: string, models: seq<string>, kind: ModelKind, m: string, k: ModelKind): seq<string>
  {
    if k == kind then At(routes, m, k) + Times(name, models, m) else At(routes, m, k)
  }

  ghost predicate Pushed(routes: Routes, more: Routes, name: string, models: seq<string>, kind: ModelKind) {
    forall m, k :: At(more, m, k) == Grown(routes, name, models, kind, m, k)
  }

  lemma PushOneAt(
    routes: Routes, more: Routes, name: string, models: seq<string>, kind: ModelKind, model: string,
    m: string, k: ModelKind)
    requires At(more, m, k) == Grown(routes, name, models, kind, m, k)
    ensures At(more[(model, kind) := At(more, model, kind) + [name]], m, k)
      == Grown(routes, name, models + [model], kind, m, k)
  {
    AtUpdated(more, model, kind, At(more, model, kind) + [name], m, k);
    TimesStep(name, models, model, m);
  }

  lemma PushOne(routes: Routes, more: Routes, name: string, models: seq<string>, kind: ModelKind, model: string)
    requires Pushed(routes, more, name, models, kind)
    ensures Pushed(routes, more[(model, kind) := At(more, model, kind) + [name]], name, models + [model], kind)
  {
    forall m, k
      ensures At(more[(model, kind) := At(more, model, kind) + [name]], m, k)
        == Grown(routes, name, models + [model], kind, m, k)
    {
      PushOneAt(routes, more, name, models, kind, model, m, k);
    }
  }

  lemma AtUpdated(routes: Routes, model: string, kind: ModelKind, names: seq<string>, m: string, k: ModelKind)
    ensures At(routes[(model, kind) := names], m, k) == if m == model && k == kind then names else At(routes, m, k)
  {
  }

  lemma TimesStep(name: string, models: seq<string>, model: string, m: string)
    ensures Times(name, models + [model], m) == Times(name, models, m) + if m == model then [name] else []
  {
    assert multiset(models + [model])[m] == multiset(models)[m] + if m == model then 1 else 0;
  }

  /** Pushes `name` on the route of each listed model. */
  method Push(routes: Routes, name: string, models: seq<string>, kind: ModelKind) returns (more: Routes)
    requires NoEmptyRoute(routes)
    ensures NoEmptyRoute(more) && Pushed(routes, more, name, models, kind)
  {
    more := routes;
    PushNone(routes, name, kind);
    for i := 0 to |models|
      invariant NoEmptyRoute(more) && Pushed(routes, more, name, models[..i], kind)
    {
      assert models[..i + 1] == models[..i] + [models[i]];
      PushOne(routes, more, name, models[..i], kind, models[i]);
      more := more[(models[i], kind) := At(more, models[i], kind) + [name]];
    }
    assert models[..|models|] == models;
  }

  lemma PushNone(routes: Routes, name: string, kind: ModelKind)
    ensures Pushed(routes, routes, name, [], kind)
  {
    assert forall m, k :: At(routes, m, k) + [] == At(routes, m, k);
  }

  ghost predicate RoutesAfter(config: Config, names: seq<string>, routes: Routes)
    requires forall n | n in names :: n in config
  {
    NoEmptyRoute(routes) && forall m, k :: At(routes, m, k) == RouteOf(config, names, m, k)
  }

  ghost predicate ProvidersAfter(
    config: Config, names: seq<string>, hasKey: string -> bool, providers: map<string, Provider>)
    requires forall n | n in names :: n in config
  {
    forall n :: Get(providers, n) == if n in names && hasKey(n) then Some(Provider(n, config[n].dialect)) else None
  }

  method PushDeclared(config: Config, ghost names: seq<string>, name: string, before: Routes) returns (routes: Routes)
    requires name in config && (forall n | n in names :: n in config) && RoutesAfter(config, names, before)
    ensures RoutesAfter(config, names + [name], routes)
  {
    var chat := Push(before, name, config[name].models, Chat);
    routes := Push(chat, name, config[name].embeddingModels, Embedding);
    forall m, k
      ensures At(routes, m, k) == RouteOf(config, names + [name], m, k)
    {
      assert At(routes, m, k) == Grown(chat, name, config[name].embeddingModels, Embedding, m, k);
      assert At(chat, m, k) == Grown(before, name, config[name].models, Chat, m, k);
      RouteStep(config, names, name, m, k);
    }
  }

  lemma RouteStep(config: Config, names: seq<string>, name: string, m: string, k: ModelKind)
    requires name in config && forall n | n in names :: n in config
    ensures RouteOf(config, names + [name], m, k) ==
            RouteOf(config, names, m, k) + Times(name, Declared(config[name], k), m)
  {
    assert (names + [name])[..|names|] == names;
  }

  /** `names` is the order in which the configuration map happens to be walked. */
  method FromConfig(config: Config, names: seq<string>, hasKey: string -> bool) returns (r: Registry)
    requires Walks(names, config)
    ensures IsRegistryOf(config, names, hasKey, r)
  {
    var providers: map<string, Provider> := map[];
    var routes: Routes := map[];
    var fallbacks: seq<string> := [];
    for i := 0 to |names|
      invariant ProvidersAfter(config, names[..i], hasKey, providers)
      invariant RoutesAfter(config, names[..i], routes)
      invariant fallbacks == FallbacksOf(config, names[..i])
    {
      var name := names[i];
      assert names[..i + 1] == names[..i] + [name];
      if config[name].fallback {
        fallbacks := fallbacks + [name];
      }
      routes := PushDeclared(config, names[..i], name, routes);
      ProvidersStep(config, names[..i], hasKey, providers, name);
      if hasKey(name) {
        providers := providers[name := Provider(name, config[name].dialect)];
      }
    }
    assert names[..|names|] == names;
    var sorted := map mk | mk in routes :: SortNames(config, routes[mk]);
    SortedRoutes(config, routes, sorted);
    AllProviders(config, names, hasKey, providers);
    r := Registry(providers, sorted, SortNames(config, fallbacks));
  }

  lemma ProvidersStep(
    config: Config, names: seq<string>, hasKey: string -> bool, providers: map<string, Provider>, name: string)
    requires name in config && (forall n | n in names :: n in config)
    requires ProvidersAfter(config, names, hasKey, providers)
    ensures ProvidersAfter(config, names + [name], hasKey,
              if hasKey(name) then providers[name := Provider(name, config[name].dialect)] else providers)
  {
    var more := if hasKey(name) then providers[name := Provider(name, config[name].dialect)] else providers;
    forall n
      ensures Get(more, n) == if n in names + [name] && hasKey(n) then Some(Provider(n, config[n].dialect)) else None
    {
      assert Get(providers, n) == if n in names && hasKey(n) then Some(Provider(n, config[n].dialect)) else None;
    }
  }

  lemma AllProviders(config: Config, names: seq<string>, hasKey: string -> bool, providers: map<string, Provider>)
    requires Walks(names, config) && ProvidersAfter(config, names, hasKey, providers)
    ensures providers == map n | n in config && hasKey(n) :: Provider(n, config[n].dialect)
  {
    var all := map n | n in config && hasKey(n) :: Provider(n, config[n].dialect);
    forall n
      ensures Get(providers, n) == Get(all, n)
    {
      assert Get(providers, n) == if n in names && hasKey(n) then Some(Provider(n, config[n].dialect)) else None;
    }
    SameGets(providers, all);
  }

  lemma SortedRoutes(config: Config, routes: Routes, sorted: Routes)
    requires sorted == map mk | mk in routes :: SortNames(config, routes[mk])
    requires NoEmptyRoute(routes)
    ensures forall m, k :: At(sorted, m, k) == SortNames(config, At(routes, m, k))
    ensures NoEmptyRoute(sorted)
  {
    forall mk | mk in sorted
      ensures sorted[mk] != []
    {
      SortNamesSorts(config, routes[mk]);
      assert routes[mk][0] in multiset(sorted[mk]);
    }
  }
}
