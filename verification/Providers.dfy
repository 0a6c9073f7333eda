/**
 The provider lifecycle of `mass.py`: unloading a provider unloads everything that depends on it
 first, loading checks the instance limit and the dependency. Operations are atomic.
 */
module Providers {
  import opened Wrappers

  datatype Manifest = Manifest(multiInstance: bool, dependsOn: Option<string>)

  datatype Provider = Provider(instanceId: string, domain: string, available: bool, streaming: bool)

  /** The known manifests by domain; `height` ranks the domains when dependencies are acyclic. */
  datatype Catalog = Catalog(manifests: map<string, Manifest>, height: string -> nat)

  type Loaded = map<string, Provider>

  function DependencyOf(c: Catalog, domain: string): Option<string> {
    if domain in c.manifests then c.manifests[domain].dependsOn else None
  }

  ghost predicate Acyclic(c: Catalog) {
    forall d: string | d in c.manifests && c.manifests[d].dependsOn.Some? ::
      c.height(d) < c.height(c.manifests[d].dependsOn.value)
  }

  predicate DependsOn(c: Catalog, q: Provider, p: Provider) {
    DependencyOf(c, q.domain) == Some(p.domain)
  }

  /** `q` is `p`, or depends on it through a chain of loaded providers. */
  ghost predicate Needs(c: Catalog, ps: set<Provider>, q: Provider, p: Provider)
    requires Acyclic(c)
    decreases c.height(p.domain)
  {
    q == p || exists d | d in ps && DependsOn(c, d, p) :: Needs(c, ps, q, d)
  }

  ghost predicate Keyed(m: Loaded) {
    forall id | id in m :: m[id].instanceId == id
  }

  /** `p` and all that needs it. */
  ghost function Cascade(c: Catalog, ps: set<Provider>, p: Provider): set<Provider>
    requires Acyclic(c)
  {
    set q | q in ps && Needs(c, ps, q, p)
  }

  ghost function Without(m: Loaded, gone: set<Provider>): Loaded {
    map id | id in m && m[id] !in gone :: m[id]
  }

  ghost function AfterUnload(c: Catalog, m: Loaded, id: string): Loaded
    requires Acyclic(c)
  {
    if id in m then Without(m, Cascade(c, m.Values, m[id])) else m
  }

  // ----- how the cascade behaves

  lemma {:induction false} NeedsIsLower(c: Catalog, ps: set<Provider>, q: Provider, p: Provider)
    requires Acyclic(c) && Needs(c, ps, q, p)
    ensures q == p || c.height(q.domain) < c.height(p.domain)
    decreases c.height(p.domain)
  {
    if q != p {
      var d :| d in ps && DependsOn(c, d, p) && Needs(c, ps, q, d);
      NeedsIsLower(c, ps, q, d);
    }
  }

  /** A dependent of something in a cascade is in the cascade. */
  lemma {:induction false} NeedsExtends(c: Catalog, ps: set<Provider>, r: Provider, q: Provider, p: Provider)
    requires Acyclic(c) && Needs(c, ps, q, p) && r in ps && DependsOn(c, r, q)
    ensures Needs(c, ps, r, p)
    decreases c.height(p.domain)
  {
    if q == p {
      assert Needs(c, ps, r, r);
    } else {
      var d :| d in ps && DependsOn(c, d, p) && Needs(c, ps, q, d);
      NeedsExtends(c, ps, r, q, d);
    }
  }

  /** What has gone took its dependents along. */
  ghost predicate Closed(c: Catalog, ps: set<Provider>, left: set<Provider>) {
    left <= ps && forall a, b | a in ps && b in left && DependsOn(c, b, a) :: a in left
  }

  /** Among what is left, needing is as it was. */
  lemma {:induction false} NeedsIsLocal(c: Catalog, ps: set<Provider>, left: set<Provider>, q: Provider, p: Provider)
    requires Acyclic(c) && Closed(c, ps, left) && q in left && p in ps
    ensures Needs(c, ps, q, p) ==> p in left
    ensures Needs(c, ps, q, p) <==> p in left && Needs(c, left, q, p)
    decreases c.height(p.domain)
  {
    forall d | d in ps && DependsOn(c, d, p) {
      NeedsIsLocal(c, ps, left, q, d);
    }
  }

  /** Loaded providers, each of which names the domain of the one before it as its dependency. */
  ghost predicate IsChain(c: Catalog, ps: set<Provider>, chain: seq<Provider>) {
    forall i | 0 < i < |chain| ::
      && chain[i] in ps && chain[i].domain in c.manifests
      && c.manifests[chain[i].domain].dependsOn == Some(chain[i - 1].domain)
  }

  /** A chain of dependents leads from `p` to `q`. */
  ghost predicate Reaches(c: Catalog, ps: set<Provider>, p: Provider, q: Provider) {
    exists chain :: chain != [] && chain[0] == p && chain[|chain| - 1] == q && IsChain(c, ps, chain)
  }

  lemma {:induction false} NeedsHasChain(c: Catalog, ps: set<Provider>, q: Provider, p: Provider)
    requires Acyclic(c) && Needs(c, ps, q, p)
    ensures Reaches(c, ps, p, q)
    decreases c.height(p.domain)
  {
    if q == p {
      assert IsChain(c, ps, [p]);
    } else {
      var d :| d in ps && DependsOn(c, d, p) && Needs(c, ps, q, d);
      NeedsHasChain(c, ps, q, d);
      var chain :| chain != [] && chain[0] == d && chain[|chain| - 1] == q && IsChain(c, ps, chain);
      assert IsChain(c, ps, [p] + chain);
    }
  }

  lemma {:induction false} ChainNeeds(c: Catalog, ps: set<Provider>, chain: seq<Provider>)
    requires Acyclic(c) && chain != [] && IsChain(c, ps, chain)
    ensures Needs(c, ps, chain[|chain| - 1], chain[0])
  {
    if |chain| > 1 {
      assert IsChain(c, ps, chain[1..]);
      ChainNeeds(c, ps, chain[1..]);
      assert DependsOn(c, chain[1], chain[0]);
    }
  }

  /** Exactly the providers that no chain of dependents reaches are left, as they were. */
  lemma UnloadedByChain(c: Catalog, m: Loaded, id: string, k: string)
    requires Acyclic(c) && Keyed(m)
    ensures k in AfterUnload(c, m, id) <==> k in m && (id in m ==> !Reaches(c, m.Values, m[id], m[k]))
    ensures k in AfterUnload(c, m, id) ==> AfterUnload(c, m, id)[k] == m[k]
  {
    hide Needs, IsChain;
    if id in m && k in m {
      assert m[k] in m.Values;
      if Needs(c, m.Values, m[k], m[id]) { NeedsHasChain(c, m.Values, m[k], m[id]); }
      if chain :| chain != [] && chain[0] == m[id] && chain[|chain| - 1] == m[k] && IsChain(c, m.Values, chain) {
        ChainNeeds(c, m.Values, chain);
      }
    }
  }

  lemma CascadeIsClosed(c: Catalog, ps: set<Provider>, left: set<Provider>, p: Provider)
    requires Acyclic(c) && Closed(c, ps, left)
    ensures Closed(c, ps, left - Cascade(c, left, p))
  {
    forall a, b | a in ps && b in left - Cascade(c, left, p) && DependsOn(c, b, a) ensures a !in Cascade(c, left, p) {
      if a in Cascade(c, left, p) { NeedsExtends(c, left, b, a, p); }
    }
  }

  // ----- a cascade under way

  /** Everything in `log` is unloaded before what it depends on. */
  ghost predicate DependentsFirst(c: Catalog, log: seq<Provider>) {
    forall i, j | 0 <= i < j < |log| :: !DependsOn(c, log[j], log[i])
  }

  ghost predicate Distinct(log: seq<Provider>) {
    forall i, j | 0 <= i < j < |log| :: log[i] != log[j]
  }

  /** `log` lists what was unloaded between `before` and `after`, in order. */
  ghost predicate Logs(c: Catalog, before: Loaded, after: Loaded, log: seq<Provider>) {
    && (forall p :: p in log <==> p in before.Values && p !in after.Values)
    && Distinct(log) && DependentsFirst(c, log)
  }

  ghost predicate Submap(m: Loaded, n: Loaded) {
    forall id | id in m :: id in n && m[id] == n[id]
  }

  /** Only things that need `provider` have gone so far, each with its dependents. */
  ghost predicate UnderWay(c: Catalog, before: Loaded, now: Loaded, provider: Provider, log: seq<Provider>)
    requires Acyclic(c)
  {
    && Keyed(before) && Submap(now, before)
    && provider in now.Values
    && Closed(c, before.Values, now.Values)
    && (forall x | x in before.Values && x !in now.Values :: x != provider && Needs(c, before.Values, x, provider))
    && Logs(c, before, now, log)
  }

  lemma KeyedValues(m: Loaded, x: Provider)
    requires Keyed(m)
    ensures x in m.Values <==> x.instanceId in m && m[x.instanceId] == x
  {
  }

  lemma LogsConcat(c: Catalog, before: Loaded, now: Loaded, after: Loaded, log: seq<Provider>, more: seq<Provider>)
    requires Keyed(before) && Submap(now, before) && Submap(after, now)
    requires Closed(c, before.Values, now.Values)
    requires Logs(c, before, now, log) && Logs(c, now, after, more)
    ensures Logs(c, before, after, log + more)
  {
    var all := log + more;
    forall i, j | 0 <= i < j < |all| ensures all[i] != all[j] && !DependsOn(c, all[j], all[i]) {
      if i < |log| <= j {
        assert all[i] in log && all[j] in more;
      }
    }
    assert forall p :: p in all <==> p in log || p in more;
  }

  /** One dependent is unloaded, if it still is loaded. */
  lemma UnloadKeepsUnderWay(c: Catalog, before: Loaded, now: Loaded, provider: Provider, log: seq<Provider>,
                            d: Provider, after: Loaded, more: seq<Provider>)
    requires Acyclic(c) && UnderWay(c, before, now, provider, log)
    requires d in before.Values && DependsOn(c, d, provider)
    requires after == AfterUnload(c, now, d.instanceId) && Logs(c, now, after, more)
    ensures UnderWay(c, before, after, provider, log + more)
    ensures d !in after.Values && after.Values <= now.Values
  {
    var all, left := before.Values, now.Values;
    KeyedValues(before, d);
    KeyedValues(now, d);
    assert Submap(after, now);
    LogsConcat(c, before, now, after, log, more);
    if d in left {
      var gone := Cascade(c, left, d);
      ValuesWithout(now, gone);
      CascadeIsClosed(c, all, left, d);
      forall x | x in gone ensures x != provider && Needs(c, all, x, provider) {
        NeedsIsLocal(c, all, left, x, d);
        NeedsIsLower(c, left, x, d);
      }
      assert d in gone by { assert Needs(c, left, d, d); }
    } else {
      assert after == now;
    }
  }

  lemma ValuesWithout(m: Loaded, gone: set<Provider>)
    requires Keyed(m)
    ensures Without(m, gone).Values == m.Values - gone
  {
    var n := Without(m, gone);
    forall x | x in m.Values - gone ensures x in n.Values {
      KeyedValues(m, x);
      assert n[x.instanceId] == x;
    }
  }

  /** With no direct dependent left, only the provider itself is still to go. */
  lemma LastToGo(c: Catalog, before: Loaded, now: Loaded, provider: Provider, log: seq<Provider>, x: Provider)
    requires Acyclic(c) && UnderWay(c, before, now, provider, log)
    requires forall d | d in now.Values :: !DependsOn(c, d, provider)
    requires x in before.Values
    ensures Needs(c, before.Values, x, provider) <==> x !in now.Values || x == provider
  {
    if x in now.Values && x != provider {
      forall d | d in before.Values && DependsOn(c, d, provider) ensures !Needs(c, before.Values, x, d) {
        NeedsIsLocal(c, before.Values, now.Values, x, d);
      }
    }
  }

  lemma FinishUnderWay(c: Catalog, before: Loaded, now: Loaded, provider: Provider, log: seq<Provider>)
    requires Acyclic(c) && UnderWay(c, before, now, provider, log)
    requires forall d | d in now.Values :: !DependsOn(c, d, provider)
    ensures now - {provider.instanceId} == AfterUnload(c, before, provider.instanceId)
  {
    hide Needs, Closed, Logs, DependsOn;
    KeyedValues(now, provider);
    var after := now - {provider.instanceId};
    forall k | k in before ensures k in after <==> before[k] !in Cascade(c, before.Values, provider) {
      LastToGo(c, before, now, provider, log, before[k]);
      KeyedValues(now, before[k]);
    }
    assert after == AfterUnload(c, before, provider.instanceId);
  }

  lemma LogFinishes(c: Catalog, before: Loaded, now: Loaded, provider: Provider, log: seq<Provider>)
    requires Acyclic(c) && UnderWay(c, before, now, provider, log)
    ensures Logs(c, before, now - {provider.instanceId}, log + [provider])
  {
    var after, more := now - {provider.instanceId}, log + [provider];
    forall x ensures x in after.Values <==> x in now.Values && x != provider {
      KeyedValues(now, x);
      KeyedValues(after, x);
    }
    forall x | x in log ensures !DependsOn(c, provider, x) {
      NeedsIsLower(c, before.Values, x, provider);
    }
    assert forall p :: p in more <==> p in log || p == provider;
    assert forall i | 0 <= i < |log| :: more[i] == log[i] && log[i] in log;
  }

  // ----- loading

  datatype Conf = Conf(instanceId: string, domain: string, enabled: bool, streaming: bool)

  /** What the code of the provider itself does: its setup, and the steps once it is registered. */
  datatype Setup = SetupRaises | FinishRaises | Succeeds

  datatype LoadError = ProviderDisabled | OnlyOneInstance | ManifestNotFound | SetupFailed

  /** `found` is by instance id first, then by domain; only an available provider counts. */
  ghost predicate Finds(m: Loaded, name: string, found: Provider) {
    && found in m.Values && found.available
    && if name in m && m[name].available then found == m[name]
       else if name in m then m[name].streaming && found.domain == m[name].domain
       else found.domain == name
  }

  ghost predicate CanFind(m: Loaded, name: string) {
    exists p :: Finds(m, name, p)
  }

  ghost predicate HasDomain(m: Loaded, domain: string) {
    exists p | p in m.Values :: p.domain == domain
  }

  ghost predicate Refuses(c: Catalog, m: Loaded, conf: Conf) {
    || !conf.enabled
    || conf.domain !in c.manifests
    || (HasDomain(m, conf.domain) && !c.manifests[conf.domain].multiInstance)
    || (c.manifests[conf.domain].dependsOn.Some? && !CanFind(m, c.manifests[conf.domain].dependsOn.value))
  }

  /** The outcome of a load, from what the unload before it has left. */
  ghost function LoadResult(c: Catalog, left: Loaded, conf: Conf, setup: Setup): Result<bool, LoadError> {
    if !conf.enabled then Failure(ProviderDisabled)
    else if conf.domain !in c.manifests then Failure(ManifestNotFound)
    else if !c.manifests[conf.domain].multiInstance && exists id | id in left :: left[id].domain == conf.domain then
      Failure(OnlyOneInstance)
    else if c.manifests[conf.domain].dependsOn.Some? && !CanFind(left, c.manifests[conf.domain].dependsOn.value) then
      Success(false)
    else if setup.Succeeds? then Success(true)
    else Failure(SetupFailed)
  }

  function Instance(conf: Conf): Provider {
    Provider(conf.instanceId, conf.domain, true, conf.streaming)
  }

  ghost function AfterLoad(c: Catalog, m: Loaded, conf: Conf, setup: Setup): Loaded
    requires Acyclic(c)
  {
    var u := AfterUnload(c, m, conf.instanceId);
    if Refuses(c, u, conf) || setup.SetupRaises? then u
    else if setup.FinishRaises? then AfterUnload(c, u[conf.instanceId := Instance(conf)], conf.instanceId)
    else u[conf.instanceId := Instance(conf)]
  }

  // ----- what every run keeps

  /** The dependency domain of a loaded provider is loaded. */
  ghost predicate DependenciesLoaded(c: Catalog, m: Loaded) {
    forall q | q in m.Values && DependencyOf(c, q.domain).Some? :: HasDomain(m, DependencyOf(c, q.domain).value)
  }

  /** A domain that does not allow several instances has at most one. */
  ghost predicate InstanceLimit(c: Catalog, m: Loaded) {
    forall p, q | p in m.Values && q in m.Values && p.domain == q.domain ::
      p.domain in c.manifests && (!c.manifests[p.domain].multiInstance ==> p == q)
  }

  predicate IsDomain(c: Catalog, name: string) {
    name in c.manifests || exists d | d in c.manifests :: c.manifests[d].dependsOn == Some(name)
  }

  /** An instance id is its domain, or its domain with a suffix: it never names another domain. */
  predicate ProperId(c: Catalog, id: string, domain: string) {
    IsDomain(c, id) ==> domain == id
  }

  ghost predicate Inv(c: Catalog, m: Loaded) {
    && Keyed(m) && DependenciesLoaded(c, m) && InstanceLimit(c, m)
    && forall id | id in m :: ProperId(c, id, m[id].domain)
  }

  lemma UnloadRemoves(c: Catalog, m: Loaded, id: string)
    requires Acyclic(c)
    ensures id !in AfterUnload(c, m, id)
  {
    if id in m { assert Needs(c, m.Values, m[id], m[id]); }
  }

  lemma UnloadKeeps(c: Catalog, m: Loaded, id: string)
    requires Acyclic(c) && Inv(c, m)
    ensures Inv(c, AfterUnload(c, m, id)) && id !in AfterUnload(c, m, id)
  {
    if id in m {
      var p, n := m[id], AfterUnload(c, m, id);
      var gone := Cascade(c, m.Values, p);
      ValuesWithout(m, gone);
      assert Needs(c, m.Values, p, p);
      forall q | q in n.Values && DependencyOf(c, q.domain).Some?
        ensures HasDomain(n, DependencyOf(c, q.domain).value)
      {
        var r :| r in m.Values && r.domain == DependencyOf(c, q.domain).value;
        if r in gone { NeedsExtends(c, m.Values, q, r, p); }
      }
    }
  }

  /** With proper ids, what the lookup of a domain finds is of that domain. */
  lemma LookupFindsDomain(c: Catalog, m: Loaded, domain: string)
    requires Inv(c, m) && IsDomain(c, domain) && CanFind(m, domain)
    ensures HasDomain(m, domain)
  {
    var p :| Finds(m, domain, p);
    assert p in m.Values && p.domain == domain;
  }

  lemma RegisterKeeps(c: Catalog, m: Loaded, conf: Conf)
    requires Inv(c, m) && conf.instanceId !in m && !Refuses(c, m, conf) && ProperId(c, conf.instanceId, conf.domain)
    ensures Inv(c, m[conf.instanceId := Instance(conf)])
  {
    hide CanFind, Finds, InstanceLimit;
    var n := m[conf.instanceId := Instance(conf)];
    LimitSurvivesRegister(c, m, conf);
    forall x ensures x in n.Values <==> x in m.Values || x == Instance(conf) {
      KeyedValues(m, x);
      KeyedValues(n, x);
    }
    var needed := DependencyOf(c, conf.domain);
    if needed.Some? { LookupFindsDomain(c, m, needed.value); }
    forall d | HasDomain(m, d) ensures HasDomain(n, d) {
      var r :| r in m.Values && r.domain == d;
      assert r in n.Values;
    }
  }

  datatype Event = Unload(id: string) | Load(conf: Conf, setup: Setup) | Availability(id: string, available: bool)

  ghost function Apply(c: Catalog, m: Loaded, e: Event): Loaded
    requires Acyclic(c)
  {
    match e
    case Unload(id) => AfterUnload(c, m, id)
    case Load(conf, setup) => AfterLoad(c, m, conf, setup)
    case Availability(id, available) => if id in m then m[id := m[id].(available := available)] else m
  }

  ghost function AfterRun(c: Catalog, events: seq<Event>): Loaded
    requires Acyclic(c)
  {
    if events == [] then map[] else Apply(c, AfterRun(c, events[..|events| - 1]), events[|events| - 1])
  }

  lemma LoadKeeps(c: Catalog, m: Loaded, conf: Conf, setup: Setup)
    requires Acyclic(c) && Inv(c, m) && ProperId(c, conf.instanceId, conf.domain)
    ensures Inv(c, AfterLoad(c, m, conf, setup))
  {
    UnloadKeeps(c, m, conf.instanceId);
    var u := AfterUnload(c, m, conf.instanceId);
    if !Refuses(c, u, conf) {
      RegisterKeeps(c, u, conf);
      UnloadKeeps(c, u[conf.instanceId := Instance(conf)], conf.instanceId);
    }
  }

  lemma AvailabilityKeeps(c: Catalog, m: Loaded, id: string, available: bool)
    requires Inv(c, m) && id in m
    ensures Inv(c, m[id := m[id].(available := available)])
  {
    var p, q := m[id], m[id].(available := available);
    var n := m[id := q];
    forall x ensures x in n.Values <==> (x in m.Values && x != p) || x == q {
      KeyedValues(m, x);
      KeyedValues(n, x);
    }
    forall d | HasDomain(m, d) ensures HasDomain(n, d) {
      var r :| r in m.Values && r.domain == d;
      assert (if r == p then q else r) in n.Values;
    }
    assert p in m.Values;
    LimitSurvivesAvailability(c, m, id, available);
    hide InstanceLimit;
  }

  /** Unloading never adds a provider, and a load that is not refused adds the first of its domain. */
  lemma LimitSurvivesLoad(c: Catalog, m: Loaded, conf: Conf, setup: Setup)
    requires Acyclic(c) && Keyed(m) && InstanceLimit(c, m)
    ensures Keyed(AfterLoad(c, m, conf, setup)) && InstanceLimit(c, AfterLoad(c, m, conf, setup))
  {
    var u := AfterUnload(c, m, conf.instanceId);
    LimitSurvivesUnload(c, m, conf.instanceId);
    UnloadRemoves(c, m, conf.instanceId);
    if !Refuses(c, u, conf) {
      LimitSurvivesRegister(c, u, conf);
      LimitSurvivesUnload(c, u[conf.instanceId := Instance(conf)], conf.instanceId);
    }
  }

  lemma LimitSurvivesRegister(c: Catalog, m: Loaded, conf: Conf)
    requires Keyed(m) && InstanceLimit(c, m) && conf.instanceId !in m && !Refuses(c, m, conf)
    ensures Keyed(m[conf.instanceId := Instance(conf)]) && InstanceLimit(c, m[conf.instanceId := Instance(conf)])
  {
    hide CanFind;
    var n := m[conf.instanceId := Instance(conf)];
    forall x ensures x in n.Values <==> x in m.Values || x == Instance(conf) {
      KeyedValues(m, x);
      KeyedValues(n, x);
    }
  }

  lemma LimitSurvivesUnload(c: Catalog, m: Loaded, id: string)
    requires Acyclic(c) && Keyed(m) && InstanceLimit(c, m)
    ensures Keyed(AfterUnload(c, m, id)) && InstanceLimit(c, AfterUnload(c, m, id))
  {
    if id in m { ValuesWithout(m, Cascade(c, m.Values, m[id])); }
  }

  /** On every run, whatever the ids, a domain that does not allow several instances has at most one. */
  lemma {:induction false} LimitHoldsOnEveryRun(c: Catalog, events: seq<Event>)
    requires Acyclic(c)
    ensures Keyed(AfterRun(c, events)) && InstanceLimit(c, AfterRun(c, events))
  {
    if events != [] {
      var init, e := events[..|events| - 1], events[|events| - 1];
      LimitHoldsOnEveryRun(c, init);
      var m := AfterRun(c, init);
      hide AfterUnload, AfterLoad;
      match e
      case Unload(id) => LimitSurvivesUnload(c, m, id);
      case Load(conf, setup) => LimitSurvivesLoad(c, m, conf, setup);
      case Availability(id, available) =>
        if id in m { LimitSurvivesAvailability(c, m, id, available); }
    }
  }

  lemma LimitSurvivesAvailability(c: Catalog, m: Loaded, id: string, available: bool)
    requires Keyed(m) && InstanceLimit(c, m) && id in m
    ensures Keyed(m[id := m[id].(available := available)])
    ensures InstanceLimit(c, m[id := m[id].(available := available)])
  {
    var p, q := m[id], m[id].(available := available);
    var n := m[id := q];
    forall x ensures x in n.Values <==> (x in m.Values && x != p) || x == q {
      KeyedValues(m, x);
      KeyedValues(n, x);
    }
    assert p in m.Values;
    forall x, y | x in n.Values && y in n.Values && x.domain == y.domain
      ensures x.domain in c.manifests && (!c.manifests[x.domain].multiInstance ==> x == y)
    {
      var x', y' := if x == q then p else x, if y == q then p else y;
      assert x' in m.Values && y' in m.Values;
    }
  }

  /** On every run, dependencies of loaded providers are loaded and the instance limits are met. */
  lemma {:induction false} RunKeeps(c: Catalog, events: seq<Event>)
    requires Acyclic(c)
    requires forall e | e in events && e.Load? :: ProperId(c, e.conf.instanceId, e.conf.domain)
    ensures Inv(c, AfterRun(c, events))
  {
    if events != [] {
      var init, e := events[..|events| - 1], events[|events| - 1];
      assert e in events && forall x | x in init :: x in events;
      RunKeeps(c, init);
      match e
      case Unload(id) => UnloadKeeps(c, AfterRun(c, init), id);
      case Load(conf, setup) => LoadKeeps(c, AfterRun(c, init), conf, setup);
      case Availability(id, available) =>
        if id in AfterRun(c, init) { AvailabilityKeeps(c, AfterRun(c, init), id, available); }
    }
  }

  /**
   Whatever the ids, a load keeps dependencies loaded unless the lookup of its dependency hits the id of
   a provider of another domain, and no provider of the domain itself is loaded.
   */
  lemma LoadMeetsDependency(c: Catalog, m: Loaded, conf: Conf)
    requires Acyclic(c) && Keyed(m) && DependenciesLoaded(c, m)
    requires conf.instanceId !in m && !Refuses(c, m, conf)
    ensures DependenciesLoaded(c, m[conf.instanceId := Instance(conf)]) <==>
            match DependencyOf(c, conf.domain)
            case None => true
            case Some(d) => !(d in m && m[d].domain != d && forall id | id in m :: m[id].domain != d)
  {
    var n := m[conf.instanceId := Instance(conf)];
    forall x ensures x in n.Values <==> x in m.Values || x == Instance(conf) {
      KeyedValues(m, x);
      KeyedValues(n, x);
    }
    forall d | HasDomain(m, d) ensures HasDomain(n, d) {
      var r :| r in m.Values && r.domain == d;
      assert r in n.Values;
    }
    var needed := DependencyOf(c, conf.domain);
    if needed.Some? {
      var d := needed.value;
      assert d != conf.domain;
      assert Instance(conf) in n.Values;
      var p :| Finds(m, d, p);
      assert HasDomain(m, d) <==> exists id | id in m :: m[id].domain == d;
      assert HasDomain(n, d) ==> HasDomain(m, d);
      assert d in m ==> m[d] in m.Values;
    }
  }

  /** An id that names another domain would satisfy a dependency that is not loaded. */
  lemma ForeignIdMisleadsLookup()
    ensures exists c: Catalog, m: Loaded, conf: Conf ::
              && Acyclic(c) && Keyed(m) && DependenciesLoaded(c, m) && conf.instanceId !in m
              && !DependenciesLoaded(c, AfterLoad(c, m, conf, Succeeds))
  {
    var c := Catalog(map["hue" := Manifest(false, Some("sendspin")), "other" := Manifest(false, None)],
                     (d: string) => if d == "sendspin" then 1 else 0);
    var stray := Provider("sendspin", "other", true, false);
    var m: Loaded := map["sendspin" := stray];
    var conf := Conf("hue", "hue", true, false);
    assert m["sendspin"] in m.Values;
    assert Finds(m, "sendspin", stray);
    assert AfterUnload(c, m, "hue") == m;
    forall p | p in m.Values ensures p == stray {}
    var n := AfterLoad(c, m, conf, Succeeds);
    assert n == m["hue" := Instance(conf)];
    assert n["hue"] in n.Values;
    forall p | p in n.Values ensures p.domain != "sendspin" {}
    assert !HasDomain(n, "sendspin");
  }

  // ----- the server

  class MusicAssistant {
    const catalog: Catalog
    var providers: Loaded

    constructor (catalog: Catalog)
      ensures this.catalog == catalog && providers == map[]
    {
      this.catalog := catalog;
      providers := map[];
    }

    ghost predicate Valid()
      reads this
    {
      Acyclic(catalog) && Keyed(providers)
    }

    ghost function Depth(id: string): nat
      reads this
    {
      if id in providers then catalog.height(providers[id].domain) + 1 else 0
    }

    method UnloadProvider(id: string) returns (ghost log: seq<Provider>)
      requires Valid()
      modifies this
      ensures Valid() && providers == AfterUnload(catalog, old(providers), id)
      ensures Logs(catalog, old(providers), providers, log)
      decreases Depth(id)
    {
      log := [];
      if id !in providers { return; }
      var provider := providers[id];
      ghost var before := providers;
      var snapshot := providers.Values;
      while snapshot != {}
        invariant UnderWay(catalog, before, providers, provider, log)
        invariant snapshot <= before.Values
        invariant forall d | d in providers.Values && DependsOn(catalog, d, provider) :: d in snapshot
        decreases snapshot
      {
        var dependent :| dependent in snapshot;
        snapshot := snapshot - {dependent};
        if DependsOn(catalog, dependent, provider) {
          ghost var now := providers;
          ghost var more := UnloadProvider(dependent.instanceId);
          UnloadKeepsUnderWay(catalog, before, now, provider, log, dependent, providers, more);
          log := log + more;
        }
      }
      FinishUnderWay(catalog, before, providers, provider, log);
      LogFinishes(catalog, before, providers, provider, log);
      providers := providers - {id};
      log := log + [provider];
    }

    method GetProvider(name: string) returns (found: Option<Provider>)
      ensures found.None? ==> !CanFind(providers, name)
      ensures found.Some? ==> Finds(providers, name, found.value)
      ensures name in providers && providers[name].available ==> found == Some(providers[name])
      ensures name in providers && !providers[name].available && !providers[name].streaming ==> found == None
      ensures
        name !in providers || (!providers[name].available && providers[name].streaming) ==>
          var domain := if name in providers then providers[name].domain else name;
          && (found.Some? <==> exists p | p in providers.Values :: p.available && p.domain == domain)
          && (found.Some? ==> found.value in providers.Values && found.value.available && found.value.domain == domain)
    {
      var domain := name;
      if name in providers {
        var provider := providers[name];
        assert provider in providers.Values;
        if provider.available {
          return Some(provider);
        }
        if !provider.streaming {
          return None;
        }
        domain := provider.domain;
      }
      var others := providers.Values;
      while others != {}
        invariant others <= providers.Values
        invariant forall p | p in providers.Values && p !in others :: p.domain != domain || !p.available
        decreases others
      {
        var provider :| provider in others;
        others := others - {provider};
        if provider.domain == domain && provider.available {
          return Some(provider);
        }
      }
      return None;
    }

    method LoadProvider(conf: Conf, setup: Setup) returns (r: Result<bool, LoadError>)
      requires Valid()
      modifies this
      ensures Valid() && providers == AfterLoad(catalog, old(providers), conf, setup)
      ensures r == Success(true) <==> conf.instanceId in providers
      ensures
        var left := AfterUnload(catalog, old(providers), conf.instanceId);
        && r == LoadResult(catalog, left, conf, setup)
        && (r != Success(true) ==> Submap(providers, left) && (setup.FinishRaises? || providers == left))
        && (r == Success(true) ==>
              providers == left[conf.instanceId := Provider(conf.instanceId, conf.domain, true, conf.streaming)])
    {
      var _ := UnloadProvider(conf.instanceId);
      UnloadRemoves(catalog, old(providers), conf.instanceId);
      if !conf.enabled {
        return Failure(ProviderDisabled);
      }
      var existing := exists p | p in providers.Values :: p.domain == conf.domain;
      if existing && conf.domain in catalog.manifests && !catalog.manifests[conf.domain].multiInstance {
        return Failure(OnlyOneInstance);
      }
      if conf.domain !in catalog.manifests {
        return Failure(ManifestNotFound);
      }
      var dependsOn := catalog.manifests[conf.domain].dependsOn;
      if dependsOn.Some? {
        var dependency := GetProvider(dependsOn.value);
        if dependency.None? {
          return Success(false);
        }
      }
      if setup.SetupRaises? {
        return Failure(SetupFailed);
      }
      r := RegisterLoadedProvider(conf, setup);
    }

    method RegisterLoadedProvider(conf: Conf, setup: Setup) returns (r: Result<bool, LoadError>)
      requires Valid() && !setup.SetupRaises?
      modifies this
      ensures Valid()
      ensures setup.Succeeds? ==> providers == old(providers)[conf.instanceId := Instance(conf)] && r == Success(true)
      ensures setup.FinishRaises? ==>
                && providers == AfterUnload(catalog, old(providers)[conf.instanceId := Instance(conf)], conf.instanceId)
                && r == Failure(SetupFailed) && conf.instanceId !in providers
    {
      providers := providers[conf.instanceId := Instance(conf)];
      if setup.Succeeds? {
        return Success(true);
      }
      UnloadRemoves(catalog, providers, conf.instanceId);
      var _ := UnloadProvider(conf.instanceId);
      return Failure(SetupFailed);
    }
  }
}
