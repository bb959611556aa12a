/** When the tables agree, which single steps keep them so, and what building them from scratch
    gives. */
module ReloadRoutes {
  import opened ServerConfigs
  import opened Reload

  predicate Has(m: map<string, ServerConfig>, id: string, d: string) {
    id in m && d in m[id].domains
  }

  ghost predicate Apart(m: map<string, ServerConfig>, a: string, b: string, d: string) {
    a != b && Has(m, a, d) ==> !Has(m, b, d)
  }

  /** No domain repeats in a config or is shared by two configs of the map. */
  ghost predicate Disjoint(m: map<string, ServerConfig>) {
    && (forall id :: id in m ==> NoRepeats(m[id].domains))
    && (forall a, b, d :: Apart(m, a, b, d))
  }

  /** Whatever is routed under `d` is routed to the config that claims it. */
  ghost predicate RouteSound(t: Tables, cur: map<string, ServerConfig>, d: string) {
    && (d in t.dict <==> d in t.domains)
    && (d in t.domains ==>
          var id := t.domains[d]; Has(cur, id, d) && id in t.backends && t.dict[d] == t.backends[id])
  }

  ghost predicate RouteComplete(t: Tables, cur: map<string, ServerConfig>, id: string, d: string) {
    Has(cur, id, d) ==> d in t.domains && t.domains[d] == id
  }

  /** The route tables serve exactly the configs `cur`: each domain leads to the id that
      claims it, and the catalog leads to that id's backend. */
  ghost predicate Agrees(t: Tables, cur: map<string, ServerConfig>) {
    && cur.Keys == t.backends.Keys
    && (forall d :: RouteSound(t, cur, d))
    && (forall id, d :: RouteComplete(t, cur, id, d))
  }

  /** All tables agree with each other and with the stored configs. */
  ghost predicate Coherent(t: Tables) {
    && Keyed(t)
    && Agrees(t, t.cfgs)
    && forall id :: id in t.cfgs ==> NoRepeats(t.cfgs[id].domains)
  }

  /** No config other than `id` claims a domain of `cfg`. */
  ghost predicate FreeFor(cur: map<string, ServerConfig>, id: string, cfg: ServerConfig) {
    forall a, d :: Has(cur, a, d) ==> a == id || d !in cfg.domains
  }

  // ------------------------------------------------------------- single steps

  lemma {:induction false} AddAgrees(t: Tables, cur: map<string, ServerConfig>, cfg: ServerConfig)
    requires Agrees(t, cur) && cfg.ID() !in cur && FreeFor(cur, cfg.ID(), cfg)
    ensures Agrees(AddConfig(t, cfg), cur[cfg.ID() := cfg])
  {
    var t', cur' := AddConfig(t, cfg), cur[cfg.ID() := cfg];
    forall d ensures RouteSound(t', cur', d) {
      assert RouteSound(t, cur, d);
    }
    forall id, d ensures RouteComplete(t', cur', id, d) {
      assert RouteComplete(t, cur, id, d);
      assert id != cfg.ID() && Has(cur', id, d) ==> Has(cur, id, d);
    }
  }

  lemma {:induction false} RemoveAgrees(t: Tables, cur: map<string, ServerConfig>, id: string)
    requires Agrees(t, cur) && id in cur && cur[id].ID() == id
    ensures Agrees(RemoveConfig(t, cur[id]), cur - {id})
  {
    var t', cur' := RemoveConfig(t, cur[id]), cur - {id};
    forall d ensures RouteSound(t', cur', d) {
      assert RouteSound(t, cur, d) && RouteComplete(t, cur, id, d);
    }
    forall a, d ensures RouteComplete(t', cur', a, d) {
      assert RouteComplete(t, cur, a, d) && RouteComplete(t, cur, id, d);
    }
  }

  /** What the diff against `stored` needs in order to be right about the routes in force:
      kept domains are routed, dropped ones are known to be dropped, and none of the
      domains it deletes belongs to another config by now. */
  ghost predicate DiffFaithful(
    stored: ServerConfig, cur: map<string, ServerConfig>, id: string, cfg: ServerConfig)
  {
    && (forall d :: d in cfg.domains && d in stored.domains ==> Has(cur, id, d))
    && (forall d :: Has(cur, id, d) && d !in cfg.domains ==> d in stored.domains)
    && (forall a, d :: Has(cur, a, d) && a != id && d in stored.domains ==> d in cfg.domains)
  }

  /** What one update does to the route of `d`. */
  lemma {:induction false} UpdatedLookup(v: Variant, t: Tables, cfg: ServerConfig, d: string)
    requires cfg.ID() in t.cfgs && cfg.ID() in t.backends
    requires NoRepeats(cfg.domains) && NoRepeats(t.cfgs[cfg.ID()].domains)
    ensures var t', stored := UpdateConfig(v, t, cfg), t.cfgs[cfg.ID()];
      if d in cfg.domains && d !in stored.domains then
        d in t'.domains && t'.domains[d] == cfg.ID() && d in t'.dict && t'.dict[d] == t.backends[cfg.ID()]
      else if d in stored.domains && d !in cfg.domains then
        d !in t'.domains && d !in t'.dict
      else
        && (d in t'.domains <==> d in t.domains) && (d in t.domains ==> t'.domains[d] == t.domains[d])
        && (d in t'.dict <==> d in t.dict) && (d in t.dict ==> t'.dict[d] == t.dict[d])
  {
    var stored := t.cfgs[cfg.ID()];
    CountedSides(cfg, stored, d);
  }

  lemma {:induction false} CountedSides(cfg: ServerConfig, prev: ServerConfig, d: string)
    requires NoRepeats(cfg.domains) && NoRepeats(prev.domains)
    ensures d in AddedDomains(cfg, prev) <==> d in cfg.domains && d !in prev.domains
    ensures d in RemovedDomains(cfg, prev) <==> d in prev.domains && d !in cfg.domains
  {
    CountingIsDifference(cfg, prev);
    assert d in AddedDomains(cfg, prev) <==> d in DomainSet(cfg) - DomainSet(prev);
    assert d in RemovedDomains(cfg, prev) <==> d in DomainSet(prev) - DomainSet(cfg);
  }

  lemma {:induction false} UpdateRight(v: Variant, t: Tables, cur: map<string, ServerConfig>, cfg: ServerConfig)
    requires Keyed(t) && Agrees(t, cur) && cfg.ID() in cur && FreeFor(cur, cfg.ID(), cfg)
    requires NoRepeats(cfg.domains) && NoRepeats(t.cfgs[cfg.ID()].domains)
    requires DiffFaithful(t.cfgs[cfg.ID()], cur, cfg.ID(), cfg)
    ensures Agrees(UpdateConfig(v, t, cfg), cur[cfg.ID() := cfg])
  {
    var t', cur' := UpdateConfig(v, t, cfg), cur[cfg.ID() := cfg];
    forall d ensures RouteSound(t', cur', d) {
      UpdatedLookup(v, t, cfg, d);
      assert RouteSound(t, cur, d) && RouteComplete(t, cur, cfg.ID(), d);
    }
    forall id, d ensures RouteComplete(t', cur', id, d) {
      UpdatedLookup(v, t, cfg, d);
      assert RouteComplete(t, cur, id, d);
      assert id != cfg.ID() && Has(cur', id, d) ==> Has(cur, id, d);
      assert Has(cur, cfg.ID(), d) ==> RouteComplete(t, cur, cfg.ID(), d);
    }
  }

  lemma {:induction false} UpdateNeedsFaithful(v: Variant, t: Tables, cur: map<string, ServerConfig>, cfg: ServerConfig)
    requires Keyed(t) && Agrees(t, cur) && cfg.ID() in cur && FreeFor(cur, cfg.ID(), cfg)
    requires NoRepeats(cfg.domains) && NoRepeats(t.cfgs[cfg.ID()].domains)
    requires Agrees(UpdateConfig(v, t, cfg), cur[cfg.ID() := cfg])
    ensures DiffFaithful(t.cfgs[cfg.ID()], cur, cfg.ID(), cfg)
  {
    var id, stored := cfg.ID(), t.cfgs[cfg.ID()];
    var t', cur' := UpdateConfig(v, t, cfg), cur[id := cfg];
    forall d | d in cfg.domains && d in stored.domains ensures Has(cur, id, d) {
      UpdatedLookup(v, t, cfg, d);
      assert RouteComplete(t', cur', id, d) && RouteSound(t, cur, d);
    }
    forall d | Has(cur, id, d) && d !in cfg.domains ensures d in stored.domains {
      UpdatedLookup(v, t, cfg, d);
      assert RouteComplete(t, cur, id, d) && RouteSound(t', cur', d);
    }
    forall a, d | Has(cur, a, d) && a != id && d in stored.domains ensures d in cfg.domains {
      UpdatedLookup(v, t, cfg, d);
      assert RouteComplete(t', cur', a, d);
    }
  }

  /** An update is right about the routes exactly when its diff is. */
  lemma {:induction false} UpdateExact(v: Variant, t: Tables, cur: map<string, ServerConfig>, cfg: ServerConfig)
    requires Keyed(t) && Agrees(t, cur) && cfg.ID() in cur && FreeFor(cur, cfg.ID(), cfg)
    requires NoRepeats(cfg.domains) && NoRepeats(t.cfgs[cfg.ID()].domains)
    ensures Agrees(UpdateConfig(v, t, cfg), cur[cfg.ID() := cfg])
       <==> DiffFaithful(t.cfgs[cfg.ID()], cur, cfg.ID(), cfg)
  {
    if DiffFaithful(t.cfgs[cfg.ID()], cur, cfg.ID(), cfg) {
      UpdateRight(v, t, cur, cfg);
    }
    if Agrees(UpdateConfig(v, t, cfg), cur[cfg.ID() := cfg]) {
      UpdateNeedsFaithful(v, t, cur, cfg);
    }
  }

  /** A diff against the config in force is faithful. */
  lemma {:induction false} FreshDiffFaithful(t: Tables, cur: map<string, ServerConfig>, cfg: ServerConfig)
    requires Agrees(t, cur) && cfg.ID() in cur
    ensures DiffFaithful(cur[cfg.ID()], cur, cfg.ID(), cfg)
  {
    forall a, d
      ensures Has(cur, a, d) && a != cfg.ID() && d in cur[cfg.ID()].domains ==> d in cfg.domains
    {
      assert RouteComplete(t, cur, a, d) && RouteComplete(t, cur, cfg.ID(), d);
    }
  }

  // ------------------------------------------------------------- the rebuilt tables

  lemma {:induction false} ByIdAt(cfgs: seq<ServerConfig>, i: nat)
    requires DistinctIds(cfgs) && i < |cfgs|
    ensures cfgs[i].ID() in ById(cfgs) && ById(cfgs)[cfgs[i].ID()] == cfgs[i]
  {
    if i < |cfgs| - 1 {
      ByIdAt(cfgs[..|cfgs| - 1], i);
    }
  }

  /** For distinct ids the map by id claims exactly what the list claims. */
  lemma {:induction false} HasIsClaims(cfgs: seq<ServerConfig>, id: string, d: string)
    requires DistinctIds(cfgs)
    ensures Has(ById(cfgs), id, d) <==> Claims(cfgs, d, id)
  {
    if Has(ById(cfgs), id, d) {
      ByIdSound(cfgs, id);
    }
    if Claims(cfgs, d, id) {
      var i :| 0 <= i < |cfgs| && cfgs[i].ID() == id && d in cfgs[i].domains;
      ByIdAt(cfgs, i);
    }
  }

  lemma {:induction false} ByIdDisjoint(cfgs: seq<ServerConfig>)
    requires DistinctIds(cfgs) && DomainsUnique(cfgs)
    ensures NewKeyed(ById(cfgs)) && Disjoint(ById(cfgs))
  {
    ByIdKeyed(cfgs);
    var m := ById(cfgs);
    forall a, b, d ensures Apart(m, a, b, d) {
      if a in m && b in m {
        ByIdSound(cfgs, a);
        ByIdSound(cfgs, b);
        var i :| 0 <= i < |cfgs| && cfgs[i] == m[a];
        var j :| 0 <= j < |cfgs| && cfgs[j] == m[b];
      }
    }
    forall id | id in m ensures NoRepeats(m[id].domains) {
      ByIdSound(cfgs, id);
    }
  }

  lemma {:induction false} DisjointUnique(cfgs: seq<ServerConfig>)
    requires DistinctIds(cfgs) && Disjoint(ById(cfgs))
    ensures DomainsUnique(cfgs)
  {
    var m := ById(cfgs);
    forall i | 0 <= i < |cfgs| ensures NoRepeats(cfgs[i].domains) {
      ByIdAt(cfgs, i);
    }
    forall i, j, d | 0 <= i < j < |cfgs| && d in cfgs[i].domains ensures d !in cfgs[j].domains {
      ByIdAt(cfgs, i);
      ByIdAt(cfgs, j);
      assert Apart(m, cfgs[i].ID(), cfgs[j].ID(), d);
    }
  }

  /** The tables route exactly what building them from scratch would. */
  ghost predicate Rebuilt(t: Tables, cfgs: seq<ServerConfig>) {
    && t.backends.Keys == ById(cfgs).Keys
    && t.domains == BuildDomains(cfgs)
    && t.dict.Keys == t.domains.Keys
    && forall d :: d in t.domains ==> t.domains[d] in t.backends && t.dict[d] == t.backends[t.domains[d]]
  }

  lemma {:induction false} RebuiltAgrees(t: Tables, cfgs: seq<ServerConfig>)
    requires DistinctIds(cfgs) && DomainsUnique(cfgs) && Rebuilt(t, cfgs)
    ensures Agrees(t, ById(cfgs))
  {
    BuildIsClaims(cfgs);
    forall d ensures RouteSound(t, ById(cfgs), d) {
      if d in t.domains {
        assert Claims(cfgs, d, t.domains[d]);
        HasIsClaims(cfgs, t.domains[d], d);
      }
      assert d in t.dict.Keys <==> d in t.domains.Keys;
    }
    forall id, d ensures RouteComplete(t, ById(cfgs), id, d) {
      HasIsClaims(cfgs, id, d);
    }
  }

  lemma {:induction false} AgreesRebuilt(t: Tables, cfgs: seq<ServerConfig>)
    requires DistinctIds(cfgs) && DomainsUnique(cfgs) && Agrees(t, ById(cfgs))
    ensures Rebuilt(t, cfgs)
  {
    BuildIsClaims(cfgs);
    var m, built := ById(cfgs), BuildDomains(cfgs);
    forall d | d in t.domains ensures d in built && built[d] == t.domains[d] {
      assert RouteSound(t, m, d);
      HasIsClaims(cfgs, t.domains[d], d);
    }
    forall d | d in built ensures d in t.domains {
      assert Claims(cfgs, d, built[d]);
      HasIsClaims(cfgs, built[d], d);
      assert RouteComplete(t, m, built[d], d);
    }
    assert t.domains == built;
    forall d ensures d in t.dict.Keys <==> d in t.domains.Keys {
      assert RouteSound(t, m, d);
    }
    forall d | d in t.domains ensures t.domains[d] in t.backends && t.dict[d] == t.backends[t.domains[d]] {
      assert RouteSound(t, m, d);
    }
  }

  /** Loading into empty tables builds everything. */
  lemma {:induction false} LoadIntoEmpty(t: Tables, cfgs: seq<ServerConfig>)
    requires Coherent(t) && t.cfgs == map[] && DistinctIds(cfgs) && DomainsUnique(cfgs)
    ensures Agrees(AddAll(t, cfgs), ById(cfgs)) && Keyed(AddAll(t, cfgs))
  {
    AddAllKeyed(t, cfgs);
    if cfgs != [] {
      var p, last := cfgs[..|cfgs| - 1], cfgs[|cfgs| - 1];
      assert cfgs == p + [last];
      DomainsUniqueAppend(p, last);
      assert DistinctIds(p);
      LoadIntoEmpty(t, p);
      forall a, d | Has(ById(p), a, d) ensures a == last.ID() || d !in last.domains {
        ByIdSound(p, a);
      }
      if last.ID() in ById(p) {
        ByIdSound(p, last.ID());
        assert false;
      }
      AddAgrees(AddAll(t, p), ById(p), last);
    }
  }
}
