/** What a reload does to the tables that have to agree: the stored configs, the
    domain owners, the backends and the catalog every worker looks servers up in.
    The tables are values here; module BackendManagers runs the same steps on objects. */
module Reload {
  import opened ServerConfigs

  datatype Option<+T> = None | Some(value: T)

  /** A backend is identified by the number of its creation. */
  type Backend = nat

  /** What the manager does towards the workers and the backends, in order. Setting or
      deleting several domains is one entry, but not one atomic step: see DrainProtocol. */
  datatype ManagerOp =
    | Spawn(b: Backend)
    | PutAll(domains: set<string>, b: Backend)
    | DelAll(domains: set<string>)
    | Push
    | Configure(b: Backend, cfg: ServerConfig)
    | Close(b: Backend)

  datatype Tables = Tables(
    cfgs: map<string, ServerConfig>,
    domains: map<string, string>,
    backends: map<string, Backend>,
    dict: map<string, Backend>,
    next: Backend,
    ops: seq<ManagerOp>)

  const EMPTY_TABLES := Tables(map[], map[], map[], map[], 0, [])

  /** The code keeps the config an id was first added with; the `Recording` variant
      also stores the updated one. */
  datatype Variant = AsWritten | Recording

  function DomainSet(cfg: ServerConfig): set<string> {
    set d | d in cfg.domains
  }

  /** The value `domainStatus[d]` after both counting loops. */
  function Status(cfg: ServerConfig, prev: ServerConfig, d: string): nat {
    multiset(cfg.domains)[d] + 2 * multiset(prev.domains)[d]
  }

  function AddedDomains(cfg: ServerConfig, prev: ServerConfig): set<string> {
    set d | d in DomainSet(cfg) + DomainSet(prev) && Status(cfg, prev, d) == 1
  }

  function RemovedDomains(cfg: ServerConfig, prev: ServerConfig): set<string> {
    set d | d in DomainSet(cfg) + DomainSet(prev) && Status(cfg, prev, d) == 2
  }

  /** The counting computes the two set differences exactly when no domain repeats in
      the only list that has it. */
  lemma {:induction false} CountingExact(cfg: ServerConfig, prev: ServerConfig)
    ensures && AddedDomains(cfg, prev) == DomainSet(cfg) - DomainSet(prev)
            && RemovedDomains(cfg, prev) == DomainSet(prev) - DomainSet(cfg)
        <==> forall d :: d in DomainSet(cfg) + DomainSet(prev) ==>
               && (d !in prev.domains ==> multiset(cfg.domains)[d] == 1)
               && (d !in cfg.domains ==> multiset(prev.domains)[d] == 1)
  {
    if && AddedDomains(cfg, prev) == DomainSet(cfg) - DomainSet(prev)
       && RemovedDomains(cfg, prev) == DomainSet(prev) - DomainSet(cfg)
    {
      forall d | d in DomainSet(cfg) + DomainSet(prev)
        ensures d !in prev.domains ==> multiset(cfg.domains)[d] == 1
        ensures d !in cfg.domains ==> multiset(prev.domains)[d] == 1
      {
        assert d in AddedDomains(cfg, prev) <==> d in DomainSet(cfg) - DomainSet(prev);
        assert d in RemovedDomains(cfg, prev) <==> d in DomainSet(prev) - DomainSet(cfg);
        assert d !in prev.domains ==> multiset(prev.domains)[d] == 0;
        assert d !in cfg.domains ==> multiset(cfg.domains)[d] == 0;
      }
    }
  }

  lemma {:induction false} CountingIsDifference(cfg: ServerConfig, prev: ServerConfig)
    requires NoRepeats(cfg.domains) && NoRepeats(prev.domains)
    ensures AddedDomains(cfg, prev) == DomainSet(cfg) - DomainSet(prev)
    ensures RemovedDomains(cfg, prev) == DomainSet(prev) - DomainSet(cfg)
  {
    forall d | d in DomainSet(cfg) + DomainSet(prev)
      ensures multiset(cfg.domains)[d] <= 1 && multiset(prev.domains)[d] <= 1
    {
      if multiset(cfg.domains)[d] >= 2 { var i, j := PlacesOfTwo(cfg.domains, d); }
      if multiset(prev.domains)[d] >= 2 { var i, j := PlacesOfTwo(prev.domains, d); }
    }
    CountingExact(cfg, prev);
  }

  // ---------------------------------------------------------------- one config

  /** Ids and backends agree, and every config is stored under its own id. */
  ghost predicate Keyed(t: Tables) {
    && t.cfgs.Keys == t.backends.Keys
    && forall id :: id in t.cfgs ==> t.cfgs[id].ID() == id
  }

  function AddConfig(t: Tables, cfg: ServerConfig): Tables {
    var id, b, ds := cfg.ID(), t.next, DomainSet(cfg);
    Tables(
      t.cfgs[id := cfg],
      t.domains + (map d | d in ds :: id),
      t.backends[id := b],
      t.dict + (map d | d in ds :: b),
      b + 1,
      t.ops + [Spawn(b), PutAll(ds, b), Push])
  }

  function RemoveConfig(t: Tables, cfg: ServerConfig): Tables {
    var id, ds := cfg.ID(), DomainSet(cfg);
    if id !in t.backends then t
    else
      Tables(
        t.cfgs - {id},
        t.domains - ds,
        t.backends - {id},
        t.dict - ds,
        t.next,
        t.ops + [DelAll(ds), Push, Close(t.backends[id])])
  }

  function UpdateConfig(v: Variant, t: Tables, cfg: ServerConfig): Tables
    requires cfg.ID() in t.cfgs && cfg.ID() in t.backends
  {
    var id := cfg.ID();
    var prev, b := t.cfgs[id], t.backends[id];
    if cfg == prev then t
    else
      var added, removed := AddedDomains(cfg, prev), RemovedDomains(cfg, prev);
      Tables(
        if v.Recording? then t.cfgs[id := cfg] else t.cfgs,
        t.domains + (map d | d in added :: id) - removed,
        t.backends,
        t.dict + (map d | d in added :: b) - removed,
        t.next,
        t.ops + [PutAll(added, b), Push, DelAll(removed), Push, Configure(b, cfg)])
  }

  // ---------------------------------------------------------------- a whole list

  function ById(cfgs: seq<ServerConfig>): map<string, ServerConfig> {
    if cfgs == [] then map[]
    else
      var last := cfgs[|cfgs| - 1];
      ById(cfgs[..|cfgs| - 1])[last.ID() := last]
  }

  lemma {:induction false} ByIdSound(cfgs: seq<ServerConfig>, id: string)
    requires id in ById(cfgs)
    ensures ById(cfgs)[id].ID() == id && ById(cfgs)[id] in cfgs
  {
    if cfgs[|cfgs| - 1].ID() != id {
      ByIdSound(cfgs[..|cfgs| - 1], id);
    }
  }

  lemma {:induction false} ByIdKeyed(cfgs: seq<ServerConfig>)
    ensures NewKeyed(ById(cfgs))
  {
    forall id | id in ById(cfgs) ensures ById(cfgs)[id].ID() == id {
      ByIdSound(cfgs, id);
    }
  }

  /** `order` lists `keys`, each once: one possible iteration of a Go map. */
  ghost predicate IsOrder(order: seq<string>, keys: set<string>) {
    && NoRepeats(order)
    && (forall id :: id in order <==> id in keys)
  }

  ghost predicate NewKeyed(news: map<string, ServerConfig>) {
    forall id :: id in news ==> news[id].ID() == id
  }

  function RemoveOne(t: Tables, news: map<string, ServerConfig>, id: string): Tables {
    if id in t.cfgs && id !in news then RemoveConfig(t, t.cfgs[id]) else t
  }

  function RemoveAll(t: Tables, news: map<string, ServerConfig>, order: seq<string>): Tables {
    if order == [] then t
    else RemoveOne(RemoveAll(t, news, order[..|order| - 1]), news, order[|order| - 1])
  }

  function ApplyOne(v: Variant, t: Tables, cfg: ServerConfig): Tables
    requires Keyed(t)
  {
    if cfg.ID() !in t.cfgs then AddConfig(t, cfg) else UpdateConfig(v, t, cfg)
  }

  function ApplyAll(v: Variant, t: Tables, news: map<string, ServerConfig>, order: seq<string>): (r: Tables)
    requires Keyed(t) && NewKeyed(news) && forall id :: id in order ==> id in news
    ensures Keyed(r)
  {
    if order == [] then t
    else ApplyOne(v, ApplyAll(v, t, news, order[..|order| - 1]), news[order[|order| - 1]])
  }

  function AddAll(t: Tables, cfgs: seq<ServerConfig>): Tables {
    if cfgs == [] then t
    else AddConfig(AddAll(t, cfgs[..|cfgs| - 1]), cfgs[|cfgs| - 1])
  }

  lemma {:induction false} RemoveAllKeyed(t: Tables, news: map<string, ServerConfig>, order: seq<string>)
    requires Keyed(t)
    ensures Keyed(RemoveAll(t, news, order))
  {
    if order != [] {
      RemoveAllKeyed(t, news, order[..|order| - 1]);
    }
  }

  /** One successful load of a list, with the two map iteration orders it happened to use. */
  datatype Load = Load(cfgs: seq<ServerConfig>, removeOrder: seq<string>, applyOrder: seq<string>)

  ghost predicate ValidLoad(t: Tables, l: Load) {
    t.cfgs != map[] ==>
      IsOrder(l.removeOrder, t.cfgs.Keys) && IsOrder(l.applyOrder, ById(l.cfgs).Keys)
  }

  ghost function DoLoad(v: Variant, t: Tables, l: Load): Tables
    requires Keyed(t) && ValidLoad(t, l)
  {
    if t.cfgs == map[] then AddAll(t, l.cfgs)
    else
      RemoveAllKeyed(t, ById(l.cfgs), l.removeOrder);
      ByIdKeyed(l.cfgs);
      ApplyAll(v, RemoveAll(t, ById(l.cfgs), l.removeOrder), ById(l.cfgs), l.applyOrder)
  }

  lemma {:induction false} AddAllKeyed(t: Tables, cfgs: seq<ServerConfig>)
    requires Keyed(t)
    ensures Keyed(AddAll(t, cfgs))
  {
    if cfgs != [] {
      AddAllKeyed(t, cfgs[..|cfgs| - 1]);
    }
  }

  lemma {:induction false} DoLoadKeyed(v: Variant, t: Tables, l: Load)
    requires Keyed(t) && ValidLoad(t, l)
    ensures Keyed(DoLoad(v, t, l))
  {
    AddAllKeyed(t, l.cfgs);
    RemoveAllKeyed(t, ById(l.cfgs), l.removeOrder);
    ByIdKeyed(l.cfgs);
  }
}
