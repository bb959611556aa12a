/** The managers as objects: the same steps as in module Reload, on fields that change. */
module BackendManagers {
  import opened ServerConfigs
  import opened Reload

  /** What both managers have done towards workers and backends so far. */
  class Timeline {
    ghost var ops: seq<ManagerOp>

    constructor ()
      ensures ops == []
    {
      ops := [];
    }

    ghost method Add(op: ManagerOp)
      modifies this
      ensures ops == old(ops) + [op]
    {
      ops := ops + [op];
    }
  }

  function Elements(s: seq<string>): set<string> {
    set d | d in s
  }

  lemma {:induction false} ElementsAppend(s: seq<string>, x: string)
    ensures Elements(s + [x]) == Elements(s) + {x}
  {
  }

  lemma {:induction false} ElementsNext(s: seq<string>, i: nat)
    requires i < |s|
    ensures Elements(s[..i + 1]) == Elements(s[..i]) + {s[i]}
  {
    assert s[..i + 1] == s[..i] + [s[i]];
  }

  lemma {:induction false} PutNext<V>(m: map<string, V>, ds: set<string>, v: V, x: string)
    ensures (m + (map d | d in ds :: v))[x := v] == m + (map d | d in ds + {x} :: v)
  {
  }

  /** Setting one more domain, unless it is among those deleted, and deleting one more. */
  lemma {:induction false} SetThenDelete(
    m: map<string, string>, added: set<string>, removed: set<string>, id: string, key: string)
    ensures key !in removed ==>
      (m + (map d | d in added :: id) - removed)[key := id] == m + (map d | d in added + {key} :: id) - removed
    ensures m + (map d | d in added :: id) - removed - {key} == m + (map d | d in added :: id) - (removed + {key})
  {
  }

  class WorkerManager {
    var serverDict: map<string, Backend>
    const timeline: Timeline

    constructor (timeline: Timeline)
      ensures serverDict == map[] && this.timeline == timeline
    {
      this.timeline := timeline;
      serverDict := map[];
    }

    method AddBackend(domains: seq<string>, server: Backend)
      modifies this, timeline
      ensures serverDict == old(serverDict) + (map d | d in Elements(domains) :: server)
      ensures timeline.ops == old(timeline.ops) + [PutAll(Elements(domains), server), Push]
    {
      for i := 0 to |domains|
        invariant serverDict == old(serverDict) + (map d | d in Elements(domains[..i]) :: server)
        invariant timeline.ops == old(timeline.ops)
      {
        ElementsNext(domains, i);
        PutNext(old(serverDict), Elements(domains[..i]), server, domains[i]);
        serverDict := serverDict[domains[i] := server];
      }
      assert domains[..|domains|] == domains;
      timeline.Add(PutAll(Elements(domains), server));
      Update();
    }

    method RemoveBackend(domains: seq<string>)
      modifies this, timeline
      ensures serverDict == old(serverDict) - Elements(domains)
      ensures timeline.ops == old(timeline.ops) + [DelAll(Elements(domains)), Push]
    {
      for i := 0 to |domains|
        invariant serverDict == old(serverDict) - Elements(domains[..i])
        invariant timeline.ops == old(timeline.ops)
      {
        ElementsNext(domains, i);
        serverDict := serverDict - {domains[i]};
      }
      assert domains[..|domains|] == domains;
      timeline.Add(DelAll(Elements(domains)));
      Update();
    }

    /** Hands the catalog to every registered worker; DrainProtocol spells the rendezvous out. */
    method Update()
      modifies timeline
      ensures timeline.ops == old(timeline.ops) + [Push]
    {
      timeline.Add(Push);
    }
  }

  datatype ReadResult = Configs(cfgs: seq<ServerConfig>) | ReadError

  class BackendManager {
    var backends: map<string, Backend>
    var domains: map<string, string>
    var cfgs: map<string, ServerConfig>
    var created: Backend              // how many backends the factory has made
    const workerManager: WorkerManager

    ghost function State(): Tables
      reads this, workerManager, workerManager.timeline
    {
      Tables(cfgs, domains, backends, workerManager.serverDict, created, workerManager.timeline.ops)
    }

    ghost predicate Valid()
      reads this, workerManager, workerManager.timeline
    {
      Keyed(State())
    }

    constructor (workerManager: WorkerManager)
      requires workerManager.serverDict == map[] && workerManager.timeline.ops == []
      ensures Valid() && State() == EMPTY_TABLES && this.workerManager == workerManager
    {
      this.workerManager := workerManager;
      backends, domains, cfgs, created := map[], map[], map[], 0;
    }

    method SetDomains(ds: seq<string>, id: string)
      modifies this`domains
      ensures domains == old(domains) + (map d | d in Elements(ds) :: id)
    {
      for i := 0 to |ds|
        invariant domains == old(domains) + (map d | d in Elements(ds[..i]) :: id)
      {
        ElementsNext(ds, i);
        PutNext(old(domains), Elements(ds[..i]), id, ds[i]);
        domains := domains[ds[i] := id];
      }
      assert ds[..|ds|] == ds;
    }

    method DeleteDomains(ds: seq<string>)
      modifies this`domains
      ensures domains == old(domains) - Elements(ds)
    {
      for i := 0 to |ds|
        invariant domains == old(domains) - Elements(ds[..i])
      {
        ElementsNext(ds, i);
        domains := domains - {ds[i]};
      }
      assert ds[..|ds|] == ds;
    }

    method AddConfig(cfg: ServerConfig)
      requires Valid()
      modifies this, workerManager, workerManager.timeline
      ensures Valid() && State() == Reload.AddConfig(old(State()), cfg)
    {
      cfgs := cfgs[cfg.ID() := cfg];
      SetDomains(cfg.domains, cfg.ID());
      var backend := created;
      created := created + 1;
      workerManager.timeline.Add(Spawn(backend));
      backends := backends[cfg.ID() := backend];
      workerManager.AddBackend(cfg.domains, backend);
      assert Elements(cfg.domains) == DomainSet(cfg);
      assert State().ops == Reload.AddConfig(old(State()), cfg).ops;
    }

    method RemoveConfig(cfg: ServerConfig)
      requires Valid()
      modifies this, workerManager, workerManager.timeline
      ensures Valid() && State() == Reload.RemoveConfig(old(State()), cfg)
    {
      if cfg.ID() !in backends {
        return;
      }
      var server := backends[cfg.ID()];
      cfgs := cfgs - {cfg.ID()};
      DeleteDomains(cfg.domains);
      workerManager.RemoveBackend(cfg.domains);
      workerManager.timeline.Add(Close(server));
      backends := backends - {cfg.ID()};
      assert Elements(cfg.domains) == DomainSet(cfg);
      assert State().ops == Reload.RemoveConfig(old(State()), cfg).ops;
    }

    /** Missing entries of a Go map read as zero. */
    static function At(counts: map<string, nat>, d: string): nat {
      if d in counts then counts[d] else 0
    }

    /** The entry of `d` after one counting loop over `ds`. */
    static function Tallied(counts: map<string, nat>, ds: seq<string>, weight: nat, d: string): nat {
      At(counts, d) + weight * multiset(ds)[d]
    }

    static lemma {:induction false} TalliedNext(
      counts: map<string, nat>, ds: seq<string>, weight: nat, x: string, d: string)
      ensures Tallied(counts, ds + [x], weight, d)
           == Tallied(counts, ds, weight, d) + if d == x then weight else 0
    {
      var n := multiset(ds)[d];
      assert multiset(ds + [x])[d] == n + if d == x then 1 else 0;
      assert weight * (n + 1) == weight * n + weight;
    }

    /** One counting loop: adds `weight` to the entry of every domain, each time it occurs. */
    static method Tally(counts: map<string, nat>, ds: seq<string>, weight: nat) returns (status: map<string, nat>)
      ensures status.Keys == counts.Keys + Elements(ds)
      ensures forall d :: At(status, d) == Tallied(counts, ds, weight, d)
    {
      status := counts;
      for i := 0 to |ds|
        invariant status.Keys == counts.Keys + Elements(ds[..i])
        invariant forall d :: At(status, d) == Tallied(counts, ds[..i], weight, d)
      {
        var x := ds[i];
        ElementsNext(ds, i);
        assert ds[..i + 1] == ds[..i] + [x];
        forall d { TalliedNext(counts, ds[..i], weight, x, d); }
        status := status[x := At(status, x) + weight];
      }
      assert ds[..|ds|] == ds;
    }

    /** The two counting loops of an update. */
    static method CountDomains(cfg: ServerConfig, stored: ServerConfig) returns (status: map<string, nat>)
      ensures status.Keys == DomainSet(cfg) + DomainSet(stored)
      ensures forall d :: d in status ==> status[d] == Status(cfg, stored, d)
    {
      var news := Tally(map[], cfg.domains, 1);
      status := Tally(news, stored.domains, 2);
      forall d | d in status ensures status[d] == Status(cfg, stored, d) {
        assert At(status, d) == Tallied(news, stored.domains, 2, d);
        assert At(news, d) == Tallied(map[], cfg.domains, 1, d);
      }
    }

    /** The loop over `domainStatus`, in any order. */
    method SortDomains(id: string, status: map<string, nat>)
      returns (added: seq<string>, removed: seq<string>)
      modifies this`domains
      ensures Elements(added) == set d | d in status && status[d] == 1
      ensures Elements(removed) == set d | d in status && status[d] == 2
      ensures domains == old(domains) + (map d | d in Elements(added) :: id) - Elements(removed)
    {
      added, removed := [], [];
      var todo := status.Keys;
      while todo != {}
        invariant todo <= status.Keys
        invariant Elements(added) == set d | d in status && d !in todo && status[d] == 1
        invariant Elements(removed) == set d | d in status && d !in todo && status[d] == 2
        invariant domains == old(domains) + (map d | d in Elements(added) :: id) - Elements(removed)
        decreases todo
      {
        var key :| key in todo;
        if status[key] == 1 {
          ElementsAppend(added, key);
          SetThenDelete(old(domains), Elements(added), Elements(removed), id, key);
          domains := domains[key := id];
          added := added + [key];
        } else if status[key] == 2 {
          ElementsAppend(removed, key);
          SetThenDelete(old(domains), Elements(added), Elements(removed), id, key);
          removed := removed + [key];
          domains := domains - {key};
        }
        todo := todo - {key};
      }
    }

    method UpdateConfig(cfg: ServerConfig)
      requires Valid() && cfg.ID() in cfgs
      modifies this, workerManager, workerManager.timeline
      ensures Valid() && State() == Reload.UpdateConfig(AsWritten, old(State()), cfg)
    {
      var stored := cfgs[cfg.ID()];
      if cfg == stored {
        return;
      }
      var status := CountDomains(cfg, stored);
      var added, removed := SortDomains(cfg.ID(), status);
      assert Elements(added) == AddedDomains(cfg, stored);
      assert Elements(removed) == RemovedDomains(cfg, stored);
      var b := backends[cfg.ID()];
      workerManager.AddBackend(added, b);
      workerManager.RemoveBackend(removed);
      workerManager.timeline.Add(Configure(b, cfg));
      assert State().ops == Reload.UpdateConfig(AsWritten, old(State()), cfg).ops;
    }

    static method IndexById(list: seq<ServerConfig>) returns (newCfgs: map<string, ServerConfig>)
      ensures newCfgs == ById(list)
    {
      newCfgs := map[];
      for i := 0 to |list|
        invariant newCfgs == ById(list[..i])
      {
        assert list[..i + 1][..i] == list[..i];
        newCfgs := newCfgs[list[i].ID() := list[i]];
      }
      assert list[..|list|] == list;
    }

    /** Go visits the keys of a map in any order and skips those deleted meanwhile. */
    method RemoveGone(newCfgs: map<string, ServerConfig>) returns (ghost order: seq<string>)
      requires Valid()
      modifies this, workerManager, workerManager.timeline
      ensures Valid() && IsOrder(order, old(cfgs.Keys))
      ensures State() == RemoveAll(old(State()), newCfgs, order)
    {
      order := [];
      var todo := cfgs.Keys;
      while todo != {}
        invariant Valid() && NoRepeats(order)
        invariant forall id :: id in old(cfgs.Keys) <==> id in order || id in todo
        invariant forall id :: id in order ==> id !in todo
        invariant State() == RemoveAll(old(State()), newCfgs, order)
        decreases todo
      {
        var id :| id in todo;
        NoRepeatsAppend(order, id);
        assert (order + [id])[..|order|] == order;
        if id in cfgs && id !in newCfgs {
          RemoveConfig(cfgs[id]);
        }
        order := order + [id];
        todo := todo - {id};
      }
    }

    method ApplyNew(newCfgs: map<string, ServerConfig>) returns (ghost order: seq<string>)
      requires Valid() && NewKeyed(newCfgs)
      modifies this, workerManager, workerManager.timeline
      ensures Valid() && IsOrder(order, newCfgs.Keys)
      ensures State() == ApplyAll(AsWritten, old(State()), newCfgs, order)
    {
      order := [];
      var todo := newCfgs.Keys;
      while todo != {}
        invariant Valid() && NoRepeats(order)
        invariant forall id :: id in newCfgs.Keys <==> id in order || id in todo
        invariant forall id :: id in order ==> id !in todo && id in newCfgs
        invariant State() == ApplyAll(AsWritten, old(State()), newCfgs, order)
        decreases todo
      {
        var id :| id in todo;
        NoRepeatsAppend(order, id);
        assert (order + [id])[..|order|] == order;
        if id !in cfgs {
          AddConfig(newCfgs[id]);
        } else {
          UpdateConfig(newCfgs[id]);
        }
        order := order + [id];
        todo := todo - {id};
      }
    }

    method LoadAllConfigs(list: seq<ServerConfig>) returns (ghost l: Load)
      requires Valid() && cfgs != map[]
      modifies this, workerManager, workerManager.timeline
      ensures Valid() && l.cfgs == list && ValidLoad(old(State()), l)
      ensures State() == DoLoad(AsWritten, old(State()), l)
    {
      var newCfgs := IndexById(list);
      ByIdKeyed(list);
      ghost var r := RemoveGone(newCfgs);
      ghost var a := ApplyNew(newCfgs);
      l := Load(list, r, a);
    }

    method AddEach(list: seq<ServerConfig>)
      requires Valid()
      modifies this, workerManager, workerManager.timeline
      ensures Valid() && State() == AddAll(old(State()), list)
    {
      for i := 0 to |list|
        invariant Valid() && State() == AddAll(old(State()), list[..i])
      {
        assert list[..i + 1][..i] == list[..i];
        AddConfig(list[i]);
      }
      assert list[..|list|] == list;
    }

    /** A reload. Reading the files and converting a config (a private key may be unreadable)
        are up to the caller; either failing leaves everything as it was. */
    method Update(read: ReadResult, converts: ServerConfig -> bool) returns (failed: bool, ghost l: Load)
      requires Valid()
      modifies this, workerManager, workerManager.timeline
      ensures Valid()
      ensures failed <==> read.ReadError? || exists i :: 0 <= i < |read.cfgs| && !converts(read.cfgs[i])
      ensures failed ==> State() == old(State())
      ensures !failed ==> l.cfgs == read.cfgs && ValidLoad(old(State()), l)
                          && State() == DoLoad(AsWritten, old(State()), l)
    {
      l := Load([], [], []);
      if read.ReadError? {
        return true, l;
      }
      var newCfgs := read.cfgs;
      for i := 0 to |newCfgs|
        invariant forall k :: 0 <= k < i ==> converts(newCfgs[k])
        invariant State() == old(State())
      {
        if !converts(newCfgs[i]) {
          return true, l;
        }
      }
      failed := false;
      if |cfgs| == 0 {
        l := Load(newCfgs, [], []);
        AddEach(newCfgs);
      } else {
        l := LoadAllConfigs(newCfgs);
      }
    }
  }
}
