/** The order of what a reload does: no backend is closed before the workers have all
    been told of a catalog without it. */
module ReloadScript {
  import opened ServerConfigs
  import opened Reload
  import opened ReloadRoutes
  import opened ReloadByDomain
  import opened ReloadRuns

  datatype Life = Unborn | Alive | Gone

  /** A script seen from one backend: the catalog, whether every worker has been updated
      since the backend left it (`clear`), and whether nothing wrong has happened so far. */
  datatype Watch = Watch(dict: map<string, Backend>, clear: bool, life: Life, ok: bool)

  function WatchOp(b: Backend, w: Watch, op: ManagerOp): Watch {
    match op
    case Spawn(c) =>
      if c == b then w.(life := Alive, ok := w.ok && w.life.Unborn?) else w
    case PutAll(ds, c) =>
      w.(dict := w.dict + (map d | d in ds :: c), clear := w.clear && c != b,
         ok := w.ok && (c == b ==> w.life.Alive?))
    case DelAll(ds) => w.(dict := w.dict - ds)
    case Push => w.(clear := w.clear || b !in w.dict.Values)
    case Configure(c, _) => w.(ok := w.ok && (c == b ==> w.life.Alive?))
    case Close(c) =>
      if c == b then w.(life := Gone, ok := w.ok && w.life.Alive? && w.clear && b !in w.dict.Values) else w
  }

  function WatchAll(b: Backend, w: Watch, ops: seq<ManagerOp>): Watch
    decreases |ops|
  {
    if ops == [] then w else WatchAll(b, WatchOp(b, w, ops[0]), ops[1..])
  }

  lemma {:induction false} WatchAppend(b: Backend, w: Watch, p: seq<ManagerOp>, q: seq<ManagerOp>)
    ensures WatchAll(b, w, p + q) == WatchAll(b, WatchAll(b, w, p), q)
    decreases |p|
  {
    if p == [] {
      assert p + q == q;
    } else {
      assert (p + q)[1..] == p[1..] + q;
      WatchAppend(b, WatchOp(b, w, p[0]), p[1..], q);
    }
  }

  /** `w'` is `w`, only with workers that may be better informed. */
  predicate Clearer(w: Watch, w': Watch) {
    && w'.dict == w.dict && w'.life == w.life
    && (w.clear ==> w'.clear) && (w.ok ==> w'.ok)
  }

  lemma {:induction false} OpClearer(b: Backend, w: Watch, w': Watch, op: ManagerOp)
    requires Clearer(w, w')
    ensures Clearer(WatchOp(b, w, op), WatchOp(b, w', op))
  {
  }

  /** A script that is fine for uninformed workers is fine for informed ones. */
  lemma {:induction false} WatchClearer(b: Backend, w: Watch, w': Watch, ops: seq<ManagerOp>)
    requires Clearer(w, w') && WatchAll(b, w, ops).ok
    ensures WatchAll(b, w', ops).ok
    decreases |ops|
  {
    if ops != [] {
      OpClearer(b, w, w', ops[0]);
      WatchClearer(b, WatchOp(b, w, ops[0]), WatchOp(b, w', ops[0]), ops[1..]);
    }
  }

  /** Once wrong, always wrong. */
  lemma {:induction false} WatchOkBack(b: Backend, w: Watch, ops: seq<ManagerOp>)
    requires WatchAll(b, w, ops).ok
    ensures w.ok
    decreases |ops|
  {
    if ops != [] {
      WatchOkBack(b, WatchOp(b, w, ops[0]), ops[1..]);
    }
  }

  // ------------------------------------------------- the script of a reload

  ghost function LifeOf(t: Tables, b: Backend): Life {
    if InUse(t, b) then Alive else if b < t.next then Gone else Unborn
  }

  ghost function StartWatch(t: Tables, b: Backend): Watch {
    Watch(t.dict, false, LifeOf(t, b), true)
  }

  /** From `start` to `t` the script has been safe for `b`, and the watch is up to date. */
  ghost predicate SafeSince(start: Tables, t: Tables, b: Backend) {
    && start.ops <= t.ops
    && var w := WatchAll(b, StartWatch(start, b), t.ops[|start.ops|..]);
      w.ok && w.dict == t.dict && w.life == LifeOf(t, b)
  }

  /** Every catalog entry for the backend of `id` is one of the stored domains of `id`. */
  ghost predicate OwnStored(t: Tables, id: string)
    requires id in t.cfgs && id in t.backends
  {
    forall d :: d in t.dict && t.dict[d] == t.backends[id] ==> d in t.cfgs[id].domains
  }

  ghost predicate RemovedOwnStored(t: Tables, news: map<string, ServerConfig>)
    requires Keyed(t)
  {
    forall id :: id in t.cfgs && id !in news ==> OwnStored(t, id)
  }

  lemma {:induction false} SafeStep(start: Tables, t: Tables, t': Tables, b: Backend, step: seq<ManagerOp>)
    requires SafeSince(start, t, b) && t'.ops == t.ops + step
    ensures var w := WatchAll(b, StartWatch(start, b), t.ops[|start.ops|..]);
      && start.ops <= t'.ops
      && WatchAll(b, StartWatch(start, b), t'.ops[|start.ops|..]) == WatchAll(b, w, step)
  {
    assert t'.ops[|start.ops|..] == t.ops[|start.ops|..] + step;
    WatchAppend(b, StartWatch(start, b), t.ops[|start.ops|..], step);
  }

  lemma {:induction false} Watch3(b: Backend, w: Watch, x: ManagerOp, y: ManagerOp, z: ManagerOp)
    ensures WatchAll(b, w, [x, y, z]) == WatchOp(b, WatchOp(b, WatchOp(b, w, x), y), z)
  {
    var yz, w' := [y, z], WatchOp(b, w, x);
    assert [x, y, z][1..] == yz && yz[1..] == [z] && [z][1..] == [];
    assert WatchAll(b, w, [x, y, z]) == WatchAll(b, w', yz);
    assert WatchAll(b, w', yz) == WatchAll(b, WatchOp(b, w', y), [z]);
    assert WatchAll(b, WatchOp(b, w', y), [z]) == WatchAll(b, WatchOp(b, WatchOp(b, w', y), z), []);
  }

  lemma {:induction false} SafeAdd(start: Tables, t: Tables, cfg: ServerConfig, b: Backend)
    requires SafeSince(start, t, b) && OwnBackends(t) && cfg.ID() !in t.backends
    ensures SafeSince(start, AddConfig(t, cfg), b)
  {
    var t', ds := AddConfig(t, cfg), DomainSet(cfg);
    SafeStep(start, t, t', b, [Spawn(t.next), PutAll(ds, t.next), Push]);
    var w := WatchAll(b, StartWatch(start, b), t.ops[|start.ops|..]);
    Watch3(b, w, Spawn(t.next), PutAll(ds, t.next), Push);
    if InUse(t, b) {
      var id :| id in t.backends && t.backends[id] == b;
      assert t'.backends[id] == b;
    }
    if b == t.next { assert t'.backends[cfg.ID()] == b; }
  }

  /** A removal's script is safe for the backend it closes exactly when every catalog
      entry for it is a stored domain. */
  lemma {:induction false} RemoveSafeExact(start: Tables, t: Tables, id: string)
    requires Keyed(t) && OwnBackends(t) && id in t.cfgs && SafeSince(start, t, t.backends[id])
    ensures SafeSince(start, RemoveConfig(t, t.cfgs[id]), t.backends[id]) <==> OwnStored(t, id)
  {
    var b, ds := t.backends[id], DomainSet(t.cfgs[id]);
    var t' := RemoveConfig(t, t.cfgs[id]);
    SafeStep(start, t, t', b, [DelAll(ds), Push, Close(b)]);
    var w := WatchAll(b, StartWatch(start, b), t.ops[|start.ops|..]);
    Watch3(b, w, DelAll(ds), Push, Close(b));
    assert InUse(t, b) && !InUse(t', b);
    forall d | d in t'.dict ensures d in t.dict && d !in ds && t'.dict[d] == t.dict[d] {
    }
    if b in t'.dict.Values {
      var d :| d in t'.dict && t'.dict[d] == b;
      assert d !in t.cfgs[id].domains;
    } else {
      forall d ensures d in t.dict && t.dict[d] == b ==> d in t.cfgs[id].domains {
        assert d in t.dict && d !in ds ==> t'.dict[d] in t'.dict.Values;
      }
    }
  }

  lemma {:induction false} SafeRemove(start: Tables, t: Tables, id: string, b: Backend)
    requires Keyed(t) && OwnBackends(t) && id in t.cfgs && OwnStored(t, id) && SafeSince(start, t, b)
    ensures SafeSince(start, RemoveConfig(t, t.cfgs[id]), b)
  {
    if b == t.backends[id] {
      RemoveSafeExact(start, t, id);
    } else {
      var t', ds, c := RemoveConfig(t, t.cfgs[id]), DomainSet(t.cfgs[id]), t.backends[id];
      SafeStep(start, t, t', b, [DelAll(ds), Push, Close(c)]);
      var w := WatchAll(b, StartWatch(start, b), t.ops[|start.ops|..]);
      Watch3(b, w, DelAll(ds), Push, Close(c));
      if InUse(t, b) {
        var a :| a in t.backends && t.backends[a] == b;
        assert t'.backends[a] == b;
      }
    }
  }

  lemma {:induction false} Watch5(
    b: Backend, w: Watch, x: ManagerOp, y: ManagerOp, z: ManagerOp, u: ManagerOp, v: ManagerOp)
    ensures WatchAll(b, w, [x, y, z, u, v])
         == WatchOp(b, WatchOp(b, WatchOp(b, WatchOp(b, WatchOp(b, w, x), y), z), u), v)
  {
    assert [x, y, z, u, v] == [x, y] + [z, u, v];
    WatchAppend(b, w, [x, y], [z, u, v]);
    assert [x, y][1..] == [y] && [y][1..] == [];
    assert WatchAll(b, WatchOp(b, w, x), [y]) == WatchOp(b, WatchOp(b, w, x), y);
    Watch3(b, WatchOp(b, WatchOp(b, w, x), y), z, u, v);
  }

  lemma {:induction false} SafeUpdate(start: Tables, v: Variant, t: Tables, cfg: ServerConfig, b: Backend)
    requires Keyed(t) && cfg.ID() in t.cfgs && SafeSince(start, t, b)
    ensures SafeSince(start, UpdateConfig(v, t, cfg), b)
  {
    var t' := UpdateConfig(v, t, cfg);
    if t' != t {
      var stored, c := t.cfgs[cfg.ID()], t.backends[cfg.ID()];
      var add, rem := AddedDomains(cfg, stored), RemovedDomains(cfg, stored);
      SafeStep(start, t, t', b, [PutAll(add, c), Push, DelAll(rem), Push, Configure(c, cfg)]);
      var w := WatchAll(b, StartWatch(start, b), t.ops[|start.ops|..]);
      Watch5(b, w, PutAll(add, c), Push, DelAll(rem), Push, Configure(c, cfg));
      assert InUse(t, c);
      assert InUse(t, b) <==> InUse(t', b);
    }
  }

  lemma {:induction false} SafeRemoveAll(t: Tables, news: map<string, ServerConfig>, order: seq<string>, b: Backend)
    requires Keyed(t) && Ledger(t) && RemovedOwnStored(t, news)
    ensures SafeSince(t, RemoveAll(t, news, order), b)
    ensures Keyed(RemoveAll(t, news, order)) && RemovedOwnStored(RemoveAll(t, news, order), news)
  {
    RemoveAllKeyed(t, news, order);
    if order == [] {
      assert t.ops[|t.ops|..] == [];
    } else {
      var p, id := order[..|order| - 1], order[|order| - 1];
      SafeRemoveAll(t, news, p, b);
      var tp := RemoveAll(t, news, p);
      if id in tp.cfgs && id !in news {
        LedgerRemoveAll(t, news, p);
        SafeRemove(t, tp, id, b);
        OwnStoredKept(tp, news, id);
      }
    }
  }

  lemma {:induction false} OwnStoredKept(t: Tables, news: map<string, ServerConfig>, id: string)
    requires Keyed(t) && RemovedOwnStored(t, news) && id in t.cfgs
    ensures RemovedOwnStored(RemoveConfig(t, t.cfgs[id]), news)
  {
    var t' := RemoveConfig(t, t.cfgs[id]);
    forall a | a in t'.cfgs && a !in news ensures OwnStored(t', a) {
      assert OwnStored(t, a);
    }
  }

  lemma {:induction false} SafeApplyAll(
    start: Tables, v: Variant, t: Tables, news: map<string, ServerConfig>, order: seq<string>, b: Backend)
    requires Keyed(t) && Ledger(t) && NewKeyed(news) && (forall id :: id in order ==> id in news)
    requires SafeSince(start, t, b)
    ensures SafeSince(start, ApplyAll(v, t, news, order), b)
  {
    if order != [] {
      var p, cfg := order[..|order| - 1], news[order[|order| - 1]];
      SafeApplyAll(start, v, t, news, p, b);
      LedgerApplyAll(v, t, news, p);
      var tp := ApplyAll(v, t, news, p);
      if cfg.ID() in tp.cfgs { SafeUpdate(start, v, tp, cfg, b); } else { SafeAdd(start, tp, cfg, b); }
    }
  }

  lemma {:induction false} SafeAddAll(t: Tables, cfgs: seq<ServerConfig>, b: Backend)
    requires Keyed(t) && Ledger(t) && t.cfgs == map[] && DistinctIds(cfgs)
    ensures SafeSince(t, AddAll(t, cfgs), b)
  {
    if cfgs == [] {
      assert t.ops[|t.ops|..] == [];
    } else {
      var p, last := cfgs[..|cfgs| - 1], cfgs[|cfgs| - 1];
      assert DistinctIds(p);
      SafeAddAll(t, p, b);
      LedgerAddAll(t, p);
      AddAllKeyed(t, p);
      if last.ID() in ById(p) {
        ByIdSound(p, last.ID());
        assert false;
      }
      SafeAdd(t, AddAll(t, p), last, b);
    }
  }

  /** The script a load appends to `ops`. */
  ghost function Script(v: Variant, t: Tables, l: Load): seq<ManagerOp>
    requires Keyed(t) && ValidLoad(t, l)
  {
    var all := DoLoad(v, t, l).ops;
    if |t.ops| <= |all| then all[|t.ops|..] else []
  }

  /** Whatever orders the loops take, a load whose removed backends are only reachable by
      stored domains drains every backend before closing it. */
  lemma {:induction false} LoadScriptSafe(v: Variant, t: Tables, l: Load, b: Backend)
    requires Keyed(t) && Ledger(t) && ValidLoad(t, l) && DistinctIds(l.cfgs)
    requires RemovedOwnStored(t, ById(l.cfgs))
    ensures WatchAll(b, StartWatch(t, b), Script(v, t, l)).ok
    ensures SafeSince(t, DoLoad(v, t, l), b)
  {
    if t.cfgs == map[] {
      SafeAddAll(t, l.cfgs, b);
    } else {
      var news := ById(l.cfgs);
      ByIdKeyed(l.cfgs);
      SafeRemoveAll(t, news, l.removeOrder, b);
      LedgerRemoveAll(t, news, l.removeOrder);
      SafeApplyAll(t, v, RemoveAll(t, news, l.removeOrder), news, l.applyOrder, b);
    }
  }

  /** No config to be removed has gained a domain since the version that is stored of it. */
  ghost predicate NoGrownRemoval(
    stored: map<string, ServerConfig>, cur: map<string, ServerConfig>, news: map<string, ServerConfig>)
  {
    forall id, d :: id !in news && Has(cur, id, d) ==> Has(stored, id, d)
  }

  /** While the routes are right, the condition of `LoadScriptSafe` is about the configs only:
      what is removed must be stored with every domain it has by now. Shrunk and unchanged
      configs meet it; coherent tables always do. */
  lemma {:induction false} RemovedOwnStoredExact(
    t: Tables, cur: map<string, ServerConfig>, news: map<string, ServerConfig>)
    requires Keyed(t) && Ledger(t) && Agrees(t, cur)
    ensures RemovedOwnStored(t, news) <==> NoGrownRemoval(t.cfgs, cur, news)
  {
    forall id, d ensures id in t.cfgs ==> (d in t.dict && t.dict[d] == t.backends[id] <==> Has(cur, id, d)) {
      assert RouteSound(t, cur, d) && RouteComplete(t, cur, id, d);
    }
    if RemovedOwnStored(t, news) {
      forall id, d | id !in news && Has(cur, id, d) ensures Has(t.cfgs, id, d) {
        assert OwnStored(t, id);
      }
    }
  }

  /** As written, after a run that ends right: the next load drains what it closes exactly when
      nothing it removes has grown since it was first added. */
  lemma {:induction false} RunOwnStoredExact(run: seq<Load>, news: map<string, ServerConfig>)
    requires VerifiedRun(AsWritten, run) && run != [] && RoutesRightAt(AsWritten, run, |run| - 1)
    ensures RemovedOwnStored(After(AsWritten, run), news) <==>
            NoGrownRemoval(FirstVersions(run), ById(run[|run| - 1].cfgs), news)
  {
    var n, prev := |run|, run[|run| - 1].cfgs;
    assert run[..n] == run && run[..n - 1 + 1] == run;
    StoredBefore(AsWritten, run, n);
    RunTables(AsWritten, run);
    RebuiltAgrees(After(AsWritten, run), prev);
    RemovedOwnStoredExact(After(AsWritten, run), ById(prev), news);
  }

  lemma {:induction false} CoherentOwnStored(t: Tables, news: map<string, ServerConfig>)
    requires Coherent(t) && Ledger(t)
    ensures RemovedOwnStored(t, news)
  {
    RemovedOwnStoredExact(t, t.cfgs, news);
  }
}
