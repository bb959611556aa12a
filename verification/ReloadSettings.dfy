/** Which version of its config a backend works with: the last one it was configured with, or the
    one it was created from. */
module ReloadSettings {
  import opened ServerConfigs
  import opened Reload
  import opened ReloadByDomain
  import opened ReloadRuns

  /** The last config that `b` has been given. */
  function LastConfigured(ops: seq<ManagerOp>, b: Backend): Option<ServerConfig> {
    if ops == [] then None
    else
      var last := ops[|ops| - 1];
      if last.Configure? && last.b == b then Some(last.cfg) else LastConfigured(ops[..|ops| - 1], b)
  }

  predicate Configures(op: ManagerOp, b: Backend) {
    op.Configure? && op.b == b
  }

  lemma {:induction false} NoNewConfig(ops: seq<ManagerOp>, more: seq<ManagerOp>, b: Backend)
    requires forall i :: 0 <= i < |more| ==> !Configures(more[i], b)
    ensures LastConfigured(ops + more, b) == LastConfigured(ops, b)
    decreases |more|
  {
    if more == [] {
      assert ops + more == ops;
    } else {
      assert (ops + more)[..|ops + more| - 1] == ops + more[..|more| - 1];
      NoNewConfig(ops, more[..|more| - 1], b);
    }
  }

  lemma {:induction false} NewConfig(ops: seq<ManagerOp>, more: seq<ManagerOp>, b: Backend)
    requires more != [] && Configures(more[|more| - 1], b)
    ensures LastConfigured(ops + more, b) == Some(more[|more| - 1].cfg)
  {
    assert (ops + more)[|ops + more| - 1] == more[|more| - 1];
  }

  /** Backends that do not exist yet have not been configured. */
  ghost predicate NoneAhead(t: Tables) {
    forall b :: b >= t.next ==> LastConfigured(t.ops, b).None?
  }

  // ------------------------------------------------- one load

  lemma {:induction false} AddSettings(t: Tables, cfg: ServerConfig, b: Backend)
    ensures LastConfigured(AddConfig(t, cfg).ops, b) == LastConfigured(t.ops, b)
  {
    NoNewConfig(t.ops, [Spawn(t.next), PutAll(DomainSet(cfg), t.next), Push], b);
  }

  lemma {:induction false} RemoveSettings(t: Tables, cfg: ServerConfig, b: Backend)
    ensures LastConfigured(RemoveConfig(t, cfg).ops, b) == LastConfigured(t.ops, b)
  {
    if cfg.ID() in t.backends {
      NoNewConfig(t.ops, [DelAll(DomainSet(cfg)), Push, Close(t.backends[cfg.ID()])], b);
    }
  }

  lemma {:induction false} UpdateSettings(v: Variant, t: Tables, cfg: ServerConfig, b: Backend)
    requires cfg.ID() in t.cfgs && cfg.ID() in t.backends
    ensures LastConfigured(UpdateConfig(v, t, cfg).ops, b) ==
            if cfg != t.cfgs[cfg.ID()] && b == t.backends[cfg.ID()] then Some(cfg) else LastConfigured(t.ops, b)
  {
    var stored, c := t.cfgs[cfg.ID()], t.backends[cfg.ID()];
    if cfg != stored {
      var more := [PutAll(AddedDomains(cfg, stored), c), Push, DelAll(RemovedDomains(cfg, stored)), Push,
                   Configure(c, cfg)];
      assert UpdateConfig(v, t, cfg).ops == t.ops + more;
      if b == c { NewConfig(t.ops, more, b); } else { NoNewConfig(t.ops, more, b); }
    }
  }

  lemma {:induction false} RemoveAllSettings(t: Tables, news: map<string, ServerConfig>, order: seq<string>, b: Backend)
    ensures LastConfigured(RemoveAll(t, news, order).ops, b) == LastConfigured(t.ops, b)
  {
    if order != [] {
      var tp, id := RemoveAll(t, news, order[..|order| - 1]), order[|order| - 1];
      RemoveAllSettings(t, news, order[..|order| - 1], b);
      if id in tp.cfgs { RemoveSettings(tp, tp.cfgs[id], b); }
    }
  }

  lemma {:induction false} AddAllSettings(t: Tables, cfgs: seq<ServerConfig>, b: Backend)
    ensures LastConfigured(AddAll(t, cfgs).ops, b) == LastConfigured(t.ops, b)
  {
    if cfgs != [] {
      var p := cfgs[..|cfgs| - 1];
      AddAllSettings(t, p, b);
      AddSettings(AddAll(t, p), cfgs[|cfgs| - 1], b);
    }
  }

  /** The apply loop configures the backend of a stored id exactly if its turn has come with a
      version other than the stored one. */
  lemma {:induction false} ApplyAllSettings(
    v: Variant, t: Tables, news: map<string, ServerConfig>, order: seq<string>, id: string)
    requires Keyed(t) && Ledger(t) && NewKeyed(news) && NoRepeats(order) && (forall a :: a in order ==> a in news)
    requires id in t.cfgs
    ensures LastConfigured(ApplyAll(v, t, news, order).ops, t.backends[id]) ==
            if id in order && news[id] != t.cfgs[id] then Some(news[id]) else LastConfigured(t.ops, t.backends[id])
  {
    if order != [] {
      var n := |order| - 1;
      var p, last, tp := order[..n], order[n], ApplyAll(v, t, news, order[..n]);
      assert order == p + [last];
      PrefixLacks(order, n);
      ApplyAllSettings(v, t, news, p, id);
      AppliedId(v, t, news, p, id);
      AppliedId(v, t, news, p, last);
      LedgerApplyAll(v, t, news, p);
      if last in tp.cfgs {
        UpdateSettings(v, tp, news[last], t.backends[id]);
        assert tp.backends[last] == t.backends[id] ==> last == id;
      } else {
        AddSettings(tp, news[last], t.backends[id]);
      }
    }
  }

  /** A backend made during the loop is not configured by it. */
  lemma {:induction false} NewSettings(
    v: Variant, t: Tables, news: map<string, ServerConfig>, order: seq<string>, b: Backend)
    requires Keyed(t) && Ledger(t) && NewKeyed(news) && NoRepeats(order) && (forall a :: a in order ==> a in news)
    requires b >= t.next
    ensures LastConfigured(ApplyAll(v, t, news, order).ops, b) == LastConfigured(t.ops, b)
  {
    if order != [] {
      var n := |order| - 1;
      var p, last, tp := order[..n], order[n], ApplyAll(v, t, news, order[..n]);
      assert order == p + [last];
      PrefixLacks(order, n);
      NewSettings(v, t, news, p, b);
      AppliedId(v, t, news, p, last);
      if last in tp.cfgs {
        UpdateSettings(v, tp, news[last], b);
        assert last in t.cfgs && tp.backends[last] == t.backends[last] < t.next;
      } else {
        AddSettings(tp, news[last], b);
      }
    }
  }

  /** What a load does to the settings: a surviving backend is configured exactly if the new
      version differs from the stored one; the others are not. */
  lemma {:induction false} LoadSettings(v: Variant, t: Tables, l: Load, id: string)
    requires Keyed(t) && Ledger(t) && ValidLoad(t, l) && DistinctIds(l.cfgs) && NoneAhead(t)
    ensures NoneAhead(DoLoad(v, t, l))
    ensures id in ById(l.cfgs) ==>
      && id in DoLoad(v, t, l).backends
      && LastConfigured(DoLoad(v, t, l).ops, DoLoad(v, t, l).backends[id]) ==
           (if id !in t.cfgs then None
            else if ById(l.cfgs)[id] != t.cfgs[id] then Some(ById(l.cfgs)[id])
            else LastConfigured(t.ops, t.backends[id]))
  {
    var news, t' := ById(l.cfgs), DoLoad(v, t, l);
    forall b: Backend ensures b >= t.next ==> LastConfigured(t'.ops, b).None? {
      LoadLeavesNew(v, t, l, b);
    }
    LoadGrows(v, t, l);
    if id in news {
      if id in t.cfgs {
        LoadedId(v, t, l, id);
        SurvivorSettings(v, t, l, id);
      } else {
        NewIdNewBackend(v, t, l, id);
      }
    }
  }

  lemma {:induction false} LoadGrows(v: Variant, t: Tables, l: Load)
    requires Keyed(t) && ValidLoad(t, l)
    ensures DoLoad(v, t, l).next >= t.next
  {
    if t.cfgs == map[] {
      AddedIds(t, l.cfgs, "");
    } else {
      var news := ById(l.cfgs);
      RemoveAllId(t, news, l.removeOrder, "");
      ByIdKeyed(l.cfgs);
      AppliedId(v, RemoveAll(t, news, l.removeOrder), news, l.applyOrder, "");
    }
  }

  lemma {:induction false} LoadLeavesNew(v: Variant, t: Tables, l: Load, b: Backend)
    requires Keyed(t) && Ledger(t) && ValidLoad(t, l) && NoneAhead(t)
    ensures b >= t.next ==> LastConfigured(DoLoad(v, t, l).ops, b).None?
  {
    var news := ById(l.cfgs);
    if t.cfgs == map[] {
      AddAllSettings(t, l.cfgs, b);
    } else if b >= t.next {
      ByIdKeyed(l.cfgs);
      RemoveAllKeyed(t, news, l.removeOrder);
      LedgerRemoveAll(t, news, l.removeOrder);
      RemoveAllId(t, news, l.removeOrder, "");
      RemoveAllSettings(t, news, l.removeOrder, b);
      NewSettings(v, RemoveAll(t, news, l.removeOrder), news, l.applyOrder, b);
    }
  }

  lemma {:induction false} SurvivorSettings(v: Variant, t: Tables, l: Load, id: string)
    requires Keyed(t) && Ledger(t) && ValidLoad(t, l) && id in t.cfgs && id in ById(l.cfgs)
    ensures LastConfigured(DoLoad(v, t, l).ops, t.backends[id]) ==
            if ById(l.cfgs)[id] != t.cfgs[id] then Some(ById(l.cfgs)[id]) else LastConfigured(t.ops, t.backends[id])
  {
    var news := ById(l.cfgs);
    ByIdKeyed(l.cfgs);
    RemoveAllKeyed(t, news, l.removeOrder);
    LedgerRemoveAll(t, news, l.removeOrder);
    RemoveAllId(t, news, l.removeOrder, id);
    RemoveAllSettings(t, news, l.removeOrder, t.backends[id]);
    ApplyAllSettings(v, RemoveAll(t, news, l.removeOrder), news, l.applyOrder, id);
  }

  // ------------------------------------------------- runs

  /** The version that the backend of `id` works with. */
  ghost function Settings(v: Variant, run: seq<Load>, id: string): ServerConfig
    requires id in LastIds(run) && id in After(v, run).backends
  {
    var c := LastConfigured(After(v, run).ops, After(v, run).backends[id]);
    if c.Some? then c.value else FirstAdded(run, id)
  }

  /** Since `id` last appeared, every list has had it in the version it appeared with. */
  ghost predicate NeverChanged(run: seq<Load>, id: string)
    requires id in LastIds(run)
  {
    var p := run[..|run| - 1];
    && ById(run[|run| - 1].cfgs)[id] == FirstAdded(run, id)
    && (id in LastIds(p) ==> NeverChanged(p, id))
  }

  lemma {:induction false} RunNoneAhead(v: Variant, run: seq<Load>)
    requires ValidRun(v, run)
    ensures NoneAhead(After(v, run))
  {
    if run != [] {
      var n := |run| - 1;
      assert run[..n + 1] == run;
      ValidPrefix(v, run, n);
      RunNoneAhead(v, run[..n]);
      RunTables(v, run[..n]);
      AfterNext(v, run, n);
      LoadSettings(v, After(v, run[..n]), run[n], "");
    }
  }

  /** The settings after one more load. */
  lemma {:induction false} SettingsNext(v: Variant, run: seq<Load>, id: string)
    requires ValidRun(v, run) && id in LastIds(run)
    ensures id in After(v, run).backends
    ensures var p, latest := run[..|run| - 1], ById(run[|run| - 1].cfgs)[id];
      if id !in LastIds(p) then Settings(v, run, id) == latest == FirstAdded(run, id)
      else
        && id in After(v, p).backends && FirstAdded(run, id) == FirstAdded(p, id)
        && Settings(v, run, id) == if latest != After(v, p).cfgs[id] then latest else Settings(v, p, id)
  {
    var n := |run| - 1;
    var p := run[..n];
    assert run[..n + 1] == run;
    RunTables(v, run);
    ValidPrefix(v, run, n);
    RunTables(v, p);
    RunNoneAhead(v, p);
    AfterNext(v, run, n);
    LoadSettings(v, After(v, p), run[n], id);
  }

  /** As written, the settings are the first ones exactly if nothing else has been configured. */
  lemma {:induction false} FirstSettings(run: seq<Load>, id: string)
    requires ValidRun(AsWritten, run) && id in LastIds(run)
    ensures id in After(AsWritten, run).backends
    ensures Settings(AsWritten, run, id) == FirstAdded(run, id) <==> NeverChanged(run, id)
  {
    SettingsNext(AsWritten, run, id);
    var p := run[..|run| - 1];
    if id in LastIds(p) {
      ValidPrefix(AsWritten, run, |run| - 1);
      RunTables(AsWritten, p);
      FirstSettings(p, id);
    }
  }

  /** As written, over every run: a backend works with the version of the last list exactly if
      that differs from the version its id first appeared with, or no list since then did. */
  lemma {:induction false} SettingsExact(run: seq<Load>, id: string)
    requires ValidRun(AsWritten, run) && id in LastIds(run)
    ensures id in After(AsWritten, run).backends
    ensures var latest := ById(run[|run| - 1].cfgs)[id];
      Settings(AsWritten, run, id) == latest <==> latest != FirstAdded(run, id) || NeverChanged(run, id)
  {
    SettingsNext(AsWritten, run, id);
    FirstSettings(run, id);
    var p := run[..|run| - 1];
    if id in LastIds(p) {
      ValidPrefix(AsWritten, run, |run| - 1);
      RunTables(AsWritten, p);
    }
  }

  /** The variant that records what it applied always works with the version of the last list. */
  lemma {:induction false} RecordingSettings(run: seq<Load>, id: string)
    requires ValidRun(Recording, run) && id in LastIds(run)
    ensures id in After(Recording, run).backends
    ensures Settings(Recording, run, id) == ById(run[|run| - 1].cfgs)[id]
  {
    SettingsNext(Recording, run, id);
    var p := run[..|run| - 1];
    if id in LastIds(p) {
      ValidPrefix(Recording, run, |run| - 1);
      RunTables(Recording, p);
      RecordingSettings(p, id);
    }
  }
}
