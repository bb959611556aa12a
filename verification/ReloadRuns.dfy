/** Whole runs of reloads: which backends live, which config an id is stored with, and
    when the routes stay right all along. */
module ReloadRuns {
  import opened ServerConfigs
  import opened Reload
  import opened ReloadRoutes
  import opened ReloadByDomain

  // ------------------------------------------------- created once, closed once

  ghost predicate InUse(t: Tables, b: Backend) {
    exists id :: id in t.backends && t.backends[id] == b
  }

  /** Backend `b` was created once if ever, and closed once if it is no longer in use. */
  ghost predicate LedgerFor(t: Tables, b: Backend) {
    && multiset(t.ops)[Spawn(b)] == (if b < t.next then 1 else 0)
    && multiset(t.ops)[Close(b)] == (if b < t.next && !InUse(t, b) then 1 else 0)
  }

  /** No backend serves two ids, and all of them have been created. */
  ghost predicate OwnBackends(t: Tables) {
    && (forall id :: id in t.backends ==> t.backends[id] < t.next)
    && (forall a, c :: a in t.backends && c in t.backends && t.backends[a] == t.backends[c] ==> a == c)
  }

  ghost predicate Ledger(t: Tables) {
    && OwnBackends(t)
    && forall b :: LedgerFor(t, b)
  }

  lemma {:induction false} LedgerAdd(t: Tables, cfg: ServerConfig)
    requires Ledger(t) && cfg.ID() !in t.backends
    ensures Ledger(AddConfig(t, cfg))
  {
    var t' := AddConfig(t, cfg);
    forall b: Backend ensures LedgerFor(t', b) {
      assert LedgerFor(t, b);
      assert multiset(t'.ops) == multiset(t.ops) + multiset{Spawn(t.next), PutAll(DomainSet(cfg), t.next), Push};
      if InUse(t, b) {
        var id :| id in t.backends && t.backends[id] == b;
        assert t'.backends[id] == b;
      }
      if b == t.next { assert t'.backends[cfg.ID()] == b; }
    }
  }

  lemma {:induction false} LedgerRemove(t: Tables, cfg: ServerConfig)
    requires Ledger(t)
    ensures Ledger(RemoveConfig(t, cfg))
  {
    var t', id := RemoveConfig(t, cfg), cfg.ID();
    if id in t.backends {
      forall b: Backend ensures LedgerFor(t', b) {
        assert LedgerFor(t, b);
        assert multiset(t'.ops) == multiset(t.ops) + multiset{DelAll(DomainSet(cfg)), Push, Close(t.backends[id])};
        if InUse(t, b) && b != t.backends[id] {
          var a :| a in t.backends && t.backends[a] == b;
          assert t'.backends[a] == b;
        }
      }
    }
  }

  lemma {:induction false} LedgerUpdate(v: Variant, t: Tables, cfg: ServerConfig)
    requires Ledger(t) && cfg.ID() in t.cfgs && cfg.ID() in t.backends
    ensures Ledger(UpdateConfig(v, t, cfg))
  {
    var t' := UpdateConfig(v, t, cfg);
    UpdateOps(v, t, cfg);
    forall b: Backend ensures LedgerFor(t', b) {
      assert LedgerFor(t, b);
      assert InUse(t, b) <==> InUse(t', b);
    }
  }

  /** An update neither creates nor closes. */
  lemma {:induction false} UpdateOps(v: Variant, t: Tables, cfg: ServerConfig)
    requires cfg.ID() in t.cfgs && cfg.ID() in t.backends
    ensures var t' := UpdateConfig(v, t, cfg);
      && t'.backends == t.backends && t'.next == t.next
      && forall b :: multiset(t'.ops)[Spawn(b)] == multiset(t.ops)[Spawn(b)]
                  && multiset(t'.ops)[Close(b)] == multiset(t.ops)[Close(b)]
  {
    var t' := UpdateConfig(v, t, cfg);
    if t' != t {
      var stored, b0 := t.cfgs[cfg.ID()], t.backends[cfg.ID()];
      assert multiset(t'.ops) == multiset(t.ops) +
        multiset{PutAll(AddedDomains(cfg, stored), b0), Push, DelAll(RemovedDomains(cfg, stored)), Push,
                 Configure(b0, cfg)};
    }
  }

  lemma {:induction false} LedgerRemoveAll(t: Tables, news: map<string, ServerConfig>, order: seq<string>)
    requires Ledger(t)
    ensures Ledger(RemoveAll(t, news, order))
  {
    if order != [] {
      var p, id := order[..|order| - 1], order[|order| - 1];
      LedgerRemoveAll(t, news, p);
      var tp := RemoveAll(t, news, p);
      if id in tp.cfgs { LedgerRemove(tp, tp.cfgs[id]); }
    }
  }

  lemma {:induction false} LedgerApplyAll(v: Variant, t: Tables, news: map<string, ServerConfig>, order: seq<string>)
    requires Ledger(t) && Keyed(t) && NewKeyed(news) && forall id :: id in order ==> id in news
    ensures Ledger(ApplyAll(v, t, news, order))
  {
    if order != [] {
      var p, cfg := order[..|order| - 1], news[order[|order| - 1]];
      LedgerApplyAll(v, t, news, p);
      var tp := ApplyAll(v, t, news, p);
      if cfg.ID() in tp.cfgs { LedgerUpdate(v, tp, cfg); } else { LedgerAdd(tp, cfg); }
    }
  }

  lemma {:induction false} LedgerAddAll(t: Tables, cfgs: seq<ServerConfig>)
    requires Ledger(t) && Keyed(t) && t.cfgs == map[] && DistinctIds(cfgs)
    ensures Ledger(AddAll(t, cfgs)) && AddAll(t, cfgs).cfgs == ById(cfgs)
  {
    if cfgs != [] {
      var p, last := cfgs[..|cfgs| - 1], cfgs[|cfgs| - 1];
      assert DistinctIds(p);
      LedgerAddAll(t, p);
      AddAllKeyed(t, p);
      if last.ID() in ById(p) {
        ByIdSound(p, last.ID());
        assert false;
      }
      LedgerAdd(AddAll(t, p), last);
    }
  }

  // ------------------------------------------------- what happens to one id

  /** One load: which ids remain, which config they are stored with, which backend they have. */
  lemma {:induction false} LoadedId(v: Variant, t: Tables, l: Load, id: string)
    requires Keyed(t) && Ledger(t) && ValidLoad(t, l) && DistinctIds(l.cfgs)
    ensures var t', news := DoLoad(v, t, l), ById(l.cfgs);
      && (id in t'.cfgs <==> id in news)
      && (id in news ==> t'.cfgs[id] == if v.AsWritten? && id in t.cfgs then t.cfgs[id] else news[id])
      && (id in news && id in t.cfgs ==> id in t'.backends && t'.backends[id] == t.backends[id])
  {
    var news := ById(l.cfgs);
    if t.cfgs == map[] {
      LedgerAddAll(t, l.cfgs);
    } else {
      ByIdKeyed(l.cfgs);
      RemoveAllKeyed(t, news, l.removeOrder);
      RemoveAllId(t, news, l.removeOrder, id);
      AppliedId(v, RemoveAll(t, news, l.removeOrder), news, l.applyOrder, id);
    }
  }

  lemma {:induction false} AddedIds(t: Tables, cfgs: seq<ServerConfig>, id: string)
    requires Keyed(t)
    ensures var t' := AddAll(t, cfgs);
      t'.next >= t.next && (id in ById(cfgs) ==> id in t'.backends && t'.backends[id] >= t.next)
  {
    if cfgs != [] {
      AddedIds(t, cfgs[..|cfgs| - 1], id);
    }
  }

  /** An id new in this load gets a backend that did not exist before. */
  lemma {:induction false} NewIdNewBackend(v: Variant, t: Tables, l: Load, id: string)
    requires Keyed(t) && Ledger(t) && ValidLoad(t, l) && DistinctIds(l.cfgs)
    requires id in ById(l.cfgs) && id !in t.cfgs
    ensures id in DoLoad(v, t, l).backends && DoLoad(v, t, l).backends[id] >= t.next
  {
    var news := ById(l.cfgs);
    if t.cfgs == map[] {
      AddedIds(t, l.cfgs, id);
    } else {
      ByIdKeyed(l.cfgs);
      RemoveAllKeyed(t, news, l.removeOrder);
      RemoveAllId(t, news, l.removeOrder, id);
      AppliedId(v, RemoveAll(t, news, l.removeOrder), news, l.applyOrder, id);
    }
  }

  lemma {:induction false} LoadKeepsLedger(v: Variant, t: Tables, l: Load)
    requires Keyed(t) && Ledger(t) && ValidLoad(t, l) && DistinctIds(l.cfgs)
    ensures Ledger(DoLoad(v, t, l))
  {
    if t.cfgs == map[] {
      LedgerAddAll(t, l.cfgs);
    } else {
      ByIdKeyed(l.cfgs);
      RemoveAllKeyed(t, ById(l.cfgs), l.removeOrder);
      LedgerRemoveAll(t, ById(l.cfgs), l.removeOrder);
      LedgerApplyAll(v, RemoveAll(t, ById(l.cfgs), l.removeOrder), ById(l.cfgs), l.applyOrder);
    }
  }

  // ------------------------------------------------- runs

  /** The tables after a run of successful loads from nothing. A load whose orders do
      not fit the tables cannot happen and is skipped; `ValidRun` has none. */
  ghost function After(v: Variant, run: seq<Load>): (t: Tables)
    ensures Keyed(t)
  {
    if run == [] then EMPTY_TABLES
    else
      var t, l := After(v, run[..|run| - 1]), run[|run| - 1];
      if ValidLoad(t, l) then
        DoLoadKeyed(v, t, l);
        DoLoad(v, t, l)
      else t
  }

  ghost predicate ValidRun(v: Variant, run: seq<Load>) {
    forall k :: 0 <= k < |run| ==> ValidLoad(After(v, run[..k]), run[k]) && DistinctIds(run[k].cfgs)
  }

  lemma {:induction false} ValidPrefix(v: Variant, run: seq<Load>, n: nat)
    requires ValidRun(v, run) && n <= |run|
    ensures ValidRun(v, run[..n])
  {
    forall k | 0 <= k < n
      ensures ValidLoad(After(v, run[..n][..k]), run[..n][k]) && DistinctIds(run[..n][k].cfgs)
    {
      assert run[..n][..k] == run[..k];
    }
  }

  lemma {:induction false} RunExtended(v: Variant, run: seq<Load>, l: Load)
    requires ValidRun(v, run) && ValidLoad(After(v, run), l) && DistinctIds(l.cfgs)
    ensures ValidRun(v, run + [l]) && After(v, run + [l]) == DoLoad(v, After(v, run), l)
  {
    var all := run + [l];
    assert all[..|run|] == run;
    forall k | 0 <= k < |all| ensures ValidLoad(After(v, all[..k]), all[k]) && DistinctIds(all[k].cfgs) {
      if k < |run| { assert all[..k] == run[..k]; }
    }
  }

  ghost function LastIds(run: seq<Load>): set<string> {
    if run == [] then {} else ById(run[|run| - 1].cfgs).Keys
  }

  /** The version of `id` that was current when it last (re)appeared. */
  ghost function FirstAdded(run: seq<Load>, id: string): ServerConfig
    requires id in LastIds(run)
  {
    var p := run[..|run| - 1];
    if id in LastIds(p) then FirstAdded(p, id) else ById(run[|run| - 1].cfgs)[id]
  }

  /** Over every run: the stored ids are those of the last load; every backend is created
      once and closed once; and an id is stored with the version it was first added with
      (as the code is written) or with its last version (recording variant). */
  lemma {:induction false} RunTables(v: Variant, run: seq<Load>)
    requires ValidRun(v, run)
    ensures Ledger(After(v, run))
    ensures After(v, run).cfgs.Keys == After(v, run).backends.Keys == LastIds(run)
    ensures forall id :: id in LastIds(run) ==>
      After(v, run).cfgs[id] == if v.AsWritten? then FirstAdded(run, id) else ById(run[|run| - 1].cfgs)[id]
  {
    if run != [] {
      var n := |run| - 1;
      var p, l := run[..n], run[n];
      ValidPrefix(v, run, n);
      RunTables(v, p);
      var t := After(v, p);
      LoadKeepsLedger(v, t, l);
      forall id ensures id in After(v, run).cfgs <==> id in LastIds(run) {
        LoadedId(v, t, l, id);
      }
      forall id | id in LastIds(run)
        ensures After(v, run).cfgs[id] == if v.AsWritten? then FirstAdded(run, id) else ById(l.cfgs)[id]
      {
        LoadedId(v, t, l, id);
      }
    } else {
      assert LastIds([]) == {};
    }
  }

  // ------------------------------------------------- when the routes stay right

  ghost predicate RoutesRightAt(v: Variant, run: seq<Load>, k: nat)
    requires k < |run|
  {
    Rebuilt(After(v, run[..k + 1]), run[k].cfgs)
  }

  /** Load `k` takes no domain over from a config of the load before it too early. */
  ghost predicate SafeAt(run: seq<Load>, k: nat)
    requires k < |run|
  {
    k > 0 ==>
      OrderSafe(ById(run[k - 1].cfgs), ById(run[k].cfgs), run[k].applyOrder)
  }

  /** The versions the code keeps: every id as it was when it last appeared. */
  ghost function FirstVersions(run: seq<Load>): map<string, ServerConfig> {
    map id | id in LastIds(run) :: FirstAdded(run, id)
  }

  /** Load `k` compares the right things: every domain is safe, given the versions kept and
      the configs of the load before. */
  ghost predicate SafeAsWrittenAt(run: seq<Load>, k: nat)
    requires k < |run|
  {
    k > 0 ==>
      AllSafe(FirstVersions(run[..k]), ById(run[k - 1].cfgs), ById(run[k].cfgs), run[k].applyOrder)
  }

  ghost predicate VerifiedRun(v: Variant, run: seq<Load>) {
    ValidRun(v, run) && forall k :: 0 <= k < |run| ==> DomainsUnique(run[k].cfgs)
  }

  /** A load after a right one, from any stored versions. */
  lemma {:induction false} NextLoadExact(v: Variant, t: Tables, prev: seq<ServerConfig>, l: Load)
    requires Keyed(t) && t.cfgs.Keys == ById(prev).Keys && Rebuilt(t, prev)
    requires DistinctIds(prev) && DomainsUnique(prev)
    requires forall id :: id in t.cfgs ==> NoRepeats(t.cfgs[id].domains)
    requires ValidLoad(t, l) && DistinctIds(l.cfgs) && DomainsUnique(l.cfgs)
    ensures Rebuilt(DoLoad(v, t, l), l.cfgs) <==> AllSafe(t.cfgs, ById(prev), ById(l.cfgs), l.applyOrder)
  {
    RebuiltAgrees(t, prev);
    ByIdDisjoint(l.cfgs);
    StoredReloadExact(v, t, ById(prev), l);
  }

  lemma {:induction false} FirstLoadRight(v: Variant, l: Load)
    requires DistinctIds(l.cfgs) && DomainsUnique(l.cfgs) && ValidLoad(EMPTY_TABLES, l)
    ensures Rebuilt(DoLoad(v, EMPTY_TABLES, l), l.cfgs)
  {
    LoadIntoEmpty(EMPTY_TABLES, l.cfgs);
    AgreesRebuilt(AddAll(EMPTY_TABLES, l.cfgs), l.cfgs);
  }

  /** The versions that are kept come from lists of the run. */
  lemma {:induction false} FirstAddedListed(run: seq<Load>, id: string)
    requires id in LastIds(run)
    ensures exists k :: 0 <= k < |run| && FirstAdded(run, id) in run[k].cfgs
  {
    var p := run[..|run| - 1];
    if id in LastIds(p) {
      FirstAddedListed(p, id);
      var k :| 0 <= k < |p| && FirstAdded(p, id) in p[k].cfgs;
      assert p[k] == run[k];
    } else {
      ByIdSound(run[|run| - 1].cfgs, id);
    }
  }

  /** What is stored before load `k`, in both variants. */
  lemma {:induction false} StoredBefore(v: Variant, run: seq<Load>, k: nat)
    requires VerifiedRun(v, run) && 0 < k <= |run|
    ensures var stored := After(v, run[..k]).cfgs;
      && stored == (if v.AsWritten? then FirstVersions(run[..k]) else ById(run[k - 1].cfgs))
      && stored.Keys == ById(run[k - 1].cfgs).Keys
  {
    ValidPrefix(v, run, k);
    var p := run[..k];
    RunTables(v, p);
    assert p[|p| - 1] == run[k - 1];
  }

  lemma {:induction false} ListedUnique(run: seq<Load>, id: string)
    requires id in LastIds(run) && forall k :: 0 <= k < |run| ==> DomainsUnique(run[k].cfgs)
    ensures NoRepeats(FirstAdded(run, id).domains) && NoRepeats(ById(run[|run| - 1].cfgs)[id].domains)
  {
    FirstAddedListed(run, id);
    var j :| 0 <= j < |run| && FirstAdded(run, id) in run[j].cfgs;
    assert DomainsUnique(run[j].cfgs) && DomainsUnique(run[|run| - 1].cfgs);
    ByIdSound(run[|run| - 1].cfgs, id);
  }

  lemma {:induction false} StoredUnique(v: Variant, run: seq<Load>, k: nat)
    requires VerifiedRun(v, run) && 0 < k <= |run|
    ensures var stored := After(v, run[..k]).cfgs; forall id :: id in stored ==> NoRepeats(stored[id].domains)
  {
    StoredBefore(v, run, k);
    var p, stored := run[..k], After(v, run[..k]).cfgs;
    assert p[|p| - 1] == run[k - 1];
    forall id | id in stored ensures NoRepeats(stored[id].domains) {
      ListedUnique(p, id);
    }
  }

  lemma {:induction false} AfterNext(v: Variant, run: seq<Load>, k: nat)
    requires ValidRun(v, run) && k < |run|
    ensures ValidLoad(After(v, run[..k]), run[k])
    ensures After(v, run[..k + 1]) == DoLoad(v, After(v, run[..k]), run[k])
  {
    assert run[..k + 1][..k] == run[..k];
  }

  lemma {:induction false} FirstRight(v: Variant, run: seq<Load>)
    requires VerifiedRun(v, run) && run != []
    ensures RoutesRightAt(v, run, 0)
  {
    AfterNext(v, run, 0);
    assert run[..0] == [];
    FirstLoadRight(v, run[0]);
  }

  /** A step of a run, and all that is known about the tables it starts from. */
  lemma {:induction false} NextRight(v: Variant, run: seq<Load>, k: nat)
    requires VerifiedRun(v, run) && 0 < k < |run| && RoutesRightAt(v, run, k - 1)
    ensures RoutesRightAt(v, run, k) <==>
            AllSafe(After(v, run[..k]).cfgs, ById(run[k - 1].cfgs), ById(run[k].cfgs), run[k].applyOrder)
  {
    AfterNext(v, run, k);
    StoredBefore(v, run, k);
    StoredUnique(v, run, k);
    NextLoadExact(v, After(v, run[..k]), run[k - 1].cfgs, run[k]);
  }

  /** After a right load the next is right exactly when it is safe. */
  lemma {:induction false} NextAsWritten(run: seq<Load>, k: nat)
    requires VerifiedRun(AsWritten, run) && 0 < k < |run| && RoutesRightAt(AsWritten, run, k - 1)
    ensures RoutesRightAt(AsWritten, run, k) <==> SafeAsWrittenAt(run, k)
  {
    NextRight(AsWritten, run, k);
    StoredBefore(AsWritten, run, k);
  }

  lemma {:induction false} NextRecording(run: seq<Load>, k: nat)
    requires VerifiedRun(Recording, run) && 0 < k < |run| && RoutesRightAt(Recording, run, k - 1)
    ensures RoutesRightAt(Recording, run, k) <==> SafeAt(run, k)
  {
    NextRight(Recording, run, k);
    StoredBefore(Recording, run, k);
    OrderOf(Recording, run, k);
    ByIdDisjoint(run[k - 1].cfgs);
    SafeIsOrderSafe(ById(run[k - 1].cfgs), ById(run[k].cfgs), run[k].applyOrder);
  }

  lemma {:induction false} OrderOf(v: Variant, run: seq<Load>, k: nat)
    requires VerifiedRun(v, run) && 0 < k < |run|
    ensures ById(run[k - 1].cfgs) != map[] ==> IsOrder(run[k].applyOrder, ById(run[k].cfgs).Keys)
  {
    AfterNext(v, run, k);
    StoredBefore(v, run, k);
  }

  /** As long as the versions kept have the domains that are in force, the code as written is
      as good as the variant that records: only a change on top of a change can go wrong. */
  lemma {:induction false} FirstChangeAsRecorded(run: seq<Load>, k: nat)
    requires VerifiedRun(AsWritten, run) && 0 < k < |run|
    requires SameDomains(FirstVersions(run[..k]), ById(run[k - 1].cfgs))
    ensures SafeAsWrittenAt(run, k) <==> SafeAt(run, k)
  {
    var prev, news := ById(run[k - 1].cfgs), ById(run[k].cfgs);
    OrderOf(AsWritten, run, k);
    ByIdDisjoint(run[k - 1].cfgs);
    SameDomainsSafe(FirstVersions(run[..k]), prev, news, run[k].applyOrder);
    SafeIsOrderSafe(prev, news, run[k].applyOrder);
  }

  /** Before a reload, without knowing the order Go will take: after a run that ends right, the
      next list is loaded right in every order exactly when every domain is safe in any order,
      given the versions kept and the list in force. */
  lemma {:induction false} NextListExact(run: seq<Load>, cfgs: seq<ServerConfig>)
    requires VerifiedRun(AsWritten, run) && run != [] && RoutesRightAt(AsWritten, run, |run| - 1)
    requires DistinctIds(cfgs) && DomainsUnique(cfgs)
    ensures EveryLoadRebuilds(AsWritten, After(AsWritten, run), cfgs) <==>
            AllSafeInAnyOrder(FirstVersions(run), ById(run[|run| - 1].cfgs), ById(cfgs))
  {
    var n, prev := |run|, run[|run| - 1].cfgs;
    assert run[..n] == run && run[..n - 1 + 1] == run;
    StoredBefore(AsWritten, run, n);
    StoredUnique(AsWritten, run, n);
    RebuiltAgrees(After(AsWritten, run), prev);
    ReloadEveryOrderExact(AsWritten, After(AsWritten, run), ById(prev), cfgs);
  }

  ghost predicate FollowsIffAllowed(good: seq<bool>, allowed: seq<bool>, k: nat)
    requires k < |good| == |allowed|
  {
    (k > 0 ==> good[k - 1]) ==> good[k] == allowed[k]
  }

  /** If every good place is followed by one that is good exactly when it is allowed, then all
      are good exactly when all are allowed. */
  lemma {:induction false} Stepwise(good: seq<bool>, allowed: seq<bool>)
    requires |good| == |allowed| && forall k :: 0 <= k < |good| ==> FollowsIffAllowed(good, allowed, k)
    ensures (forall k :: 0 <= k < |good| ==> good[k]) <==> (forall k :: 0 <= k < |good| ==> allowed[k])
  {
    if good != [] {
      var n := |good| - 1;
      var g, a := good[..n], allowed[..n];
      forall k | 0 <= k < n ensures FollowsIffAllowed(g, a, k) {
        assert FollowsIffAllowed(good, allowed, k);
      }
      Stepwise(g, a);
      assert FollowsIffAllowed(good, allowed, n);
      assert forall k :: 0 <= k < n ==> g[k] == good[k] && a[k] == allowed[k];
      assert (forall k :: 0 <= k < n ==> good[k]) ==> n > 0 ==> good[n - 1];
    }
  }

  /** The reload as written, over every run of verified lists with distinct ids: the routes are
      right after every load exactly when every load compares the right things. */
  lemma {:induction false} AsWrittenRunExact(run: seq<Load>)
    requires VerifiedRun(AsWritten, run)
    ensures (forall k :: 0 <= k < |run| ==> RoutesRightAt(AsWritten, run, k))
       <==> (forall k :: 0 <= k < |run| ==> SafeAsWrittenAt(run, k))
  {
    var right := seq(|run|, k requires 0 <= k < |run| => RoutesRightAt(AsWritten, run, k));
    var safe := seq(|run|, k requires 0 <= k < |run| => SafeAsWrittenAt(run, k));
    forall k | 0 <= k < |run| ensures FollowsIffAllowed(right, safe, k) {
      if k == 0 { FirstRight(AsWritten, run); } else if right[k - 1] { NextAsWritten(run, k); }
    }
    Stepwise(right, safe);
    assert forall k :: 0 <= k < |run| ==>
      right[k] == RoutesRightAt(AsWritten, run, k) && safe[k] == SafeAsWrittenAt(run, k);
  }

  /** The variant that records what it applied: the routes are right after every load exactly
      when no load of the run takes a domain over too early. */
  lemma {:induction false} RecordingRunExact(run: seq<Load>)
    requires VerifiedRun(Recording, run)
    ensures (forall k :: 0 <= k < |run| ==> RoutesRightAt(Recording, run, k))
       <==> (forall k :: 0 <= k < |run| ==> SafeAt(run, k))
  {
    var right := seq(|run|, k requires 0 <= k < |run| => RoutesRightAt(Recording, run, k));
    var safe := seq(|run|, k requires 0 <= k < |run| => SafeAt(run, k));
    forall k | 0 <= k < |run| ensures FollowsIffAllowed(right, safe, k) {
      if k == 0 { FirstRight(Recording, run); } else if right[k - 1] { NextRecording(run, k); }
    }
    Stepwise(right, safe);
    assert forall k :: 0 <= k < |run| ==> right[k] == RoutesRightAt(Recording, run, k) && safe[k] == SafeAt(run, k);
  }

  /** In particular the recording variant is coherent after a run exactly if the routes are right
      after its last load. */
  lemma {:induction false} RecordingCoherentExact(run: seq<Load>)
    requires VerifiedRun(Recording, run) && run != []
    ensures Coherent(After(Recording, run)) <==> RoutesRightAt(Recording, run, |run| - 1)
  {
    var n, last := |run|, run[|run| - 1].cfgs;
    assert run[..n] == run && run[..n - 1 + 1] == run;
    StoredBefore(Recording, run, n);
    StoredUnique(Recording, run, n);
    var t := After(Recording, run);
    if Coherent(t) { AgreesRebuilt(t, last); }
    if Rebuilt(t, last) { RebuiltAgrees(t, last); }
  }
}
