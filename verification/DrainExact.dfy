/** When the drain works for a whole list: the exact condition, what happens where it fails, and
    how one load leaves things for the next. */
module DrainExact {
  import opened ServerConfigs
  import opened Reload
  import opened ReloadRoutes
  import opened ReloadByDomain
  import opened ReloadRuns
  import opened ReloadScript
  import opened DrainProtocol
  import opened DrainTheorems

  // ------------------------------------------------- the script of a load that is not safe

  lemma {:induction false} RemoveAllGrows(t: Tables, news: map<string, ServerConfig>, p: seq<string>, q: seq<string>)
    ensures RemoveAll(t, news, p).ops <= RemoveAll(t, news, p + q).ops
  {
    if q == [] {
      assert p + q == p;
    } else {
      assert (p + q)[..|p + q| - 1] == p + q[..|q| - 1];
      RemoveAllGrows(t, news, p, q[..|q| - 1]);
    }
  }

  lemma {:induction false} ApplyAllGrows(v: Variant, t: Tables, news: map<string, ServerConfig>, order: seq<string>)
    requires Keyed(t) && NewKeyed(news) && forall id :: id in order ==> id in news
    ensures t.ops <= ApplyAll(v, t, news, order).ops
  {
    if order != [] {
      ApplyAllGrows(v, t, news, order[..|order| - 1]);
    }
  }

  /** The order that removes `id` first. */
  lemma {:induction false} OrderBeginningWith(keys: set<string>, id: string) returns (order: seq<string>)
    requires id in keys
    ensures IsOrder(order, keys) && order != [] && order[0] == id
  {
    var p := OrderExists(keys - {id});
    order := [id] + p;
    forall i, j | 0 <= i < j < |order| ensures order[i] != order[j] {
      assert order[j] == p[j - 1] && p[j - 1] in p;
    }
  }

  /** Removing a config whose backend has another entry closes it too early. */
  lemma {:induction false} EarlyClose(t: Tables, id: string, d: string)
    requires Keyed(t) && id in t.cfgs
    requires d in t.dict && t.dict[d] == t.backends[id] && d !in t.cfgs[id].domains
    ensures var b := t.backends[id];
      !WatchAll(b, StartWatch(t, b), [DelAll(DomainSet(t.cfgs[id])), Push, Close(b)]).ok
  {
    var b, ds := t.backends[id], DomainSet(t.cfgs[id]);
    Watch3(b, StartWatch(t, b), DelAll(ds), Push, Close(b));
    assert d in t.dict - ds && (t.dict - ds)[d] == b;
    assert b in (t.dict - ds).Values;
  }

  lemma {:induction false} FirstRemoval(t: Tables, news: map<string, ServerConfig>, order: seq<string>, id: string)
    requires Keyed(t) && id in t.cfgs && id !in news && order != [] && order[0] == id
    ensures t.ops + [DelAll(DomainSet(t.cfgs[id])), Push, Close(t.backends[id])] <= RemoveAll(t, news, order).ops
  {
    assert [id][..0] == [] && RemoveAll(t, news, []) == t;
    assert RemoveAll(t, news, [id]) == RemoveConfig(t, t.cfgs[id]);
    assert [id] + order[1..] == order;
    RemoveAllGrows(t, news, [id], order[1..]);
  }

  /** A load that removes `id` first begins with that removal. */
  lemma {:induction false} ScriptBegins(v: Variant, t: Tables, l: Load, id: string)
    requires Keyed(t) && ValidLoad(t, l) && id in t.cfgs && id !in ById(l.cfgs)
    requires l.removeOrder != [] && l.removeOrder[0] == id
    ensures [DelAll(DomainSet(t.cfgs[id])), Push, Close(t.backends[id])] <= Script(v, t, l)
  {
    var news, first := ById(l.cfgs), [DelAll(DomainSet(t.cfgs[id])), Push, Close(t.backends[id])];
    RemoveAllKeyed(t, news, l.removeOrder);
    ByIdKeyed(l.cfgs);
    var t1 := RemoveAll(t, news, l.removeOrder);
    FirstRemoval(t, news, l.removeOrder, id);
    ApplyAllGrows(v, t1, news, l.applyOrder);
    AfterPrefix(t.ops, first, t1.ops, DoLoad(v, t, l).ops);
  }

  lemma {:induction false} AfterPrefix<T>(a: seq<T>, b: seq<T>, c: seq<T>, d: seq<T>)
    requires a + b <= c <= d
    ensures |a| <= |d| && b <= d[|a|..]
  {
    assert d[..|a + b|] == a + b;
    assert d[|a|..][..|b|] == b;
  }

  /** The script of every load of `cfgs` closes every backend only after its drain. */
  ghost predicate EveryScriptSafe(v: Variant, t: Tables, cfgs: seq<ServerConfig>)
    requires Keyed(t)
  {
    forall l: Load, b: Backend :: l.cfgs == cfgs && ValidLoad(t, l) ==>
      WatchAll(b, StartWatch(t, b), Script(v, t, l)).ok
  }

  /** A load that goes wrong, if one of the backends to be removed has an entry that is not one of
      its stored domains. */
  lemma {:induction false} UnsafeLoad(v: Variant, t: Tables, cfgs: seq<ServerConfig>)
    returns (l: Load, id: string, d: string)
    requires Keyed(t) && !RemovedOwnStored(t, ById(cfgs))
    ensures l.cfgs == cfgs && ValidLoad(t, l) && id in t.cfgs && id !in ById(cfgs)
    ensures d in t.dict && t.dict[d] == t.backends[id] && d !in t.cfgs[id].domains
    ensures [DelAll(DomainSet(t.cfgs[id])), Push, Close(t.backends[id])] <= Script(v, t, l)
  {
    id :| id in t.cfgs && id !in ById(cfgs) && !OwnStored(t, id);
    d :| d in t.dict && t.dict[d] == t.backends[id] && d !in t.cfgs[id].domains;
    var removeOrder := OrderBeginningWith(t.cfgs.Keys, id);
    var applyOrder := OrderExists(ById(cfgs).Keys);
    l := Load(cfgs, removeOrder, applyOrder);
    ScriptBegins(v, t, l, id);
  }

  /** Exactly when every entry for a backend to be removed is one of its stored domains, every
      script of every load is safe for every backend. */
  lemma {:induction false} EveryScriptSafeExact(v: Variant, t: Tables, cfgs: seq<ServerConfig>)
    requires Keyed(t) && Ledger(t) && DistinctIds(cfgs)
    ensures EveryScriptSafe(v, t, cfgs) <==> RemovedOwnStored(t, ById(cfgs))
  {
    if RemovedOwnStored(t, ById(cfgs)) {
      forall l: Load, b: Backend | l.cfgs == cfgs && ValidLoad(t, l)
        ensures WatchAll(b, StartWatch(t, b), Script(v, t, l)).ok
      {
        LoadScriptSafe(v, t, l, b);
      }
    } else {
      var l, id, d := UnsafeLoad(v, t, cfgs);
      var b, first := t.backends[id], [DelAll(DomainSet(t.cfgs[id])), Push, Close(t.backends[id])];
      NeverOkAgain(b, StartWatch(t, b), first, Script(v, t, l), t, id, d);
    }
  }

  lemma {:induction false} NeverOkAgain(
    b: Backend, w: Watch, first: seq<ManagerOp>, script: seq<ManagerOp>, t: Tables, id: string, d: string)
    requires Keyed(t) && id in t.cfgs && b == t.backends[id] && w == StartWatch(t, b)
    requires d in t.dict && t.dict[d] == b && d !in t.cfgs[id].domains
    requires first == [DelAll(DomainSet(t.cfgs[id])), Push, Close(b)] && first <= script
    ensures !WatchAll(b, w, script).ok
  {
    EarlyClose(t, id, d);
    assert script == first + script[|first|..];
    WatchAppend(b, w, first, script[|first|..]);
    if WatchAll(b, w, script).ok {
      WatchOkBack(b, WatchAll(b, w, first), script[|first|..]);
    }
  }

  // ------------------------------------------------- and what then happens

  /** The catalog leads only to backends that have been created. */
  ghost predicate LeadsToCreated(t: Tables) {
    forall d :: d in t.dict ==> t.dict[d] < t.next
  }

  /** One idle worker, no goroutine, every backend idle, and the load's script ahead. */
  ghost function QuietStart(v: Variant, t: Tables, l: Load): State
    requires Keyed(t) && ValidLoad(t, l)
  {
    State(t.dict, Script(v, t, l), 0, [Idle], [],
      map b: Backend | 0 <= b < t.next :: Chan([], None, !InUse(t, b)))
  }

  lemma {:induction false} QuietStartIsStart(v: Variant, t: Tables, l: Load)
    requires Keyed(t) && Ledger(t) && ValidLoad(t, l) && LeadsToCreated(t)
    ensures AboutToLoad(QuietStart(v, t, l), v, t, l)
    ensures LeadsToLiving(t) ==>
      forall b :: LifeNow(QuietStart(v, t, l), b).Gone? ==> Unreachable(QuietStart(v, t, l), b)
  {
    var s := QuietStart(v, t, l);
    forall b ensures LifeNow(s, b) == LifeOf(t, b) {
      if InUse(t, b) {
        var id :| id in t.backends && t.backends[id] == b;
      }
    }
    forall b ensures LifeNow(s, b).Unborn? ==> Unreachable(s, b) {
      assert forall d :: d in s.dict ==> s.dict[d] < t.next;
    }
    forall b ensures LeadsToLiving(t) && LifeNow(s, b).Gone? ==> Unreachable(s, b) {
    }
    forall b, c ensures RequestOk(s, b, c) {
      assert b in s.chans ==> Pending(s.chans[b]) == [];
    }
    forall b ensures EachOnce(s, b) {
      assert b in s.chans ==> Pending(s.chans[b]) == [];
    }
  }

  lemma {:induction false} OneStep(s: State, e: Event) returns (states: seq<State>, events: seq<Event>)
    requires Enabled(s, e)
    ensures states == [s, Step(s, e)] && events == [e] && Behaviour(states, events)
  {
    states, events := [s, Step(s, e)], [e];
  }

  /** The manager deletes the domains one by one. */
  lemma {:induction false} DeletesAll(s: State, ds: set<string>, rest: seq<ManagerOp>)
    returns (states: seq<State>, events: seq<Event>)
    requires s.ops == [DelAll(ds)] + rest
    ensures Behaviour(states, events) && states[0] == s
    ensures states[|events|] == s.(dict := s.dict - ds, ops := [DelAll({})] + rest)
    decreases |ds|
  {
    if ds == {} {
      states, events := [s], [];
      assert s.dict - ds == s.dict;
    } else {
      var d :| d in ds;
      var e := Write(d);
      var s' := Step(s, e);
      assert s.ops[1..] == rest;
      assert s' == s.(dict := s.dict - {d}, ops := [DelAll(ds - {d})] + rest);
      states, events := OneStep(s, e);
      var ss, es := DeletesAll(s', ds - {d}, rest);
      assert s.dict - {d} - (ds - {d}) == s.dict - ds;
      states, events := BehaviourJoin(states, events, ss, es);
    }
  }

  /** From there it tells the only worker and closes the backend; then the worker resolves `d`. */
  lemma {:induction false} ClosesAndLeads(s: State, b: Backend, d: string, rest: seq<ManagerOp>)
    returns (states: seq<State>, events: seq<Event>)
    requires s.ops == [DelAll({}), Push, Close(b)] + rest && s.pushed == 0 && s.workers == [Idle]
    requires b in s.chans && s.chans[b] == Chan([], None, false) && d in s.dict && s.dict[d] == b
    ensures Behaviour(states, events) && states[0] == s
    ensures var last := states[|events|];
      last.workers == [Holding(b)] && b in last.chans && LifeNow(last, b).Gone? && b in last.dict.Values
  {
    var s1 := s.(ops := [Push, Close(b)] + rest);
    var s2 := s1.(pushed := 1);
    var s3 := s1.(ops := [Close(b)] + rest);
    var s4 := s3.(ops := rest, chans := s.chans[b := Chan([], None, true)]);
    var s5 := s4.(workers := [Holding(b)]);
    assert s.ops[1..] == s1.ops && s1.ops[1..] == s3.ops && s3.ops[1..] == rest;
    states, events := [s, s1, s2, s3, s4, s5], [OpDone, PushOne, OpDone, OpDone, Lookup(0, d)];
    assert Step(s, OpDone) == s1 && Step(s1, PushOne) == s2 && Step(s2, OpDone) == s3;
    assert Step(s3, OpDone) == s4 && Step(s4, Lookup(0, d)) == s5;
    assert s5.dict[d] in s5.dict.Values;
  }

  /** In this behaviour of a load every backend that was in use is drained when it is closed. */
  ghost predicate DrainsIn(v: Variant, t: Tables, l: Load, b: Backend, states: seq<State>, events: seq<Event>)
    requires Keyed(t)
  {
    ValidLoad(t, l) && Behaviour(states, events) && AboutToLoad(states[0], v, t, l) && InUse(t, b) ==>
      forall n :: 0 <= n < |states| && LifeNow(states[n], b).Gone? ==> Drained(states[n], b)
  }

  /** No worker comes to hold a backend that is closed. */
  ghost predicate StaysAwayIn(v: Variant, t: Tables, l: Load, states: seq<State>, events: seq<Event>)
    requires Keyed(t)
  {
    ValidLoad(t, l) && Behaviour(states, events) && AboutToLoad(states[0], v, t, l)
    && (forall b :: LifeNow(states[0], b).Gone? ==> Unreachable(states[0], b)) ==>
      forall n, i :: 0 <= n < |states| && 0 <= i < |states[n].workers| && states[n].workers[i].Holding? ==>
        LifeNow(states[n], states[n].workers[i].b).Alive?
  }

  ghost predicate EveryLoadDrains(v: Variant, t: Tables, cfgs: seq<ServerConfig>)
    requires Keyed(t)
  {
    forall l: Load, b: Backend, states: seq<State>, events: seq<Event> :: l.cfgs == cfgs ==>
      DrainsIn(v, t, l, b, states, events)
  }

  ghost predicate EveryLoadStaysAway(v: Variant, t: Tables, cfgs: seq<ServerConfig>)
    requires Keyed(t)
  {
    forall l: Load, states: seq<State>, events: seq<Event> :: l.cfgs == cfgs ==> StaysAwayIn(v, t, l, states, events)
  }

  /** Where an entry for a backend to be removed is not one of its stored domains: a load and a
      behaviour of it that ends with the backend closed and a worker holding it. */
  lemma {:induction false} UnsafeBehaviour(v: Variant, t: Tables, cfgs: seq<ServerConfig>)
    returns (l: Load, b: Backend, states: seq<State>, events: seq<Event>)
    requires Keyed(t) && Ledger(t) && LeadsToCreated(t) && !RemovedOwnStored(t, ById(cfgs))
    ensures l.cfgs == cfgs && ValidLoad(t, l) && InUse(t, b)
    ensures Behaviour(states, events) && AboutToLoad(states[0], v, t, l)
    ensures LeadsToLiving(t) ==> forall c :: LifeNow(states[0], c).Gone? ==> Unreachable(states[0], c)
    ensures var last := states[|events|];
      last.workers == [Holding(b)] && b in last.chans && LifeNow(last, b).Gone? && b in last.dict.Values
  {
    var id, d;
    l, id, d := UnsafeLoad(v, t, cfgs);
    b := t.backends[id];
    var s, ds, script := QuietStart(v, t, l), DomainSet(t.cfgs[id]), Script(v, t, l);
    QuietStartIsStart(v, t, l);
    assert InUse(t, b);
    var rest := script[3..];
    assert script == [DelAll(ds)] + ([Push, Close(b)] + rest);
    states, events := DeletesAll(s, ds, [Push, Close(b)] + rest);
    var s' := states[|events|];
    assert s'.ops == [DelAll({}), Push, Close(b)] + rest;
    var ss, es := ClosesAndLeads(s', b, d, rest);
    states, events := BehaviourJoin(states, events, ss, es);
  }

  /** Drain before close, exactly: in every behaviour of every load of `cfgs` every backend in use
      is drained when it is closed, if and only if every catalog entry for a backend to be
      removed is one of its stored domains. */
  lemma {:induction false} EveryLoadDrainsExact(v: Variant, t: Tables, cfgs: seq<ServerConfig>)
    requires Keyed(t) && Ledger(t) && LeadsToCreated(t) && DistinctIds(cfgs)
    ensures EveryLoadDrains(v, t, cfgs) <==> RemovedOwnStored(t, ById(cfgs))
  {
    if RemovedOwnStored(t, ById(cfgs)) {
      forall l: Load, b: Backend, states: seq<State>, events: seq<Event> | l.cfgs == cfgs
        ensures DrainsIn(v, t, l, b, states, events)
      {
        if ValidLoad(t, l) && Behaviour(states, events) && AboutToLoad(states[0], v, t, l) && InUse(t, b) {
          DrainBeforeClose(v, t, l, b, states, events);
        }
      }
    } else {
      var l, b, states, events := UnsafeBehaviour(v, t, cfgs);
      assert !Drained(states[|events|], b);
      assert !DrainsIn(v, t, l, b, states, events);
    }
  }

  /** No entry leads to a closed backend. */
  ghost predicate LeadsToLiving(t: Tables) {
    forall d :: d in t.dict ==> InUse(t, t.dict[d])
  }

  /** And while no entry leads to a closed backend beforehand, no worker ever comes to hold one, in
      any behaviour of any load of `cfgs`, under exactly the same condition. */
  lemma {:induction false} StaysAwayExact(v: Variant, t: Tables, cfgs: seq<ServerConfig>)
    requires Keyed(t) && Ledger(t) && LeadsToLiving(t) && DistinctIds(cfgs)
    ensures EveryLoadStaysAway(v, t, cfgs) <==> RemovedOwnStored(t, ById(cfgs))
  {
    assert LeadsToCreated(t);
    if RemovedOwnStored(t, ById(cfgs)) {
      forall l: Load, states: seq<State>, events: seq<Event> | l.cfgs == cfgs
        ensures StaysAwayIn(v, t, l, states, events)
      {
        NeverHolds(v, t, l, states, events);
      }
    } else {
      var l, b, states, events := UnsafeBehaviour(v, t, cfgs);
      assert states[|events|].workers[0].Holding?;
      assert !StaysAwayIn(v, t, l, states, events);
    }
  }

  lemma {:induction false} NeverHolds(v: Variant, t: Tables, l: Load, states: seq<State>, events: seq<Event>)
    requires Keyed(t) && Ledger(t) && DistinctIds(l.cfgs) && RemovedOwnStored(t, ById(l.cfgs))
    ensures StaysAwayIn(v, t, l, states, events)
  {
    if ValidLoad(t, l) && Behaviour(states, events) && AboutToLoad(states[0], v, t, l)
       && forall b :: LifeNow(states[0], b).Gone? ==> Unreachable(states[0], b)
    {
      forall n, i | 0 <= n < |states| && 0 <= i < |states[n].workers| && states[n].workers[i].Holding?
        ensures LifeNow(states[n], states[n].workers[i].b).Alive?
      {
        NoWorkerMeetsClosed(v, t, l, states, events, n, i);
      }
    }
  }

  // ------------------------------------------------- over runs of loads

  lemma {:induction false} CreatedRemoveAll(t: Tables, news: map<string, ServerConfig>, order: seq<string>)
    requires LeadsToCreated(t)
    ensures LeadsToCreated(RemoveAll(t, news, order))
  {
    if order != [] {
      CreatedRemoveAll(t, news, order[..|order| - 1]);
    }
  }

  lemma {:induction false} CreatedOne(v: Variant, t: Tables, cfg: ServerConfig)
    requires LeadsToCreated(t) && OwnBackends(t) && Keyed(t)
    ensures LeadsToCreated(ApplyOne(v, t, cfg))
  {
  }

  lemma {:induction false} CreatedApplyAll(
    v: Variant, t: Tables, news: map<string, ServerConfig>, order: seq<string>)
    requires Keyed(t) && Ledger(t) && NewKeyed(news) && forall id :: id in order ==> id in news
    requires LeadsToCreated(t)
    ensures LeadsToCreated(ApplyAll(v, t, news, order))
  {
    if order != [] {
      var p := order[..|order| - 1];
      CreatedApplyAll(v, t, news, p);
      LedgerApplyAll(v, t, news, p);
      CreatedOne(v, ApplyAll(v, t, news, p), news[order[|order| - 1]]);
    }
  }

  lemma {:induction false} CreatedAddAll(t: Tables, cfgs: seq<ServerConfig>)
    requires LeadsToCreated(t)
    ensures LeadsToCreated(AddAll(t, cfgs))
  {
    if cfgs != [] {
      CreatedAddAll(t, cfgs[..|cfgs| - 1]);
    }
  }

  lemma {:induction false} CreatedLoad(v: Variant, t: Tables, l: Load)
    requires Keyed(t) && Ledger(t) && ValidLoad(t, l) && LeadsToCreated(t)
    ensures LeadsToCreated(DoLoad(v, t, l))
  {
    if t.cfgs == map[] {
      CreatedAddAll(t, l.cfgs);
    } else {
      var news := ById(l.cfgs);
      RemoveAllKeyed(t, news, l.removeOrder);
      LedgerRemoveAll(t, news, l.removeOrder);
      CreatedRemoveAll(t, news, l.removeOrder);
      ByIdKeyed(l.cfgs);
      CreatedApplyAll(v, RemoveAll(t, news, l.removeOrder), news, l.applyOrder);
    }
  }

  /** After every run the catalog leads only to backends that have been created. */
  lemma {:induction false} RunCreated(v: Variant, run: seq<Load>)
    requires ValidRun(v, run)
    ensures LeadsToCreated(After(v, run))
  {
    if run != [] {
      var n := |run| - 1;
      assert run[..n + 1] == run;
      ValidPrefix(v, run, n);
      RunCreated(v, run[..n]);
      RunTables(v, run[..n]);
      AfterNext(v, run, n);
      CreatedLoad(v, After(v, run[..n]), run[n]);
    }
  }

  /** After any run of loads, right or wrong, the next list drains in every behaviour exactly when
      every entry for a backend to be removed is one of its stored domains. */
  lemma {:induction false} RunDrainsExact(v: Variant, run: seq<Load>, cfgs: seq<ServerConfig>)
    requires ValidRun(v, run) && DistinctIds(cfgs)
    ensures EveryLoadDrains(v, After(v, run), cfgs) <==> RemovedOwnStored(After(v, run), ById(cfgs))
    ensures EveryScriptSafe(v, After(v, run), cfgs) <==> RemovedOwnStored(After(v, run), ById(cfgs))
  {
    RunTables(v, run);
    RunCreated(v, run);
    EveryLoadDrainsExact(v, After(v, run), cfgs);
    EveryScriptSafeExact(v, After(v, run), cfgs);
  }

  /** As written, after a run that ends right: the next list drains in every behaviour, and no
      worker ever comes to hold a closed backend, exactly when nothing it removes has grown since
      it was first added. */
  lemma {:induction false} NextDrainsExact(run: seq<Load>, cfgs: seq<ServerConfig>)
    requires VerifiedRun(AsWritten, run) && run != [] && RoutesRightAt(AsWritten, run, |run| - 1)
    requires DistinctIds(cfgs)
    ensures var t, grown := After(AsWritten, run),
                  !NoGrownRemoval(FirstVersions(run), ById(run[|run| - 1].cfgs), ById(cfgs));
      && (EveryLoadDrains(AsWritten, t, cfgs) <==> !grown)
      && (EveryLoadStaysAway(AsWritten, t, cfgs) <==> !grown)
  {
    RunOwnStoredExact(run, ById(cfgs));
    RunDrainsExact(AsWritten, run, cfgs);
    RightLeadsToLiving(run);
    RunTables(AsWritten, run);
    StaysAwayExact(AsWritten, After(AsWritten, run), cfgs);
  }

  lemma {:induction false} RightLeadsToLiving(run: seq<Load>)
    requires VerifiedRun(AsWritten, run) && run != [] && RoutesRightAt(AsWritten, run, |run| - 1)
    ensures LeadsToLiving(After(AsWritten, run))
  {
    assert run[..|run| - 1 + 1] == run;
    var t, prev := After(AsWritten, run), run[|run| - 1].cfgs;
    RebuiltAgrees(t, prev);
    forall d | d in t.dict ensures InUse(t, t.dict[d]) {
      assert RouteSound(t, ById(prev), d);
    }
  }
}
