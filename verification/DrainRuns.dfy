/** Loads that happen one after the other: each leaves the workers and the backends as the next
    one needs them. */
module DrainRuns {
  import opened ServerConfigs
  import opened Reload
  import opened ReloadRoutes
  import opened ReloadByDomain
  import opened ReloadRuns
  import opened ReloadScript
  import opened DrainProtocol
  import opened DrainTheorems

  lemma {:induction false} SameEnd(b: Backend, w: Watch, w': Watch, ops: seq<ManagerOp>)
    requires w.dict == w'.dict && w.life == w'.life
    ensures WatchAll(b, w, ops).dict == WatchAll(b, w', ops).dict
    ensures WatchAll(b, w, ops).life == WatchAll(b, w', ops).life
    decreases |ops|
  {
    if ops != [] {
      SameEnd(b, WatchOp(b, w, ops[0]), WatchOp(b, w', ops[0]), ops[1..]);
    }
  }

  /** The catalog and the life of `b` once the manager is done with its script. */
  ghost predicate EndsAs(s: State, b: Backend, dict: map<string, Backend>, life: Life) {
    var w := WatchAll(b, Now(s, b), s.ops); w.dict == dict && w.life == life
  }

  lemma {:induction false} WriteEnd(s: State, d: string, b: Backend)
    requires Enabled(s, Write(d))
    ensures var s' := Step(s, Write(d));
      var w, w' := WatchOp(b, Now(s, b), s.ops[0]), WatchOp(b, Now(s', b), s'.ops[0]);
      && s'.ops != [] && s'.ops[1..] == s.ops[1..] && w'.dict == w.dict && w'.life == w.life
  {
    var ds := s.ops[0].domains;
    if s.ops[0].PutAll? {
      PutOneOfAll(s.dict, ds, d, s.ops[0].b);
    } else {
      assert s.dict - {d} - (ds - {d}) == s.dict - ds;
    }
  }

  lemma {:induction false} OpDoneEnd(s: State, b: Backend)
    requires Enabled(s, OpDone)
    ensures var s', w := Step(s, OpDone), WatchOp(b, Now(s, b), s.ops[0]);
      && s'.ops == s.ops[1..] && Now(s', b).dict == w.dict && LifeNow(s', b) == w.life
  {
  }

  /** No step changes how the script ends. */
  lemma {:induction false} StepEnd(s: State, e: Event, b: Backend, dict: map<string, Backend>, life: Life)
    requires Enabled(s, e) && EndsAs(s, b, dict, life)
    ensures EndsAs(Step(s, e), b, dict, life)
  {
    var s' := Step(s, e);
    match e
    case Write(d) =>
      WriteEnd(s, d, b);
      SameEnd(b, WatchOp(b, Now(s, b), s.ops[0]), WatchOp(b, Now(s', b), s'.ops[0]), s.ops[1..]);
    case OpDone =>
      OpDoneEnd(s, b);
      SameEnd(b, WatchOp(b, Now(s, b), s.ops[0]), Now(s', b), s'.ops);
    case _ =>
      assert s'.ops == s.ops && s'.dict == s.dict && LifeNow(s', b) == LifeNow(s, b);
      SameEnd(b, Now(s, b), Now(s', b), s.ops);
  }

  lemma {:induction false} BehaviourEnd(
    states: seq<State>, events: seq<Event>, n: nat, b: Backend, dict: map<string, Backend>, life: Life)
    requires Behaviour(states, events) && n < |states| && EndsAs(states[0], b, dict, life)
    ensures EndsAs(states[n], b, dict, life)
  {
    if n > 0 {
      BehaviourEnd(states, events, n - 1, b, dict, life);
      StepEnd(states[n - 1], events[n - 1], b, dict, life);
    }
  }

  /** When the manager is done the catalog and the backends are those of the tables. */
  lemma {:induction false} LoadEnds(
    v: Variant, t: Tables, l: Load, states: seq<State>, events: seq<Event>, n: nat)
    requires Keyed(t) && Ledger(t) && ValidLoad(t, l) && DistinctIds(l.cfgs)
    requires RemovedOwnStored(t, ById(l.cfgs))
    requires Behaviour(states, events) && AboutToLoad(states[0], v, t, l)
    requires n < |states| && states[n].ops == []
    ensures states[n].dict == DoLoad(v, t, l).dict
    ensures forall b :: LifeNow(states[n], b) == LifeOf(DoLoad(v, t, l), b)
  {
    var t' := DoLoad(v, t, l);
    forall b: Backend ensures states[n].dict == t'.dict && LifeNow(states[n], b) == LifeOf(t', b) {
      LoadScriptSafe(v, t, l, b);
      SameEnd(b, StartWatch(t, b), Now(states[0], b), states[0].ops);
      BehaviourEnd(states, events, n, b, t'.dict, LifeOf(t', b));
    }
    assert LifeNow(states[n], 0) == LifeOf(t', 0);
  }

  /** What the theorems about a load ask for at its start. */
  ghost predicate Starts(s: State, v: Variant, t: Tables, l: Load) {
    && Keyed(t) && Ledger(t) && ValidLoad(t, l) && AboutToLoad(s, v, t, l)
    && forall b :: LifeNow(s, b).Gone? ==> Unreachable(s, b)
  }

  /** A state in which the manager has nothing left to do, given the script of the next load. */
  lemma {:induction false} ScriptSet(s: State, v: Variant, t: Tables, l: Load)
    requires Keyed(t) && Ledger(t) && ValidLoad(t, l) && s.ops == [] && s.dict == t.dict
    requires forall b :: LifeNow(s, b) == LifeOf(t, b)
    requires RequestsMatch(s) && forall b :: Inv(s, b)
    ensures Starts(s.(ops := Script(v, t, l)), v, t, l)
  {
    var s' := s.(ops := Script(v, t, l));
    assert Inv(s, 0);
    forall b ensures LifeNow(s', b) == LifeOf(t, b) {
      assert LifeNow(s, b) == LifeOf(t, b);
    }
    forall b
      ensures LifeNow(s', b).Gone? ==> Unreachable(s', b)
      ensures LifeNow(s', b).Unborn? ==> Unreachable(s', b) && NoneRefer(s'.tasks, |s'.tasks|, b)
    {
      assert Inv(s, b);
    }
    SameRequests(s, s');
  }

  lemma {:induction false} SameRequests(s: State, s': State)
    requires RequestsMatch(s) && s'.workers == s.workers && s'.tasks == s.tasks && s'.chans == s.chans
    ensures RequestsMatch(s')
  {
    forall b, c ensures RequestOk(s', b, c) { assert RequestOk(s, b, c); }
    forall b ensures EachOnce(s', b) { assert EachOnce(s, b); }
    forall c ensures WaitsAtChannel(s', c) { assert WaitsAtChannel(s, c); }
  }

  /** So when the manager is done, the next load can start from there. */
  lemma {:induction false} NextLoadStarts(
    v: Variant, t: Tables, l: Load, states: seq<State>, events: seq<Event>, n: nat, next: Load)
    requires Behaviour(states, events) && Starts(states[0], v, t, l)
    requires DistinctIds(l.cfgs) && RemovedOwnStored(t, ById(l.cfgs))
    requires n < |states| && states[n].ops == [] && ValidLoad(DoLoad(v, t, l), next)
    ensures Keyed(DoLoad(v, t, l))
    ensures Starts(states[n].(ops := Script(v, DoLoad(v, t, l), next)), v, DoLoad(v, t, l), next)
  {
    DoLoadKeyed(v, t, l);
    LoadKeepsLedger(v, t, l);
    LoadEnds(v, t, l, states, events, n);
    forall b: Backend ensures Inv(states[n], b) {
      StartInv(states[0], v, t, l, b);
      BehaviourInv(states, events, b, n);
    }
    StartInv(states[0], v, t, l, 0);
    BehaviourInv(states, events, 0, n);
    ScriptSet(states[n], v, DoLoad(v, t, l), next);
  }

  /** One load of a run as it happens: the states it goes through, until the next one starts. */
  datatype Episode = Episode(states: seq<State>, events: seq<Event>)

  /** The loads of a run happen one after the other: each starts where the one before it, and
      whatever the workers did after it, has ended. */
  ghost predicate Happens(v: Variant, run: seq<Load>, eps: seq<Episode>)
    requires ValidRun(v, run)
  {
    && |eps| == |run|
    && (forall k :: 0 <= k < |run| ==> Behaviour(eps[k].states, eps[k].events))
    && (run != [] ==> ValidLoad(EMPTY_TABLES, run[0]) && AboutToLoad(eps[0].states[0], v, EMPTY_TABLES, run[0]))
    && forall k :: 0 < k < |run| ==> Follows(v, run, eps, k)
  }

  ghost predicate Follows(v: Variant, run: seq<Load>, eps: seq<Episode>, k: nat)
    requires ValidRun(v, run) && 0 < k < |run| == |eps|
  {
    && |eps[k].states| >= 1 && |eps[k - 1].states| >= 1
    && var last := eps[k - 1].states[|eps[k - 1].states| - 1];
      last.ops == [] && eps[k].states[0] == last.(ops := Script(v, After(v, run[..k]), run[k]))
  }

  lemma {:induction false} NothingStarts(s: State, v: Variant, l: Load)
    requires ValidLoad(EMPTY_TABLES, l) && AboutToLoad(s, v, EMPTY_TABLES, l)
    ensures Starts(s, v, EMPTY_TABLES, l)
  {
    forall b: Backend ensures !LifeNow(s, b).Gone? {
      assert LifeNow(s, b) == LifeOf(EMPTY_TABLES, b);
    }
  }

  /** Each load of the run, seen from the tables before it. */
  lemma {:induction false} TablesOfRun(v: Variant, run: seq<Load>, k: nat)
    requires ValidRun(v, run) && k < |run|
    ensures ValidLoad(After(v, run[..k]), run[k]) && DistinctIds(run[k].cfgs)
    ensures k > 0 ==> ValidLoad(After(v, run[..k - 1]), run[k - 1])
                      && After(v, run[..k]) == DoLoad(v, After(v, run[..k - 1]), run[k - 1])
  {
    if k > 0 {
      AfterNext(v, run, k - 1);
    }
  }

  /** The start of load `k` of the run is one the theorems about a load are about. */
  lemma {:induction false} EpisodeStarts(v: Variant, run: seq<Load>, eps: seq<Episode>, k: nat)
    requires ValidRun(v, run) && Happens(v, run, eps) && k < |run|
    requires forall j :: 0 <= j < |run| ==> RemovedOwnStored(After(v, run[..j]), ById(run[j].cfgs))
    ensures Starts(eps[k].states[0], v, After(v, run[..k]), run[k])
  {
    if k == 0 {
      assert run[..0] == [];
      NothingStarts(eps[0].states[0], v, run[0]);
    } else {
      EpisodeStarts(v, run, eps, k - 1);
      TablesOfRun(v, run, k);
      TablesOfRun(v, run, k - 1);
      var e, t, l := eps[k - 1], After(v, run[..k - 1]), run[k - 1];
      assert Follows(v, run, eps, k);
      assert RemovedOwnStored(t, ById(l.cfgs));
      NextLoadStarts(v, t, l, e.states, e.events, |e.states| - 1, run[k]);
    }
  }

  /** Over whole runs of loads that happen one after the other, with any number of workers: as
      long as every backend to be removed is reachable by its stored domains only, no worker
      ever holds, waits for or has an answer of a backend that is not alive. */
  lemma {:induction false} RunNeverMeetsClosed(
    v: Variant, run: seq<Load>, eps: seq<Episode>, k: nat, n: nat, i: nat)
    requires ValidRun(v, run) && Happens(v, run, eps) && k < |run|
    requires forall j :: 0 <= j < |run| ==> RemovedOwnStored(After(v, run[..j]), ById(run[j].cfgs))
    requires n < |eps[k].states| && i < |eps[k].states[n].workers|
    ensures var w := eps[k].states[n].workers[i];
      w.Holding? || w.Waiting? || w.Answered? ==> LifeNow(eps[k].states[n], w.b).Alive?
  {
    EpisodeStarts(v, run, eps, k);
    TablesOfRun(v, run, k);
    NoWorkerMeetsClosed(v, After(v, run[..k]), run[k], eps[k].states, eps[k].events, n, i);
  }
}
