/** What holds in every interleaving of one reload with the workers and the backends. */
module DrainTheorems {
  import opened ServerConfigs
  import opened Reload
  import opened ReloadRoutes
  import opened ReloadRuns
  import opened ReloadScript
  import opened DrainProtocol

  ghost predicate Behaviour(states: seq<State>, events: seq<Event>) {
    && |states| == |events| + 1
    && forall i :: 0 <= i < |events| ==>
         Enabled(states[i], events[i]) && states[i + 1] == Step(states[i], events[i])
  }

  lemma {:induction false} BehaviourInv(states: seq<State>, events: seq<Event>, b: Backend, n: nat)
    requires Behaviour(states, events) && n < |states|
    requires Inv(states[0], b) && RequestsMatch(states[0])
    ensures Inv(states[n], b) && RequestsMatch(states[n])
  {
    if n > 0 {
      BehaviourInv(states, events, b, n - 1);
      StepInv(states[n - 1], events[n - 1], b);
      StepRequests(states[n - 1], events[n - 1]);
    }
  }

  /** The reload of `l` is about to start: its script is what the manager has left to do.
      The worker loops and the goroutines may be anywhere, for backends that exist. */
  ghost predicate AboutToLoad(s: State, v: Variant, t: Tables, l: Load)
    requires Keyed(t) && ValidLoad(t, l)
  {
    && s.dict == t.dict && s.pushed == 0 && s.ops == Script(v, t, l)
    && (forall b :: LifeNow(s, b) == LifeOf(t, b))
    && (forall b :: LifeNow(s, b).Unborn? ==> Unreachable(s, b) && NoneRefer(s.tasks, |s.tasks|, b))
    && RequestsMatch(s)
  }

  lemma {:induction false} StartInv(s: State, v: Variant, t: Tables, l: Load, b: Backend)
    requires Keyed(t) && Ledger(t) && ValidLoad(t, l) && DistinctIds(l.cfgs)
    requires RemovedOwnStored(t, ById(l.cfgs)) && AboutToLoad(s, v, t, l)
    requires LifeNow(s, b).Gone? ==> Unreachable(s, b)
    ensures Inv(s, b)
  {
    LoadScriptSafe(v, t, l, b);
    WatchClearer(b, StartWatch(t, b), Now(s, b), s.ops);
  }

  /** Closed with no worker loop near it: none holds it, waits for it or has a request
      queued or in work there, and the catalog does not lead to it. */
  ghost predicate Drained(s: State, b: Backend)
    requires b in s.chans
  {
    && b !in s.dict.Values
    && (forall i :: 0 <= i < |s.workers| ==> !Refers(s.workers[i], b))
    && (forall i :: Worker(i) !in Pending(s.chans[b]))
  }

  lemma {:induction false} GoneIsDrained(s: State, b: Backend)
    requires Inv(s, b) && RequestsMatch(s) && LifeNow(s, b).Gone?
    ensures Drained(s, b)
  {
    forall i: nat ensures Worker(i) !in Pending(s.chans[b]) {
      assert RequestOk(s, b, Worker(i));
    }
  }

  /** Drain before close: in every interleaving of one load with any number of worker loops,
      goroutines and backends, a backend in use at the start is drained whenever it is
      closed, at the closing and ever after. */
  lemma {:induction false} DrainBeforeClose(
    v: Variant, t: Tables, l: Load, b: Backend, states: seq<State>, events: seq<Event>)
    requires Keyed(t) && Ledger(t) && ValidLoad(t, l) && DistinctIds(l.cfgs)
    requires RemovedOwnStored(t, ById(l.cfgs))
    requires Behaviour(states, events) && AboutToLoad(states[0], v, t, l) && InUse(t, b)
    ensures forall n :: 0 <= n < |states| && LifeNow(states[n], b).Gone? ==> Drained(states[n], b)
  {
    StartInv(states[0], v, t, l, b);
    forall n | 0 <= n < |states| && LifeNow(states[n], b).Gone? ensures Drained(states[n], b) {
      BehaviourInv(states, events, b, n);
      GoneIsDrained(states[n], b);
    }
  }

  /** No worker loop ever holds or waits for a closed or missing backend, so none sends on a
      closed channel; under the same condition as the drain. */
  lemma {:induction false} NoWorkerMeetsClosed(
    v: Variant, t: Tables, l: Load, states: seq<State>, events: seq<Event>, n: nat, i: nat)
    requires Keyed(t) && Ledger(t) && ValidLoad(t, l) && DistinctIds(l.cfgs)
    requires RemovedOwnStored(t, ById(l.cfgs))
    requires Behaviour(states, events) && AboutToLoad(states[0], v, t, l)
    requires forall b :: LifeNow(states[0], b).Gone? ==> Unreachable(states[0], b)
    requires n < |states| && i < |states[n].workers|
    ensures var w := states[n].workers[i];
      w.Holding? || w.Waiting? || w.Answered? ==> LifeNow(states[n], w.b).Alive?
  {
    var w := states[n].workers[i];
    if w.Holding? || w.Waiting? || w.Answered? {
      StartInv(states[0], v, t, l, w.b);
      BehaviourInv(states, events, w.b, n);
      assert Refers(w, w.b);
    }
  }

  // ------------------------------------------------- the reload can always finish

  ghost predicate Healthy(s: State) {
    && RequestsMatch(s)
    && (forall b :: Inv(s, b))
    && (forall i :: 0 <= i < |s.workers| ==> !s.workers[i].Stopped?)
  }

  function OpsWeight(ops: seq<ManagerOp>): nat {
    if ops == [] then 0
    else
      (match ops[0]
       case PutAll(ds, _) => |ds| + 1
       case DelAll(ds) => |ds| + 1
       case _ => 1) + OpsWeight(ops[1..])
  }

  function ChanWork(s: State, b: Backend): nat {
    if b in s.chans then
      2 * |s.chans[b].queue| + (if s.chans[b].busy.Some? then 1 else 0)
    else 0
  }

  /** How far the current op is from being possible. */
  function Obstacle(s: State): nat {
    if s.ops == [] then 0
    else
      match s.ops[0]
      case Push =>
        if s.pushed < |s.workers| then
          (match s.workers[s.pushed]
           case Holding(b) => 100 + ChanWork(s, b)
           case Waiting(b) => 50 + ChanWork(s, b)
           case Answered(b) => 1
           case _ => 0)
        else 0
      case Configure(b, _) => ChanWork(s, b)
      case Close(b) => ChanWork(s, b)
      case _ => 0
  }

  function PushesLeft(s: State): int {
    |s.workers| - s.pushed
  }

  /** The backend `b` is not idle, so its loop can do something about it. */
  lemma {:induction false} BackendMoves(s: State, b: Backend) returns (e: Event)
    requires RequestsMatch(s) && b in s.chans && !s.chans[b].closed
    requires s.chans[b].busy.Some? || s.chans[b].queue != []
    ensures e == (if s.chans[b].busy.Some? then Answer(b) else Take(b)) && Enabled(s, e)
  {
    if s.chans[b].busy.Some? {
      e := Answer(b);
      var c := s.chans[b].busy.value;
      assert c == Pending(s.chans[b])[0];
      assert RequestOk(s, b, c);
    } else {
      e := Take(b);
    }
  }

  /** What a backend does for others does not hold the manager up. */
  lemma {:induction false} BackendMoveHelps(s: State, b: Backend, e: Event)
    requires Enabled(s, e) && (e == Answer(b) || e == Take(b))
    ensures Step(s, e).ops == s.ops && Step(s, e).pushed == s.pushed
    ensures |Step(s, e).workers| == |s.workers|
    ensures ChanWork(Step(s, e), b) < ChanWork(s, b)
    ensures forall i :: 0 <= i < |s.workers| ==>
      Step(s, e).workers[i] == s.workers[i] || (s.workers[i] == Waiting(b) && Step(s, e).workers[i] == Answered(b))
  {
  }

  lemma {:induction false} WorkerMoves(s: State) returns (e: Event)
    requires Healthy(s) && s.ops != [] && s.ops[0].Push? && s.pushed < |s.workers|
    ensures Enabled(s, e) && !e.Lookup? && !e.Stop?
    ensures Step(s, e).ops == s.ops && |Step(s, e).workers| == |s.workers|
    ensures PushesLeft(Step(s, e)) < PushesLeft(s)
            || (Step(s, e).pushed == s.pushed && Obstacle(Step(s, e)) < Obstacle(s))
  {
    var w := s.workers[s.pushed];
    match w
    case Idle => e := PushOne;
    case Answered(_) => e := Finish(Worker(s.pushed));
    case Holding(b) =>
      assert Inv(s, b) && Refers(w, b);
      if |s.chans[b].queue| < REQUEST_BUFFER {
        e := Send(Worker(s.pushed));
      } else {
        e := BackendMoves(s, b);
        BackendMoveHelps(s, b, e);
      }
    case Waiting(b) =>
      assert Inv(s, b) && Refers(w, b);
      assert RequestOk(s, b, Worker(s.pushed));
      e := BackendMoves(s, b);
      BackendMoveHelps(s, b, e);
  }

  /** The backend the manager wants to configure or close lets it, if need be after an answer. */
  lemma {:induction false} BackendLets(s: State, b: Backend) returns (e: Event)
    requires Healthy(s) && s.ops != [] && (s.ops[0] == Close(b) || (s.ops[0].Configure? && s.ops[0].b == b))
    ensures Enabled(s, e) && (e == OpDone || e == Answer(b))
    ensures e == Answer(b) ==>
      Step(s, e).ops == s.ops && Step(s, e).pushed == s.pushed && Obstacle(Step(s, e)) < Obstacle(s)
  {
    assert Inv(s, b);
    WatchOkBack(b, WatchOp(b, Now(s, b), s.ops[0]), s.ops[1..]);
    if s.chans[b].busy.Some? {
      e := BackendMoves(s, b);
      BackendMoveHelps(s, b, e);
    } else {
      e := OpDone;
    }
  }

  /** The remaining work, most significant part first. */
  ghost predicate Less(s: State, s': State) {
    || OpsWeight(s.ops) < OpsWeight(s'.ops)
    || (s.ops == s'.ops && PushesLeft(s) < PushesLeft(s'))
    || (s.ops == s'.ops && PushesLeft(s) == PushesLeft(s') && Obstacle(s) < Obstacle(s'))
  }

  lemma {:induction false} ManagerMoves(s: State) returns (e: Event)
    requires Healthy(s) && s.ops != []
    ensures Enabled(s, e) && !e.Lookup? && !e.Stop? && Less(Step(s, e), s)
  {
    match s.ops[0]
    case Spawn(b) =>
      e := OpDone;
      assert Inv(s, b);
      WatchOkBack(b, WatchOp(b, Now(s, b), s.ops[0]), s.ops[1..]);
    case PutAll(ds, b) =>
      if ds == {} { e := OpDone; } else { var d :| d in ds; e := Write(d); WriteIsLess(s, d); }
    case DelAll(ds) =>
      if ds == {} { e := OpDone; } else { var d :| d in ds; e := Write(d); WriteIsLess(s, d); }
    case Push =>
      assert Inv(s, 0);
      if s.pushed == |s.workers| { e := OpDone; } else { e := WorkerMoves(s); }
    case Configure(b, _) => e := BackendLets(s, b);
    case Close(b) => e := BackendLets(s, b);
  }

  lemma {:induction false} WriteIsLess(s: State, d: string)
    requires Enabled(s, Write(d))
    ensures OpsWeight(Step(s, Write(d)).ops) < OpsWeight(s.ops)
  {
    var s' := Step(s, Write(d));
    assert s'.ops[1..] == s.ops[1..];
    assert s'.ops[0].domains == s.ops[0].domains - {d};
  }

  lemma {:induction false} StepHealthy(s: State, e: Event)
    requires Healthy(s) && Enabled(s, e) && !e.Stop?
    ensures Healthy(Step(s, e))
  {
    StepRequests(s, e);
    forall b ensures Inv(Step(s, e), b) {
      StepInv(s, e, b);
    }
  }

  /** No reload gets stuck: from every healthy state some continuation in which no new
      connection arrives takes the manager to the end of its script. */
  lemma {:induction false} ReloadCanFinish(s: State) returns (states: seq<State>, events: seq<Event>)
    requires Healthy(s)
    ensures Behaviour(states, events) && states[0] == s && states[|events|].ops == []
    ensures forall i :: 0 <= i < |events| ==> !events[i].Lookup? && !events[i].Stop?
    decreases OpsWeight(s.ops), PushesLeft(s), Obstacle(s)
  {
    if s.ops == [] {
      states, events := [s], [];
    } else {
      var e := ManagerMoves(s);
      StepHealthy(s, e);
      assert Inv(Step(s, e), 0) && Inv(s, 0);
      var ss, es := ReloadCanFinish(Step(s, e));
      states, events := [s] + ss, [e] + es;
      forall i | 0 <= i < |events|
        ensures Enabled(states[i], events[i]) && states[i + 1] == Step(states[i], events[i])
      {
        if i > 0 { assert Enabled(ss[i - 1], es[i - 1]); }
      }
    }
  }

  /** In particular every state of a load is healthy, as long as no worker loop is stopped. */
  lemma {:induction false} LoadStaysHealthy(
    v: Variant, t: Tables, l: Load, states: seq<State>, events: seq<Event>, n: nat)
    requires Keyed(t) && Ledger(t) && ValidLoad(t, l) && DistinctIds(l.cfgs)
    requires RemovedOwnStored(t, ById(l.cfgs))
    requires Behaviour(states, events) && AboutToLoad(states[0], v, t, l) && n < |states|
    requires forall b :: LifeNow(states[0], b).Gone? ==> Unreachable(states[0], b)
    requires forall i :: 0 <= i < |states[n].workers| ==> !states[n].workers[i].Stopped?
    ensures Healthy(states[n])
  {
    forall b ensures Inv(states[n], b) {
      StartInv(states[0], v, t, l, b);
      BehaviourInv(states, events, b, n);
    }
    StartInv(states[0], v, t, l, 0);
    BehaviourInv(states, events, 0, n);
  }

  // ------------------------------------------------- where the drain does not reach

  /** Goroutine `k` holds `b`: its next step is to send, and a send on a closed channel panics. */
  predicate HoldsBackend(s: State, k: nat, b: Backend) {
    k < |s.tasks| && s.tasks[k] == Holding(b)
  }

  /** Goroutine `k` waits for an answer of `b`, which a closed backend never gives. */
  predicate WaitsForBackend(s: State, k: nat, b: Backend) {
    k < |s.tasks| && s.tasks[k] == Waiting(b)
  }

  /** No step leads a goroutine to or away from a closed backend, nor from holding to waiting. */
  lemma {:induction false} StepKeepsStranded(s: State, e: Event, b: Backend, k: nat)
    requires Inv(s, b) && Enabled(s, e) && LifeNow(s, b).Gone?
    ensures LifeNow(Step(s, e), b).Gone?
    ensures HoldsBackend(Step(s, e), k, b) <==> HoldsBackend(s, k, b)
    ensures WaitsForBackend(Step(s, e), k, b) <==> WaitsForBackend(s, k, b)
  {
    match e
    case Proxy(i) => assert !Refers(s.workers[i], b);
    case _ =>
  }

  /** From the closing of a backend on, the goroutines that hold it are always the same ones, and
      so are those that wait for it: the first have a panic ahead, the others never end, and no
      other one gets there. */
  lemma {:induction false} StrandedForever(
    states: seq<State>, events: seq<Event>, b: Backend, n: nat, m: nat, k: nat)
    requires Behaviour(states, events) && n <= m < |states|
    requires Inv(states[0], b) && RequestsMatch(states[0]) && LifeNow(states[n], b).Gone?
    ensures LifeNow(states[m], b).Gone?
    ensures HoldsBackend(states[m], k, b) <==> HoldsBackend(states[n], k, b)
    ensures WaitsForBackend(states[m], k, b) <==> WaitsForBackend(states[n], k, b)
    decreases m
  {
    if n < m {
      StrandedForever(states, events, b, n, m - 1, k);
      BehaviourInv(states, events, b, m - 1);
      StepKeepsStranded(states[m - 1], events[m - 1], b, k);
    }
  }

  /** Step `n` of the behaviour closes `b`. */
  predicate Closes(states: seq<State>, events: seq<Event>, n: nat, b: Backend)
    requires n < |events| && n < |states|
  {
    events[n].OpDone? && states[n].ops != [] && states[n].ops[0] == Close(b)
  }

  /** When the drain reaches the goroutines too: at any time after a close a goroutine is left
      with a panic ahead exactly when one holds the backend at that moment, and one is left
      waiting for ever exactly when one waits for it. */
  lemma {:induction false} CloseStrandsExact(
    states: seq<State>, events: seq<Event>, b: Backend, n: nat, m: nat)
    requires Behaviour(states, events) && n < |events| && n < m < |states| && Closes(states, events, n, b)
    requires Inv(states[0], b) && RequestsMatch(states[0])
    ensures (exists k :: HoldsBackend(states[m], k, b)) <==> (exists k :: HoldsBackend(states[n], k, b))
    ensures (exists k :: WaitsForBackend(states[m], k, b)) <==> (exists k :: WaitsForBackend(states[n], k, b))
  {
    assert states[n + 1] == Step(states[n], events[n]) && Enabled(states[n], events[n]);
    assert states[n + 1].tasks == states[n].tasks;
    forall k: nat
      ensures HoldsBackend(states[m], k, b) <==> HoldsBackend(states[n], k, b)
      ensures WaitsForBackend(states[m], k, b) <==> WaitsForBackend(states[n], k, b)
    {
      StrandedForever(states, events, b, n + 1, m, k);
    }
  }

  /** One worker, one backend, and the removal of its only domain. */
  const LEAK_START := State(
    map["a" := 0], [DelAll({"a"}), Push, Close(0)], 0, [Idle], [], map[0 := Chan([], None, false)])

  /** After the answer the worker hands the connection to a goroutine and is idle again. */
  const LEAK_PROXIED := LEAK_START.(tasks := [Holding(0)])

  const LEAK_END := State(
    map[], [], 0, [Idle], [Holding(0)], map[0 := Chan([], None, true)])

  const LEAK_ASKED := LEAK_START.(workers := [Waiting(0)], chans := map[0 := Chan([], Some(Worker(0)), false)])

  lemma {:induction false} LeakAsks() returns (states: seq<State>, events: seq<Event>)
    ensures Behaviour(states, events) && states[0] == LEAK_START && states[|events|] == LEAK_ASKED
  {
    var c := Worker(0);
    var s0 := LEAK_START;
    events := [Lookup(0, "a"), Send(c), Take(0)];
    var s1 := s0.(workers := [Holding(0)]);
    var s2 := s0.(workers := [Waiting(0)], chans := s0.chans[0 := Chan([c], None, false)]);
    states := [s0, s1, s2, LEAK_ASKED];
    assert [] + [c] == [c] && [c][1..] == [];
    assert Step(s1, events[1]) == s2;
    assert s2.chans[0 := Chan([], Some(c), false)] == LEAK_ASKED.chans;
    assert Step(s2, events[2]) == LEAK_ASKED;
  }

  lemma {:induction false} LeakProxies() returns (states: seq<State>, events: seq<Event>)
    ensures Behaviour(states, events) && states[0] == LEAK_ASKED && states[|events|] == LEAK_PROXIED
  {
    var s3, s4 := LEAK_ASKED, LEAK_START.(workers := [Answered(0)]);
    events := [Answer(0), Proxy(0)];
    states := [s3, s4, LEAK_PROXIED];
    assert s3.chans[0 := Chan([], None, false)] == s4.chans;
    assert Step(s3, events[0]) == s4;
    assert Step(s4, events[1]) == LEAK_PROXIED;
  }

  const LEAK_PUSHED := LEAK_PROXIED.(dict := map[], ops := [Push, Close(0)], pushed := 1)

  lemma {:induction false} LeakPushes() returns (states: seq<State>, events: seq<Event>)
    ensures Behaviour(states, events) && states[0] == LEAK_PROXIED && states[|events|] == LEAK_PUSHED
  {
    var s5 := LEAK_PROXIED;
    events := [Write("a"), OpDone, PushOne];
    var s6 := s5.(dict := map[], ops := [DelAll({}), Push, Close(0)]);
    var s7 := s6.(ops := [Push, Close(0)]);
    states := [s5, s6, s7, LEAK_PUSHED];
    assert {"a"} - {"a"} == {} && s5.dict - {"a"} == map[];
    assert Step(s5, events[0]) == s6;
    assert Step(s6, events[1]) == s7;
    assert Step(s7, events[2]) == LEAK_PUSHED;
  }

  lemma {:induction false} LeakCloses() returns (states: seq<State>, events: seq<Event>)
    ensures Behaviour(states, events) && states[0] == LEAK_PUSHED && states[|events|] == LEAK_END
  {
    var s8 := LEAK_PUSHED;
    events := [OpDone, OpDone];
    var s9 := s8.(ops := [Close(0)], pushed := 0);
    states := [s8, s9, LEAK_END];
    assert Step(s8, events[0]) == s9;
    assert s9.chans[0 := Chan([], None, true)] == LEAK_END.chans;
    assert Step(s9, events[1]) == LEAK_END;
  }

  lemma {:induction false} BehaviourJoin(ss: seq<State>, es: seq<Event>, ss': seq<State>, es': seq<Event>)
    returns (all: seq<State>, evs: seq<Event>)
    requires Behaviour(ss, es) && Behaviour(ss', es') && ss[|es|] == ss'[0]
    ensures Behaviour(all, evs) && all[0] == ss[0] && all[|evs|] == ss'[|es'|]
  {
    all, evs := ss + ss'[1..], es + es';
    forall i | 0 <= i < |evs| ensures Enabled(all[i], evs[i]) && all[i + 1] == Step(all[i], evs[i]) {
      if i >= |es| {
        var j := i - |es|;
        assert all[i] == ss'[j] && all[i + 1] == ss'[j + 1] && evs[i] == es'[j];
      }
    }
  }

  /** The goroutine that proxies a connection sends a second request of its own and is not
      waited for: in this run it still holds backend 0 when that has been closed, although
      the worker loops are drained as promised. */
  lemma {:induction false} ProxyGoroutineMeetsClosed() returns (states: seq<State>, events: seq<Event>)
    ensures Behaviour(states, events) && states[0] == LEAK_START && Healthy(LEAK_START)
    ensures var last := states[|events|];
      last.tasks == [Holding(0)] && LifeNow(last, 0).Gone? && Drained(last, 0)
  {
    var ss, es := LeakAsks();
    var ss', es' := LeakProxies();
    ss, es := BehaviourJoin(ss, es, ss', es');
    ss', es' := LeakPushes();
    ss, es := BehaviourJoin(ss, es, ss', es');
    ss', es' := LeakCloses();
    states, events := BehaviourJoin(ss, es, ss', es');
    LeakStartHealthy();
  }

  lemma {:induction false} LeakStartHealthy()
    ensures Healthy(LEAK_START)
  {
    var s := LEAK_START;
    forall b ensures Inv(s, b) {
      Watch3(b, Now(s, b), DelAll({"a"}), Push, Close(0));
      assert s.dict - {"a"} == map[];
      assert b in s.dict.Values <==> b == 0;
    }
    forall b ensures EachOnce(s, b) {
      assert b in s.chans ==> Pending(s.chans[b]) == [];
    }
    forall b, c ensures RequestOk(s, b, c) {
      assert b in s.chans ==> Pending(s.chans[b]) == [];
    }
  }
}
