/** The manager, the worker loops and the backend loops running side by side while the
    manager works through the script of a reload. A step is one channel operation or one
    access to the shared catalog; any enabled step may come next. */
module DrainProtocol {
  import opened ServerConfigs
  import opened Reload
  import opened ReloadScript

  const REQUEST_BUFFER := 5

  /** Where a goroutine that may talk to a backend is: a worker loop (`Idle` is its select),
      or a goroutine started to proxy a connection (`Idle` is finished). */
  datatype Loop =
    | Idle
    | Holding(b: Backend)    // looked the server up, has yet to send the request
    | Waiting(b: Backend)    // request sent, waits for the answer
    | Answered(b: Backend)   // got the answer
    | Stopped

  datatype Caller = Worker(i: nat) | Task(k: nat)

  /** A backend: the buffered request channel and the request its loop is handling. */
  datatype Chan = Chan(queue: seq<Caller>, busy: Option<Caller>, closed: bool)

  datatype State = State(
    dict: map<string, Backend>,
    ops: seq<ManagerOp>,
    pushed: nat,
    workers: seq<Loop>,
    tasks: seq<Loop>,
    chans: map<Backend, Chan>)
  {
    predicate Known(c: Caller) {
      match c case Worker(i) => i < |workers| case Task(k) => k < |tasks|
    }

    function Of(c: Caller): Loop
      requires Known(c)
    {
      match c case Worker(i) => workers[i] case Task(k) => tasks[k]
    }

    function Set(c: Caller, l: Loop): State
      requires Known(c)
    {
      match c
      case Worker(i) => this.(workers := workers[i := l])
      case Task(k) => this.(tasks := tasks[k := l])
    }
  }

  datatype Event =
    | Lookup(i: nat, d: string)  // a worker loop resolves a connection's address
    | Send(c: Caller)
    | Finish(c: Caller)
    | Again(i: nat)              // a second request to the same server for one connection
    | Proxy(i: nat)              // hands the connection to a new goroutine
    | Stop(i: nat)
    | Take(b: Backend)
    | Answer(b: Backend)
    | Write(d: string)           // one map write or delete of the current op
    | PushOne                    // rendezvous with the next worker of the update loop
    | OpDone

  predicate OfManager(e: Event) {
    e.Write? || e.PushOne? || e.OpDone?
  }

  predicate Ready(s: State, b: Backend) {
    b in s.chans && !s.chans[b].closed && s.chans[b].busy.None?
  }

  predicate Enabled(s: State, e: Event) {
    match e
    case Lookup(i, d) => i < |s.workers| && s.workers[i].Idle?
    case Send(c) =>
      && s.Known(c) && s.Of(c).Holding? && s.Of(c).b in s.chans
      && !s.chans[s.Of(c).b].closed && |s.chans[s.Of(c).b].queue| < REQUEST_BUFFER
    case Finish(c) => s.Known(c) && s.Of(c).Answered?
    case Again(i) => i < |s.workers| && s.workers[i].Answered?
    case Proxy(i) => i < |s.workers| && s.workers[i].Answered?
    case Stop(i) => i < |s.workers| && s.workers[i].Idle?
    case Take(b) => Ready(s, b) && s.chans[b].queue != []
    case Answer(b) =>
      && b in s.chans && !s.chans[b].closed && s.chans[b].busy.Some?
      && s.Known(s.chans[b].busy.value) && s.Of(s.chans[b].busy.value) == Waiting(b)
    case Write(d) =>
      && s.ops != []
      && (s.ops[0].PutAll? || s.ops[0].DelAll?) && d in s.ops[0].domains
    case PushOne =>
      && s.ops != [] && s.ops[0].Push?
      && s.pushed < |s.workers| && s.workers[s.pushed].Idle?
    case OpDone =>
      && s.ops != []
      && match s.ops[0]
         case Spawn(b) => b !in s.chans
         case PutAll(ds, _) => ds == {}
         case DelAll(ds) => ds == {}
         case Push => s.pushed == |s.workers|
         case Configure(b, _) => Ready(s, b)
         case Close(b) => Ready(s, b)
  }

  function Step(s: State, e: Event): State
    requires Enabled(s, e)
  {
    match e
    case Lookup(i, d) => if d in s.dict then s.Set(Worker(i), Holding(s.dict[d])) else s
    case Send(c) =>
      var b := s.Of(c).b;
      s.Set(c, Waiting(b)).(chans := s.chans[b := s.chans[b].(queue := s.chans[b].queue + [c])])
    case Finish(c) => s.Set(c, Idle)
    case Again(i) => s.Set(Worker(i), Holding(s.workers[i].b))
    case Proxy(i) => s.Set(Worker(i), Idle).(tasks := s.tasks + [Holding(s.workers[i].b)])
    case Stop(i) => s.Set(Worker(i), Stopped)
    case Take(b) =>
      var ch := s.chans[b];
      s.(chans := s.chans[b := Chan(ch.queue[1..], Some(ch.queue[0]), ch.closed)])
    case Answer(b) =>
      s.Set(s.chans[b].busy.value, Answered(b)).(chans := s.chans[b := s.chans[b].(busy := None)])
    case Write(d) =>
      (match s.ops[0]
       case PutAll(ds, b) => s.(dict := s.dict[d := b], ops := [PutAll(ds - {d}, b)] + s.ops[1..])
       case DelAll(ds) => s.(dict := s.dict - {d}, ops := [DelAll(ds - {d})] + s.ops[1..])
       case _ => s)
    case PushOne => s.(pushed := s.pushed + 1)
    case OpDone =>
      var rest := s.(ops := s.ops[1..]);
      match s.ops[0]
      case Spawn(b) => rest.(chans := s.chans[b := Chan([], None, false)])
      case Close(b) => rest.(chans := s.chans[b := s.chans[b].(closed := true)])
      case Push => rest.(pushed := 0)
      case _ => rest
  }

  // ------------------------------------------------- requests and who waits for them

  function Pending(ch: Chan): seq<Caller> {
    (if ch.busy.Some? then [ch.busy.value] else []) + ch.queue
  }

  /** `c` has a request at `b` exactly while it waits for `b`. */
  ghost predicate RequestOk(s: State, b: Backend, c: Caller) {
    b in s.chans ==> (c in Pending(s.chans[b]) <==> s.Known(c) && s.Of(c) == Waiting(b))
  }

  ghost predicate EachOnce(s: State, b: Backend) {
    b in s.chans ==> NoRepeats(Pending(s.chans[b]))
  }

  ghost predicate WaitsAtChannel(s: State, c: Caller) {
    s.Known(c) && s.Of(c).Waiting? ==> s.Of(c).b in s.chans
  }

  ghost predicate RequestsMatch(s: State) {
    && (forall b, c :: RequestOk(s, b, c))
    && (forall b :: EachOnce(s, b))
    && (forall c :: WaitsAtChannel(s, c))
  }

  lemma {:induction false} SendRequests(s: State, c: Caller)
    requires RequestsMatch(s) && Enabled(s, Send(c))
    ensures RequestsMatch(Step(s, Send(c)))
  {
    var s', b0 := Step(s, Send(c)), s.Of(c).b;
    forall x ensures WaitsAtChannel(s', x) {
      assert WaitsAtChannel(s, x);
    }
    assert Pending(s'.chans[b0]) == Pending(s.chans[b0]) + [c];
    assert RequestOk(s, b0, c) && EachOnce(s, b0);
    forall b, x ensures RequestOk(s', b, x) {
      assert RequestOk(s, b, x);
    }
    forall b ensures EachOnce(s', b) {
      assert EachOnce(s, b);
      NoRepeatsAppend(Pending(s.chans[b0]), c);
    }
  }

  lemma {:induction false} TakeRequests(s: State, b0: Backend)
    requires RequestsMatch(s) && Enabled(s, Take(b0))
    ensures RequestsMatch(Step(s, Take(b0)))
  {
    var s' := Step(s, Take(b0));
    forall x ensures WaitsAtChannel(s', x) {
      assert WaitsAtChannel(s, x);
    }
    assert Pending(s'.chans[b0]) == Pending(s.chans[b0]);
    forall b, x ensures RequestOk(s', b, x) {
      assert RequestOk(s, b, x);
    }
    forall b ensures EachOnce(s', b) {
      assert EachOnce(s, b);
    }
  }

  lemma {:induction false} NoRepeatsTail<T>(s: seq<T>)
    requires s != [] && NoRepeats(s)
    ensures NoRepeats(s[1..]) && s[0] !in s[1..]
  {
    var t := s[1..];
    forall i, j | 0 <= i < j < |t| ensures t[i] != t[j] {
      assert s[i + 1] != s[j + 1];
    }
    forall i | 0 <= i < |t| ensures t[i] != s[0] {
      assert s[i + 1] != s[0];
    }
  }

  lemma {:induction false} AnswerRequests(s: State, b0: Backend)
    requires RequestsMatch(s) && Enabled(s, Answer(b0))
    ensures RequestsMatch(Step(s, Answer(b0)))
  {
    var s', c, p := Step(s, Answer(b0)), s.chans[b0].busy.value, Pending(s.chans[b0]);
    forall x ensures WaitsAtChannel(s', x) {
      assert WaitsAtChannel(s, x);
    }
    assert p[0] == c && p[1..] == Pending(s'.chans[b0]);
    assert EachOnce(s, b0);
    NoRepeatsTail(p);
    assert forall x :: x in p <==> x == c || x in p[1..];
    forall b, x ensures RequestOk(s', b, x) {
      assert RequestOk(s, b, x);
    }
    forall b ensures EachOnce(s', b) {
      assert EachOnce(s, b);
    }
  }

  /** The manager's steps do not change who waits; a new channel has no request. */
  lemma {:induction false} ManagerRequests(s: State, e: Event)
    requires RequestsMatch(s) && Enabled(s, e) && OfManager(e)
    ensures RequestsMatch(Step(s, e))
  {
    var s' := Step(s, e);
    assert s'.workers == s.workers && s'.tasks == s.tasks;
    forall x ensures WaitsAtChannel(s', x) {
      assert WaitsAtChannel(s, x);
    }
    forall b, c ensures RequestOk(s', b, c) {
      assert RequestOk(s, b, c) && WaitsAtChannel(s, c);
      assert b in s'.chans && b !in s.chans ==> Pending(s'.chans[b]) == [];
    }
    forall b ensures EachOnce(s', b) {
      assert EachOnce(s, b);
    }
  }

  /** No other step moves a request or changes who waits. */
  lemma {:induction false} OtherRequests(s: State, e: Event)
    requires RequestsMatch(s) && Enabled(s, e) && !OfManager(e) && !e.Send? && !e.Take? && !e.Answer?
    ensures RequestsMatch(Step(s, e))
  {
    var s' := Step(s, e);
    assert s'.chans == s.chans;
    forall c ensures s'.Known(c) && s'.Of(c).Waiting? ==> s.Known(c) && s.Of(c) == s'.Of(c)
             ensures s.Known(c) && s.Of(c).Waiting? ==> s'.Known(c) && s.Of(c) == s'.Of(c) {
    }
    forall x ensures WaitsAtChannel(s', x) {
      assert WaitsAtChannel(s, x);
    }
    forall b, c ensures RequestOk(s', b, c) {
      assert RequestOk(s, b, c);
    }
    forall b ensures EachOnce(s', b) {
      assert EachOnce(s, b);
    }
  }

  lemma {:induction false} StepRequests(s: State, e: Event)
    requires RequestsMatch(s) && Enabled(s, e)
    ensures RequestsMatch(Step(s, e))
  {
    match e
    case Send(c) => SendRequests(s, c);
    case Take(b) => TakeRequests(s, b);
    case Answer(b) => AnswerRequests(s, b);
    case _ => if OfManager(e) { ManagerRequests(s, e); } else { OtherRequests(s, e); }
  }

  /** Requests are answered in the order in which they were sent, and the buffer never overflows:
      a step appends one at the end, takes the first one away, or leaves them alone. */
  lemma {:induction false} StepFirstInFirstOut(s: State, e: Event, b: Backend)
    requires Enabled(s, e) && b in s.chans && |s.chans[b].queue| <= REQUEST_BUFFER
    ensures var s' := Step(s, e);
      && b in s'.chans && |s'.chans[b].queue| <= REQUEST_BUFFER
      && var p, p' := Pending(s.chans[b]), Pending(s'.chans[b]);
         || p' == p
         || (e.Send? && p' == p + [e.c] && s.Of(e.c) == Holding(b))
         || (e == Answer(b) && p != [] && p' == p[1..] && s'.Known(p[0]) && s'.Of(p[0]) == Answered(b))
  {
    var s' := Step(s, e);
    match e
    case Take(c) => assert c == b ==> Pending(s'.chans[b]) == Pending(s.chans[b]);
    case _ =>
  }

  /** A worker that asks again goes to the same backend, whatever the catalog has by now. */
  lemma {:induction false} AsksTheSameAgain(s: State, i: nat)
    requires Enabled(s, Again(i))
    ensures var s', b := Step(s, Again(i)), s.workers[i].b;
      && s'.workers[i] == Holding(b)
      && (b in s.chans && !s.chans[b].closed && |s.chans[b].queue| < REQUEST_BUFFER ==>
            Enabled(s', Send(Worker(i))) && Step(s', Send(Worker(i))).workers[i] == Waiting(b))
  {
  }

  // ------------------------------------------------- the view from one backend

  predicate Refers(l: Loop, b: Backend) {
    (l.Holding? || l.Waiting? || l.Answered?) && l.b == b
  }

  /** None of the first `n` loops holds `b`, waits for it or has an answer of it. */
  predicate NoneRefer(ws: seq<Loop>, n: nat, b: Backend)
    requires n <= |ws|
  {
    forall i :: 0 <= i < n ==> !Refers(ws[i], b)
  }

  /** No worker can get at `b` any more. */
  ghost predicate Unreachable(s: State, b: Backend) {
    b !in s.dict.Values && NoneRefer(s.workers, |s.workers|, b)
  }

  function LifeNow(s: State, b: Backend): Life {
    if b !in s.chans then Unborn else if s.chans[b].closed then Gone else Alive
  }

  ghost function Now(s: State, b: Backend): Watch {
    Watch(s.dict, Unreachable(s, b), LifeNow(s, b), true)
  }

  ghost predicate Inv(s: State, b: Backend) {
    && s.pushed <= |s.workers|
    && (s.pushed > 0 ==> s.ops != [] && s.ops[0].Push?)
    && WatchAll(b, Now(s, b), s.ops).ok
    && (b !in s.dict.Values ==> NoneRefer(s.workers, s.pushed, b))
    && (LifeNow(s, b).Gone? ==> Unreachable(s, b))
    && (LifeNow(s, b).Unborn? ==> Unreachable(s, b) && NoneRefer(s.tasks, |s.tasks|, b))
  }

  /** A lookup may bring a worker to `b` only while the catalog leads there. */
  lemma {:induction false} LookupInv(s: State, i: nat, d: string, b: Backend)
    requires Inv(s, b) && Enabled(s, Lookup(i, d))
    ensures Inv(Step(s, Lookup(i, d)), b)
  {
    var s' := Step(s, Lookup(i, d));
    assert d in s.dict ==> s.dict[d] in s.dict.Values;
    WatchClearer(b, Now(s, b), Now(s', b), s.ops);
  }

  /** The other steps of the workers, their goroutines and the backends. */
  lemma {:induction false} LoopStepInv(s: State, e: Event, b: Backend)
    requires Inv(s, b) && Enabled(s, e) && !OfManager(e) && !e.Lookup?
    ensures Inv(Step(s, e), b)
  {
    var s' := Step(s, e);
    LoopStepKeepsAway(s, e, b);
    assert LifeNow(s', b) == LifeNow(s, b);
    WatchClearer(b, Now(s, b), Now(s', b), s.ops);
  }

  /** Only a lookup brings a worker to a backend, only a worker there a goroutine. */
  lemma {:induction false} LoopStepKeepsAway(s: State, e: Event, b: Backend)
    requires Enabled(s, e) && !OfManager(e) && !e.Lookup?
    ensures |Step(s, e).workers| == |s.workers|
    ensures forall n: nat :: n <= |s.workers| && NoneRefer(s.workers, n, b) ==> NoneRefer(Step(s, e).workers, n, b)
    ensures var s' := Step(s, e);
      NoneRefer(s.workers, |s.workers|, b) && NoneRefer(s.tasks, |s.tasks|, b) ==> NoneRefer(s'.tasks, |s'.tasks|, b)
  {
  }

  lemma {:induction false} PutInv(s: State, d: string, b: Backend)
    requires Inv(s, b) && Enabled(s, Write(d)) && s.ops[0].PutAll?
    ensures Inv(Step(s, Write(d)), b)
  {
    var s', rest, ds, c := Step(s, Write(d)), s.ops[1..], s.ops[0].domains, s.ops[0].b;
    assert s'.ops[0] == PutAll(ds - {d}, c) && s'.ops[1..] == rest;
    var w, w' := WatchOp(b, Now(s, b), s.ops[0]), WatchOp(b, Now(s', b), s'.ops[0]);
    WatchOkBack(b, w, rest);
    PutOneOfAll(s.dict, ds, d, c);
    assert c != b && b !in s.dict.Values ==> b !in s'.dict.Values;
    assert s'.dict[d] in s'.dict.Values;
    WatchClearer(b, w, w', rest);
  }

  lemma {:induction false} PutOneOfAll(dict: map<string, Backend>, ds: set<string>, d: string, c: Backend)
    requires d in ds
    ensures dict[d := c] + (map x | x in ds - {d} :: c) == dict + (map x | x in ds :: c)
  {
  }

  lemma {:induction false} DelInv(s: State, d: string, b: Backend)
    requires Inv(s, b) && Enabled(s, Write(d)) && s.ops[0].DelAll?
    ensures Inv(Step(s, Write(d)), b)
  {
    var s', rest, ds := Step(s, Write(d)), s.ops[1..], s.ops[0].domains;
    assert s'.ops[0] == DelAll(ds - {d}) && s'.ops[1..] == rest;
    var w, w' := WatchOp(b, Now(s, b), s.ops[0]), WatchOp(b, Now(s', b), s'.ops[0]);
    WatchOkBack(b, w, rest);
    assert s.dict - {d} - (ds - {d}) == s.dict - ds;
    assert b !in s.dict.Values ==> b !in s'.dict.Values;
    assert NoneRefer(s'.workers, 0, b);
    WatchClearer(b, w, w', rest);
  }

  lemma {:induction false} OpDoneInv(s: State, b: Backend)
    requires Inv(s, b) && Enabled(s, OpDone)
    ensures Inv(Step(s, OpDone), b)
  {
    var s', rest := Step(s, OpDone), s.ops[1..];
    var w := WatchOp(b, Now(s, b), s.ops[0]);
    WatchOkBack(b, w, rest);
    assert w.dict == s.dict;
    WatchClearer(b, w, Now(s', b), rest);
  }

  lemma {:induction false} StepInv(s: State, e: Event, b: Backend)
    requires Inv(s, b) && Enabled(s, e)
    ensures Inv(Step(s, e), b)
  {
    match e
    case Write(d) => if s.ops[0].PutAll? { PutInv(s, d, b); } else { DelInv(s, d, b); }
    case OpDone => OpDoneInv(s, b);
    case PushOne => WatchClearer(b, Now(s, b), Now(Step(s, e), b), s.ops);
    case Lookup(i, d) => LookupInv(s, i, d, b);
    case _ => LoopStepInv(s, e, b);
  }
}
