/** How a backend counts the connections proxied to it: one goroutine per connection signals
    the opening and the closing over a buffered channel to the backend's loop, which keeps a
    counter and a gauge that is shared with other backends. Any enabled step may come next. */
module ActiveConns {

  const PROXY_BUFFER := 10

  /** A connection's goroutine: before its first send, between the two, after the second. */
  datatype Phase = Opening | Between | Done

  /** A signal in the channel; the loop itself does not look at the connection. */
  datatype Signal = Open(c: nat) | Close(c: nat)

  /** `seenOpen` and `seenClose` are the connections whose signals the loop has consumed. */
  datatype State = State(
    conns: seq<Phase>,
    queue: seq<Signal>,
    activeConns: int,
    name: string,
    gauge: map<string, int>,
    seenOpen: set<nat>,
    seenClose: set<nat>)

  datatype Event =
    | Start                            // a worker hands a connection to a new goroutine
    | SendOpen(c: nat)
    | SendClose(c: nat)
    | Consume
    | Rename(name: string)             // an update of the config; an empty name keeps the old one
    | Other(host: string, value: int) // another backend sets its own host
    | OtherDelete(host: string)

  function Reading(gauge: map<string, int>, host: string): int {
    if host in gauge then gauge[host] else 0
  }

  predicate Enabled(s: State, e: Event) {
    match e
    case Start => true
    case SendOpen(c) => c < |s.conns| && s.conns[c].Opening? && |s.queue| < PROXY_BUFFER
    case SendClose(c) => c < |s.conns| && s.conns[c].Between? && |s.queue| < PROXY_BUFFER
    case Consume => s.queue != []
    case Rename(_) => true
    case Other(host, _) => host != s.name
    case OtherDelete(host) => host != s.name
  }

  /** `proxyRequest`: the counter and the gauge under the current name go up or down. */
  function Signalled(s: State, open: bool): State {
    var d := if open then 1 else -1;
    s.(activeConns := s.activeConns + d, gauge := s.gauge[s.name := Reading(s.gauge, s.name) + d])
  }

  /** `UpdateSameGoroutine`: the old host is deleted and the counter added to the new one. */
  function Renamed(s: State, name: string): State {
    if name == "" then s
    else
      var deleted := s.gauge - {s.name};
      s.(name := name, gauge := deleted[name := Reading(deleted, name) + s.activeConns])
  }

  function Step(s: State, e: Event): State
    requires Enabled(s, e)
  {
    match e
    case Start => s.(conns := s.conns + [Opening])
    case SendOpen(c) => s.(conns := s.conns[c := Between], queue := s.queue + [Open(c)])
    case SendClose(c) => s.(conns := s.conns[c := Done], queue := s.queue + [Close(c)])
    case Consume =>
      (match s.queue[0]
       case Open(c) => Signalled(s.(queue := s.queue[1..], seenOpen := s.seenOpen + {c}), true)
       case Close(c) => Signalled(s.(queue := s.queue[1..], seenClose := s.seenClose + {c}), false))
    case Rename(name) => Renamed(s, name)
    case Other(host, value) => s.(gauge := s.gauge[host := value])
    case OtherDelete(host) => s.(gauge := s.gauge - {host})
  }

  // ------------------------------------------------- one connection

  /** The signals of connection `c` in the channel, in order. */
  function Of(queue: seq<Signal>, c: nat): seq<Signal> {
    if queue == [] then []
    else (if queue[0].c == c then [queue[0]] else []) + Of(queue[1..], c)
  }

  lemma {:induction false} OfAppend(queue: seq<Signal>, x: Signal, c: nat)
    ensures Of(queue + [x], c) == Of(queue, c) + (if x.c == c then [x] else [])
  {
    if queue != [] {
      assert (queue + [x])[1..] == queue[1..] + [x];
      OfAppend(queue[1..], x, c);
    } else {
      assert [x][1..] == [];
    }
  }

  function PhaseOf(s: State, c: nat): Phase {
    if c < |s.conns| then s.conns[c] else Opening
  }

  /** The signals of a connection are sent, kept in order and consumed once each. */
  ghost predicate ConnOk(s: State, c: nat) {
    var q := Of(s.queue, c);
    match PhaseOf(s, c)
    case Opening => q == [] && c !in s.seenOpen && c !in s.seenClose
    case Between => c !in s.seenClose && q == if c in s.seenOpen then [] else [Open(c)]
    case Done =>
      if c in s.seenClose then c in s.seenOpen && q == []
      else q == if c in s.seenOpen then [Close(c)] else [Open(c), Close(c)]
  }

  lemma {:induction false} ConsumeConnOk(s: State, c: nat)
    requires s.queue != [] && ConnOk(s, c)
    ensures ConnOk(Step(s, Consume), c)
  {
    var q, rest := Of(s.queue, c), Of(s.queue[1..], c);
    if s.queue[0].c == c {
      assert q[0] == s.queue[0] && q[1..] == rest;
    } else {
      assert q == rest;
    }
  }

  lemma {:induction false} StepConnOk(s: State, e: Event, c: nat)
    requires Enabled(s, e) && ConnOk(s, c)
    ensures ConnOk(Step(s, e), c)
  {
    match e
    case SendOpen(x) => OfAppend(s.queue, Open(x), c);
    case SendClose(x) => OfAppend(s.queue, Close(x), c);
    case Consume => ConsumeConnOk(s, c);
    case _ =>
  }

  /** What the loop consumes next is an opening it has not seen, or the closing of one it has. */
  lemma {:induction false} HeadIsExpected(s: State)
    requires s.queue != [] && ConnOk(s, s.queue[0].c)
    ensures match s.queue[0]
            case Open(c) => c !in s.seenOpen && c !in s.seenClose
            case Close(c) => c in s.seenOpen && c !in s.seenClose
  {
    assert Of(s.queue, s.queue[0].c)[0] == s.queue[0];
  }

  // ------------------------------------------------- counting

  function Opens(queue: seq<Signal>): nat {
    if queue == [] then 0 else (if queue[0].Open? then 1 else 0) + Opens(queue[1..])
  }

  function Closes(queue: seq<Signal>): nat {
    if queue == [] then 0 else (if queue[0].Close? then 1 else 0) + Closes(queue[1..])
  }

  function BetweenSends(conns: seq<Phase>): nat {
    if conns == [] then 0 else (if conns[0].Between? then 1 else 0) + BetweenSends(conns[1..])
  }

  lemma {:induction false} CountsAppend(queue: seq<Signal>, x: Signal)
    ensures Opens(queue + [x]) == Opens(queue) + if x.Open? then 1 else 0
    ensures Closes(queue + [x]) == Closes(queue) + if x.Close? then 1 else 0
  {
    if queue != [] {
      assert (queue + [x])[1..] == queue[1..] + [x];
      CountsAppend(queue[1..], x);
    } else {
      assert [x][1..] == [];
    }
  }

  lemma {:induction false} BetweenUpdate(conns: seq<Phase>, c: nat, p: Phase)
    requires c < |conns|
    ensures BetweenSends(conns[c := p]) + (if conns[c].Between? then 1 else 0)
         == BetweenSends(conns) + (if p.Between? then 1 else 0)
  {
    if c > 0 {
      assert conns[c := p][1..] == conns[1..][c - 1 := p];
      BetweenUpdate(conns[1..], c - 1, p);
    } else {
      assert conns[c := p][1..] == conns[1..];
    }
  }

  lemma {:induction false} BetweenStart(conns: seq<Phase>)
    ensures BetweenSends(conns + [Opening]) == BetweenSends(conns)
  {
    if conns != [] {
      assert (conns + [Opening])[1..] == conns[1..] + [Opening];
      BetweenStart(conns[1..]);
    } else {
      assert [Opening][1..] == [];
    }
  }

  ghost predicate Counted(s: State) {
    && s.seenClose <= s.seenOpen
    && s.activeConns == |s.seenOpen - s.seenClose|
    && s.activeConns + Opens(s.queue) - Closes(s.queue) == BetweenSends(s.conns)
  }

  lemma {:induction false} ConsumeCounted(s: State)
    requires s.queue != [] && Counted(s) && ConnOk(s, s.queue[0].c)
    ensures Counted(Step(s, Consume))
  {
    HeadIsExpected(s);
    var live, s' := s.seenOpen - s.seenClose, Step(s, Consume);
    match s.queue[0]
    case Open(c) => assert s'.seenOpen - s'.seenClose == live + {c};
    case Close(c) => assert s'.seenOpen - s'.seenClose == live - {c};
  }

  lemma {:induction false} StepCounted(s: State, e: Event)
    requires Enabled(s, e) && Counted(s) && (e.Consume? ==> ConnOk(s, s.queue[0].c))
    ensures Counted(Step(s, e))
  {
    match e
    case Start => BetweenStart(s.conns);
    case SendOpen(c) => CountsAppend(s.queue, Open(c)); BetweenUpdate(s.conns, c, Between);
    case SendClose(c) => CountsAppend(s.queue, Close(c)); BetweenUpdate(s.conns, c, Done);
    case Consume => ConsumeCounted(s);
    case _ =>
  }

  // ------------------------------------------------- the gauge

  ghost predicate GaugeRight(s: State) {
    Reading(s.gauge, s.name) == s.activeConns
  }

  /** The new host of a rename is nobody else's: it is the old one or reads zero. */
  predicate Unshared(s: State, e: Event) {
    e.Rename? ==> e.name == "" || e.name == s.name || Reading(s.gauge, e.name) == 0
  }

  /** A step keeps the gauge right exactly when it is not a rename to a host in use. */
  lemma {:induction false} StepGaugeExact(s: State, e: Event)
    requires Enabled(s, e) && GaugeRight(s)
    ensures GaugeRight(Step(s, e)) <==> Unshared(s, e)
  {
  }

  /** A rename to another name moves the count: the old host is gone, the new one has as much more,
      all other hosts stay as they are. */
  lemma {:induction false} RenameMoves(s: State, name: string)
    requires name != "" && name != s.name
    ensures var s' := Step(s, Rename(name));
      && s.name !in s'.gauge && name in s'.gauge && s'.name == name && s'.activeConns == s.activeConns
      && Reading(s'.gauge, name) == Reading(s.gauge, name) + s.activeConns
      && forall host :: host != s.name && host != name ==>
           (host in s'.gauge <==> host in s.gauge) && Reading(s'.gauge, host) == Reading(s.gauge, host)
  {
  }

  /** No step touches a host that is neither the backend's name, before or after, nor set by another. */
  lemma {:induction false} OtherHostsKept(s: State, e: Event, host: string)
    requires Enabled(s, e) && host != s.name && host != Step(s, e).name
    requires !(e.Other? && e.host == host) && !(e.OtherDelete? && e.host == host)
    ensures var s' := Step(s, e);
      (host in s'.gauge <==> host in s.gauge) && Reading(s'.gauge, host) == Reading(s.gauge, host)
  {
  }

  // ------------------------------------------------- all runs

  ghost predicate Behaviour(states: seq<State>, events: seq<Event>) {
    && |states| == |events| + 1
    && forall i :: 0 <= i < |events| ==>
         Enabled(states[i], events[i]) && states[i + 1] == Step(states[i], events[i])
  }

  /** A backend that has not counted anything yet, whatever the gauge holds for others. */
  ghost predicate Fresh(s: State) {
    && s.conns == [] && s.queue == [] && s.activeConns == 0 && s.seenOpen == s.seenClose == {}
    && Reading(s.gauge, s.name) == 0
  }

  /** In every interleaving, the counter is the number of connections whose opening was
      consumed and whose closing was not; it is never negative; and with what is still in the
      channel it gives the number of goroutines between their two sends. */
  lemma {:induction false} ActiveConnsConserved(states: seq<State>, events: seq<Event>, n: nat)
    requires Behaviour(states, events) && Fresh(states[0]) && n < |states|
    ensures Counted(states[n]) && (forall c :: ConnOk(states[n], c)) && states[n].activeConns >= 0
  {
    if n > 0 {
      ActiveConnsConserved(states, events, n - 1);
      forall c: nat ensures ConnOk(states[n], c) {
        StepConnOk(states[n - 1], events[n - 1], c);
      }
      StepCounted(states[n - 1], events[n - 1]);
    } else {
      assert states[0].seenOpen - states[0].seenClose == {};
    }
  }

  /** As long as names are not shared, the gauge shows the counter under the current name,
      across all renames. */
  lemma {:induction false} GaugeShowsActiveConns(states: seq<State>, events: seq<Event>, n: nat)
    requires Behaviour(states, events) && Fresh(states[0]) && n < |states|
    requires forall i :: 0 <= i < n ==> Unshared(states[i], events[i])
    ensures GaugeRight(states[n])
  {
    if n > 0 {
      GaugeShowsActiveConns(states, events, n - 1);
      StepGaugeExact(states[n - 1], events[n - 1]);
    }
  }

  /** When every goroutine has finished and the channel is empty, nothing is counted. */
  lemma {:induction false} QuietMeansZero(states: seq<State>, events: seq<Event>, n: nat)
    requires Behaviour(states, events) && Fresh(states[0]) && n < |states|
    requires states[n].queue == [] && forall c :: 0 <= c < |states[n].conns| ==> states[n].conns[c].Done?
    ensures states[n].activeConns == 0
  {
    ActiveConnsConserved(states, events, n);
    NoneBetween(states[n].conns);
  }

  lemma {:induction false} NoneBetween(conns: seq<Phase>)
    requires forall c :: 0 <= c < |conns| ==> conns[c].Done?
    ensures BetweenSends(conns) == 0
  {
    if conns != [] {
      NoneBetween(conns[1..]);
    }
  }

  // ------------------------------------------------- the loop's own fields

  /** The gauge vector that all backends of the process share. */
  class Gauges {
    var values: map<string, int>

    constructor ()
      ensures values == map[]
    {
      values := map[];
    }
  }

  class Counter {
    var activeConns: int
    var name: string
    const gauges: Gauges

    constructor (gauges: Gauges)
      ensures activeConns == 0 && name == "" && this.gauges == gauges
    {
      this.gauges := gauges;
      activeConns, name := 0, "";
    }

    ghost function View(s: State): State
      reads this, gauges
    {
      s.(activeConns := activeConns, name := name, gauge := gauges.values)
    }

    method ProxyRequest(open: bool)
      modifies this`activeConns, gauges
      ensures forall s: State :: View(s) == Signalled(old(View(s)), open)
    {
      if open {
        activeConns := activeConns + 1;
        gauges.values := gauges.values[name := Reading(gauges.values, name) + 1];
      } else {
        activeConns := activeConns - 1;
        gauges.values := gauges.values[name := Reading(gauges.values, name) - 1];
      }
    }

    method UpdateName(newName: string)
      modifies this`name, gauges
      ensures forall s: State :: View(s) == Renamed(old(View(s)), newName)
    {
      if newName != "" {
        gauges.values := gauges.values - {name};
        name := newName;
        gauges.values := gauges.values[name := Reading(gauges.values, name) + activeConns];
      }
    }
  }
}
