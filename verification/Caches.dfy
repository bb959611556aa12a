/** Two caches with a time to live: the status packet of a server, and whether it is online.
    They differ in what a failure does to the time stamp. */
module Caches {
  import opened Clock
  import opened McPacket
  import WindowBound

  /** The least time a run of probes spreads over; used by both caches. */
  lemma {:induction false} GapsAdd(k: nat, gap: int)
    ensures (k + 1) * gap == k * gap + gap
  {
  }

  // ------------------------------------------------- status cache

  /** What asking the server for its status comes to. A ping error still brings a packet. */
  datatype Fetch = Fetched(pk: Packet) | PingFailed(pk: Packet) | Failed(error: string)

  datatype Answer = Served(pk: Packet) | ServedWithError(pk: Packet, error: string)

  datatype StatusState = StatusState(status: Packet, cacheTime: Time)

  const NEW_STATUS_STATE := StatusState(Packet(0, []), Zero)

  /** One call that starts at `now`; if it has to fetch, the fetch is over at `done`. */
  datatype StatusCall = StatusCall(now: int, fetch: Fetch, done: int)

  predicate Fetches(cooldown: int, s: StatusState, c: StatusCall) {
    Since(c.now, s.cacheTime) >= cooldown
  }

  function StatusStep(cooldown: int, s: StatusState, c: StatusCall): (StatusState, Answer) {
    if !Fetches(cooldown, s, c) then (s, Served(s.status))
    else if c.fetch.Failed? then (s, ServedWithError(s.status, c.fetch.error))
    else (StatusState(c.fetch.pk, At(c.done)), Served(c.fetch.pk))
  }

  class StatusCache {
    const cooldown: int
    var status: Packet
    var cacheTime: Time

    constructor (cooldown: int)
      ensures StatusState(status, cacheTime) == NEW_STATUS_STATE && this.cooldown == cooldown
    {
      this.cooldown := cooldown;
      status, cacheTime := Packet(0, []), Zero;
    }

    method Status(now: int, fetch: Fetch, done: int) returns (a: Answer)
      modifies this
      ensures (StatusState(status, cacheTime), a)
           == StatusStep(cooldown, old(StatusState(status, cacheTime)), StatusCall(now, fetch, done))
    {
      if Since(now, cacheTime) < cooldown {
        return Served(status);
      }
      if fetch.Failed? {
        return ServedWithError(status, fetch.error);
      }
      cacheTime := At(done);
      status := fetch.pk;
      return Served(status);
    }
  }

  function StatusAfter(cooldown: int, run: seq<StatusCall>, n: nat): StatusState
    requires n <= |run|
  {
    if n == 0 then NEW_STATUS_STATE else StatusStep(cooldown, StatusAfter(cooldown, run, n - 1), run[n - 1]).0
  }

  /** Call `i` renews the cache. */
  predicate Renews(cooldown: int, run: seq<StatusCall>, i: nat)
    requires i < |run|
  {
    Fetches(cooldown, StatusAfter(cooldown, run, i), run[i]) && !run[i].fetch.Failed?
  }

  function StatusAnswer(cooldown: int, run: seq<StatusCall>, i: nat): Answer
    requires i < |run|
  {
    StatusStep(cooldown, StatusAfter(cooldown, run, i), run[i]).1
  }

  /** Calls come one after the other, and a fetch takes its time. */
  ghost predicate StatusInOrder(run: seq<StatusCall>) {
    && (forall i :: 0 <= i < |run| ==> run[i].now <= run[i].done)
    && (forall i, j :: 0 <= i < j < |run| ==> run[i].done <= run[j].now)
  }

  /** The last call before `n` that renewed the cache, if any. */
  lemma {:induction false} LastRenewal(cooldown: int, run: seq<StatusCall>, n: nat) returns (k: int)
    requires n <= |run|
    ensures -1 <= k < n
    ensures forall i :: k < i < n ==> !Renews(cooldown, run, i)
    ensures k == -1 ==> StatusAfter(cooldown, run, n) == NEW_STATUS_STATE
    ensures k >= 0 ==> Renews(cooldown, run, k)
                       && StatusAfter(cooldown, run, n) == StatusState(run[k].fetch.pk, At(run[k].done))
  {
    if n == 0 {
      k := -1;
    } else {
      k := LastRenewal(cooldown, run, n - 1);
      if Renews(cooldown, run, n - 1) {
        k := n - 1;
      }
    }
  }

  /** Every answer without error is the packet of the latest fetch that succeeded, and that
      fetch is either this call's own or younger than the cooldown. */
  lemma {:induction false} StatusIsFresh(cooldown: int, run: seq<StatusCall>, i: nat) returns (k: nat)
    requires cooldown <= MAX_DURATION && i < |run|
    requires StatusAnswer(cooldown, run, i).Served?
    ensures k <= i && Renews(cooldown, run, k) && StatusAnswer(cooldown, run, i).pk == run[k].fetch.pk
    ensures forall j :: k < j <= i ==> !Renews(cooldown, run, j)
    ensures k == i || run[i].now - run[k].done < cooldown
  {
    var last := LastRenewal(cooldown, run, i);
    k := if Renews(cooldown, run, i) then i else last;
  }

  /** A call answers with an error exactly if it fetches and that fails. With the error comes what is
      cached: the packet of the latest fetch that succeeded, or the empty one. */
  lemma {:induction false} StatusErrorExact(cooldown: int, run: seq<StatusCall>, i: nat) returns (k: int)
    requires i < |run|
    ensures -1 <= k < i && (k >= 0 ==> Renews(cooldown, run, k)) && forall j :: k < j < i ==> !Renews(cooldown, run, j)
    ensures var a := StatusAnswer(cooldown, run, i);
      && (a.ServedWithError? <==> Fetches(cooldown, StatusAfter(cooldown, run, i), run[i]) && run[i].fetch.Failed?)
      && (a.ServedWithError? ==>
            && a.error == run[i].fetch.error
            && a.pk == (if k >= 0 then run[k].fetch.pk else Packet(0, [])))
  {
    k := LastRenewal(cooldown, run, i);
  }

  /** Two fetches that renew the cache are at least a cooldown apart, from the end of the
      first to the start of the second. Failures do not count: they are tried again at once. */
  lemma {:induction false} RenewalsApart(cooldown: int, run: seq<StatusCall>, i: nat, j: nat)
    requires cooldown <= MAX_DURATION && StatusInOrder(run) && i < j < |run|
    requires Renews(cooldown, run, i) && Renews(cooldown, run, j)
    ensures run[j].now - run[i].done >= cooldown
  {
    var k := LastRenewal(cooldown, run, j);
    assert i <= k;
    if i < k {
      assert run[i].done <= run[k].now <= run[k].done;
    }
  }

  /** A call fetches, successfully or not, exactly when no fetch has succeeded within the
      cooldown before it: a failed fetch does not postpone the next. */
  lemma {:induction false} FetchesIffStale(cooldown: int, run: seq<StatusCall>, i: nat)
    requires cooldown <= MAX_DURATION && StatusInOrder(run) && i < |run|
    ensures Fetches(cooldown, StatusAfter(cooldown, run, i), run[i]) <==>
            forall k :: 0 <= k < i && Renews(cooldown, run, k) ==> run[i].now - run[k].done >= cooldown
  {
    var last := LastRenewal(cooldown, run, i);
    forall k | 0 <= k < i && Renews(cooldown, run, k) ensures run[k].done <= run[last].done {
      RenewedEarlier(run, k, last);
    }
  }

  lemma {:induction false} RenewedEarlier(run: seq<StatusCall>, k: nat, last: nat)
    requires StatusInOrder(run) && k <= last < |run|
    ensures run[k].done <= run[last].done
  {
    if k < last {
      assert run[k].done <= run[last].now;
    }
  }

  // ------------------------------------------------- state agent

  datatype ServerState = Unknown | Online | Offline

  datatype AgentState = AgentState(state: ServerState, startTime: Time)

  const NEW_AGENT_STATE := AgentState(Unknown, Zero)

  datatype StateCall = StateCall(now: int, dialSucceeds: bool)

  predicate Probes(cooldown: int, s: AgentState, c: StateCall) {
    Since(c.now, s.startTime) > cooldown
  }

  function Verdict(c: StateCall): ServerState {
    if c.dialSucceeds then Online else Offline
  }

  function StateStep(cooldown: int, s: AgentState, c: StateCall): (AgentState, ServerState) {
    if !Probes(cooldown, s, c) then (s, s.state)
    else (AgentState(Verdict(c), At(c.now)), Verdict(c))
  }

  class McServerState {
    const cooldown: int
    var state: ServerState
    var startTime: Time

    constructor (cooldown: int)
      ensures AgentState(state, startTime) == NEW_AGENT_STATE && this.cooldown == cooldown
    {
      this.cooldown := cooldown;
      state, startTime := Unknown, Zero;
    }

    method State(now: int, dialSucceeds: bool) returns (r: ServerState)
      modifies this
      ensures (AgentState(state, startTime), r)
           == StateStep(cooldown, old(AgentState(state, startTime)), StateCall(now, dialSucceeds))
    {
      if Since(now, startTime) <= cooldown {
        return state;
      }
      startTime := At(now);
      if !dialSucceeds {
        state := Offline;
      } else {
        state := Online;
      }
      return state;
    }
  }

  function AgentAfter(cooldown: int, run: seq<StateCall>, n: nat): AgentState
    requires n <= |run|
  {
    if n == 0 then NEW_AGENT_STATE else StateStep(cooldown, AgentAfter(cooldown, run, n - 1), run[n - 1]).0
  }

  predicate ProbesAt(cooldown: int, run: seq<StateCall>, i: nat)
    requires i < |run|
  {
    Probes(cooldown, AgentAfter(cooldown, run, i), run[i])
  }

  function AgentAnswer(cooldown: int, run: seq<StateCall>, i: nat): ServerState
    requires i < |run|
  {
    StateStep(cooldown, AgentAfter(cooldown, run, i), run[i]).1
  }

  ghost predicate CallsInOrder(run: seq<StateCall>) {
    forall i, j :: 0 <= i < j < |run| ==> run[i].now <= run[j].now
  }

  lemma {:induction false} LastProbe(cooldown: int, run: seq<StateCall>, n: nat) returns (k: int)
    requires n <= |run|
    ensures -1 <= k < n
    ensures forall i :: k < i < n ==> !ProbesAt(cooldown, run, i)
    ensures k == -1 ==> AgentAfter(cooldown, run, n) == NEW_AGENT_STATE
    ensures k >= 0 ==> ProbesAt(cooldown, run, k)
                       && AgentAfter(cooldown, run, n) == AgentState(Verdict(run[k]), At(run[k].now))
  {
    if n == 0 {
      k := -1;
    } else {
      k := LastProbe(cooldown, run, n - 1);
      if ProbesAt(cooldown, run, n - 1) {
        k := n - 1;
      }
    }
  }

  /** Every call answers by the latest probe, its own included: online if its dial succeeded and
      offline if not. That probe is no older than the cooldown. Only a cooldown of the largest
      duration never probes. */
  lemma {:induction false} StateIsLatestVerdict(cooldown: int, run: seq<StateCall>, i: nat) returns (k: nat)
    requires cooldown < MAX_DURATION && i < |run|
    ensures k <= i && ProbesAt(cooldown, run, k)
    ensures AgentAnswer(cooldown, run, i).Online? <==> run[k].dialSucceeds
    ensures AgentAnswer(cooldown, run, i).Offline? <==> !run[k].dialSucceeds
    ensures forall j :: k < j <= i ==> !ProbesAt(cooldown, run, j)
    ensures k == i || run[i].now - run[k].now <= cooldown
  {
    var last := LastProbe(cooldown, run, i);
    k := if ProbesAt(cooldown, run, i) then i else last;
  }

  lemma {:induction false} NeverProbes(run: seq<StateCall>, n: nat)
    requires n <= |run|
    ensures AgentAfter(MAX_DURATION, run, n) == NEW_AGENT_STATE
    ensures n < |run| ==> AgentAnswer(MAX_DURATION, run, n).Unknown?
  {
    if n > 0 {
      NeverProbes(run, n - 1);
    }
  }

  /** How many of the first `n` calls probe at a time in [a, b]. */
  function ProbesIn(cooldown: int, run: seq<StateCall>, n: nat, a: int, b: int): nat
    requires n <= |run|
  {
    if n == 0 then 0
    else
      ProbesIn(cooldown, run, n - 1, a, b) +
      if ProbesAt(cooldown, run, n - 1) && a <= run[n - 1].now <= b then 1 else 0
  }

  /** Each probe in the interval pushes the next one at least a cooldown away. */
  lemma {:induction false} ProbesSpread(cooldown: int, run: seq<StateCall>, n: nat, a: int, b: int)
    requires 0 < cooldown <= MAX_DURATION && n <= |run| && CallsInOrder(run)
    ensures var k, s := ProbesIn(cooldown, run, n, a, b), AgentAfter(cooldown, run, n);
      && (k >= 1 ==> s.startTime.At? && s.startTime.t >= a + (k - 1) * cooldown)
      && (k >= 1 ==> a + (k - 1) * cooldown <= b)
      && (s.startTime.At? ==> n > 0 && s.startTime.t <= run[n - 1].now)
  {
    if n > 0 {
      ProbesSpread(cooldown, run, n - 1, a, b);
      assert n > 1 ==> run[n - 2].now <= run[n - 1].now;
      var k := ProbesIn(cooldown, run, n - 1, a, b);
      if k >= 1 {
        GapsAdd(k - 1, cooldown);
      }
    }
  }

  lemma {:induction false} QuotientBound(k: nat, cooldown: int, length: nat)
    requires cooldown > 0 && k * cooldown <= length
    ensures k <= length / cooldown
  {
    var q := length / cooldown;
    assert length < (q + 1) * cooldown;
    if k > q {
      WindowBound.MulMonotone(q + 1, k, cooldown);
      assert false;
    }
  }

  /** Whatever the dials give, there are at most L/C + 1 probes in an interval of length L. */
  lemma {:induction false} ProbeRate(cooldown: int, run: seq<StateCall>, a: int, length: nat)
    requires 0 < cooldown <= MAX_DURATION && CallsInOrder(run)
    ensures ProbesIn(cooldown, run, |run|, a, a + length) <= length / cooldown + 1
  {
    var k := ProbesIn(cooldown, run, |run|, a, a + length);
    assert k >= 1 ==> (k - 1) * cooldown <= length by {
      ProbesSpread(cooldown, run, |run|, a, a + length);
    }
    if k >= 1 {
      QuotientBound(k - 1, cooldown, length);
    } else {
      QuotientBound(0, cooldown, length);
    }
  }
}
