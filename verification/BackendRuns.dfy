/** Runs of requests at one backend: what gets past its modules, over time. */
module BackendRuns {
  import opened BackendWorker
  import Limits = ConnLimiter
  import Caches
  import WindowBound
  import opened Clock

  datatype Asked = Asked(req: Request, env: Env)

  function ViewAfter(v: View, asked: seq<Asked>, n: nat): View
    requires n <= |asked|
  {
    if n == 0 then v else Decide(ViewAfter(v, asked, n - 1), asked[n - 1].req, asked[n - 1].env).0
  }

  function LimiterCall(a: Asked): Limits.Call {
    Limits.Call(Limits.Request(a.req.kind.Status?, a.req.ip, a.req.username), a.env.now)
  }

  /** What the limiter has been asked during the first `n` requests. */
  function LimiterCalls(v: View, asked: seq<Asked>, n: nat): (calls: seq<Limits.Call>)
    requires n <= |asked|
    ensures |calls| <= n
  {
    if n == 0 then []
    else
      var before, last := LimiterCalls(v, asked, n - 1), asked[n - 1];
      if ReachesLimiter(ViewAfter(v, asked, n - 1), last.req, last.env) then before + [LimiterCall(last)] else before
  }

  lemma {:induction false} NextCall(v: View, asked: seq<Asked>, n: nat)
    requires n < |asked| && ReachesLimiter(ViewAfter(v, asked, n), asked[n].req, asked[n].env)
    ensures LimiterCalls(v, asked, n + 1) == LimiterCalls(v, asked, n) + [LimiterCall(asked[n])]
  {
  }

  function StateNow(p: Limits.Params, created: int, run: seq<Limits.Call>): Limits.BotState {
    Limits.StateAfter(p, created, run, |run|)
  }

  /** The state after one more call, and whether it is let through freely. */
  lemma {:induction false} OneMoreCall(p: Limits.Params, created: int, run: seq<Limits.Call>, c: Limits.Call)
    ensures StateNow(p, created, run + [c]) == Limits.BotAllow(p, StateNow(p, created, run), c.req, c.now).0
    ensures Limits.AdmittedFreely(p, created, run + [c], |run|) <==>
            var (s', ok) := Limits.BotAllow(p, StateNow(p, created, run), c.req, c.now);
            !c.req.isStatus && ok && !s'.limiting
  {
    PrefixState(p, created, run, [c], |run|);
  }

  lemma {:induction false} PrefixState(
    p: Limits.Params, created: int, run: seq<Limits.Call>, more: seq<Limits.Call>, n: nat)
    requires n <= |run|
    ensures Limits.StateAfter(p, created, run + more, n) == Limits.StateAfter(p, created, run, n)
  {
    if n > 0 {
      PrefixState(p, created, run, more, n - 1);
    }
  }

  /** A backend with a fresh bot filter. */
  predicate Filtered(v: View, p: Limits.Params, created: int) {
    v.limiter == BotView(p, Limits.NewBotState(created))
  }

  /** One request, for the filter. */
  lemma {:induction false} FilterStep(v: View, p: Limits.Params, b: Limits.BotState, a: Asked)
    requires v.limiter == BotView(p, b)
    ensures var c := LimiterCall(a);
      Decide(v, a.req, a.env).0.limiter == BotView(p,
        if ReachesLimiter(v, a.req, a.env) then Limits.BotAllow(p, b, c.req, c.now).0 else b)
  {
    DecidedExactly(v, a.req, a.env);
  }

  /** The filter of a backend runs through exactly the calls that reach it. */
  lemma {:induction false} FilterRuns(v: View, p: Limits.Params, created: int, asked: seq<Asked>, n: nat)
    requires Filtered(v, p, created) && n <= |asked|
    ensures ViewAfter(v, asked, n).limiter == BotView(p, StateNow(p, created, LimiterCalls(v, asked, n)))
  {
    if n > 0 {
      var before, last := LimiterCalls(v, asked, n - 1), asked[n - 1];
      FilterRuns(v, p, created, asked, n - 1);
      FilterStep(ViewAfter(v, asked, n - 1), p, StateNow(p, created, before), last);
      OneMoreCall(p, created, before, LimiterCall(last));
    }
  }

  /** Request `i` is a login, or a request of unknown type, that is proxied with limiting off. */
  predicate ProxiedFreely(v: View, asked: seq<Asked>, i: nat)
    requires i < |asked|
  {
    var (v', ans) := Decide(ViewAfter(v, asked, i), asked[i].req, asked[i].env);
    !asked[i].req.kind.Status? && ans.ProxyAnswer? && v'.limiter.BotView? && !v'.limiter.b.limiting
  }

  /** One if request `i` is proxied freely at a time in [a, b]. */
  function FreeAt(v: View, asked: seq<Asked>, i: nat, a: int, b: int): nat
    requires i < |asked|
  {
    if ProxiedFreely(v, asked, i) && a <= asked[i].env.now <= b then 1 else 0
  }

  /** How many of the first `n` requests are proxied freely at a time in [a, b]. */
  function FreelyProxied(v: View, asked: seq<Asked>, n: nat, a: int, b: int): nat
    requires n <= |asked|
  {
    if n == 0 then 0 else FreelyProxied(v, asked, n - 1, a, b) + FreeAt(v, asked, n - 1, a, b)
  }

  lemma {:induction false} PrefixAdmissions(
    p: Limits.Params, created: int, run: seq<Limits.Call>, more: seq<Limits.Call>, n: nat, a: int, b: int)
    requires n <= |run|
    ensures Limits.FreeAdmissions(p, created, run + more, n, a, b) == Limits.FreeAdmissions(p, created, run, n, a, b)
  {
    if n > 0 {
      PrefixAdmissions(p, created, run, more, n - 1, a, b);
      PrefixState(p, created, run, more, n - 1);
      PrefixState(p, created, run, more, n);
    }
  }

  function Admissions(p: Limits.Params, created: int, run: seq<Limits.Call>, a: int, b: int): nat {
    Limits.FreeAdmissions(p, created, run, |run|, a, b)
  }

  lemma {:induction false} OneMoreCounts(
    p: Limits.Params, created: int, run: seq<Limits.Call>, c: Limits.Call, a: int, b: int)
    ensures Admissions(p, created, run + [c], a, b) == Admissions(p, created, run, a, b)
            + if Limits.AdmittedFreely(p, created, run + [c], |run|) && a <= c.now <= b then 1 else 0
  {
    PrefixAdmissions(p, created, run, [c], |run|, a, b);
  }

  /** A request that reaches the filter is proxied freely exactly if its call is let through
      freely; one that does not is not proxied. */
  lemma {:induction false} ProxiedIfAdmitted(v: View, p: Limits.Params, created: int, asked: seq<Asked>, n: nat)
    requires Filtered(v, p, created) && n < |asked|
    ensures var before, c := LimiterCalls(v, asked, n), LimiterCall(asked[n]);
      ProxiedFreely(v, asked, n) <==>
        && ReachesLimiter(ViewAfter(v, asked, n), asked[n].req, asked[n].env)
        && Limits.AdmittedFreely(p, created, before + [c], |before|)
  {
    FilterRuns(v, p, created, asked, n);
    DecidedExactly(ViewAfter(v, asked, n), asked[n].req, asked[n].env);
    OneMoreCall(p, created, LimiterCalls(v, asked, n), LimiterCall(asked[n]));
  }

  lemma {:induction false} AdmissionsNext(
    v: View, p: Limits.Params, created: int, asked: seq<Asked>, n: nat, a: int, b: int)
    requires Filtered(v, p, created) && n < |asked|
    ensures Admissions(p, created, LimiterCalls(v, asked, n + 1), a, b)
         == Admissions(p, created, LimiterCalls(v, asked, n), a, b)
            + FreeAt(v, asked, n, a, b)
  {
    ProxiedIfAdmitted(v, p, created, asked, n);
    if ReachesLimiter(ViewAfter(v, asked, n), asked[n].req, asked[n].env) {
      NextCall(v, asked, n);
      OneMoreCounts(p, created, LimiterCalls(v, asked, n), LimiterCall(asked[n]), a, b);
    }
  }

  lemma {:induction false} ProxiedIsAdmitted(
    v: View, p: Limits.Params, created: int, asked: seq<Asked>, n: nat, a: int, b: int)
    requires Filtered(v, p, created) && n <= |asked|
    ensures FreelyProxied(v, asked, n, a, b) == Admissions(p, created, LimiterCalls(v, asked, n), a, b)
  {
    if n > 0 {
      ProxiedIsAdmitted(v, p, created, asked, n - 1, a, b);
      AdmissionsNext(v, p, created, asked, n - 1, a, b);
    }
  }

  ghost predicate AskedInOrder(created: int, asked: seq<Asked>) {
    && (forall i :: 0 <= i < |asked| ==> created <= asked[i].env.now)
    && (forall i, j :: 0 <= i < j < |asked| ==> asked[i].env.now <= asked[j].env.now)
  }

  /** The calls that reach the limiter are as ordered as the requests. */
  lemma {:induction false} CallsInOrder(v: View, created: int, asked: seq<Asked>, n: nat)
    requires AskedInOrder(created, asked) && n <= |asked|
    ensures Limits.InOrder(created, LimiterCalls(v, asked, n))
    ensures forall c :: c in LimiterCalls(v, asked, n) ==> n > 0 && c.now <= asked[n - 1].env.now
  {
    if n > 0 {
      CallsInOrder(v, created, asked, n - 1);
      assert n > 1 ==> asked[n - 2].env.now <= asked[n - 1].env.now;
    }
  }

  /** Whatever mixture of requests a backend gets, online or offline, cached or not: in every
      interval the logins it proxies while not limiting stay within the bound of its filter. */
  lemma {:induction false} ProxiedLoginsBounded(
    v: View, p: Limits.Params, created: int, asked: seq<Asked>, a: int, length: nat)
    requires Filtered(v, p, created) && AskedInOrder(created, asked)
    requires p.Valid() && p.rateCooldown > 0 && p.rateLimit >= 0
    ensures FreelyProxied(v, asked, |asked|, a, a + length)
         <= p.rateLimit * (WindowBound.CeilDiv(length, p.rateCooldown) + 1)
  {
    CallsInOrder(v, created, asked, |asked|);
    ProxiedIsAdmitted(v, p, created, asked, |asked|, a, a + length);
    Limits.SlidingWindow(p, created, LimiterCalls(v, asked, |asked|), a, length);
  }

  // ------------------------------------------------- verified players

  /** Which request the last of some calls comes from. */
  lemma {:induction false} CallComesFrom(v: View, asked: seq<Asked>, n: nat, c: nat) returns (k: nat)
    requires n <= |asked| && c < |LimiterCalls(v, asked, n)|
    ensures k < n && ReachesLimiter(ViewAfter(v, asked, k), asked[k].req, asked[k].env)
    ensures LimiterCalls(v, asked, n)[..c] == LimiterCalls(v, asked, k)
    ensures LimiterCalls(v, asked, n)[c] == LimiterCall(asked[k])
  {
    var before := LimiterCalls(v, asked, n - 1);
    if c < |before| {
      k := CallComesFrom(v, asked, n - 1, c);
      assert LimiterCalls(v, asked, n)[..c] == before[..c];
    } else {
      k := n - 1;
      assert LimiterCalls(v, asked, n)[..c] == before;
    }
  }

  /** A request that is proxied with limiting on. */
  predicate ProxiedVerified(v: View, asked: seq<Asked>, i: nat)
    requires i < |asked|
  {
    var (v', ans) := Decide(ViewAfter(v, asked, i), asked[i].req, asked[i].env);
    !asked[i].req.kind.Status? && ans.ProxyAnswer? && v'.limiter.BotView? && v'.limiter.b.limiting
  }

  /** Whoever is proxied while the filter is limiting asked before, from the same address and under
      the same name, and got no answer. */
  lemma {:induction false} VerifiedAskedBefore(
    v: View, p: Limits.Params, created: int, asked: seq<Asked>, i: nat) returns (k: nat)
    requires Filtered(v, p, created) && i < |asked| && ProxiedVerified(v, asked, i)
    ensures k < i && Decide(ViewAfter(v, asked, k), asked[k].req, asked[k].env).1.NoAnswer?
    ensures asked[k].req.ip == asked[i].req.ip && asked[k].req.username == asked[i].req.username
  {
    var calls := LimiterCalls(v, asked, i);
    var run := calls + [LimiterCall(asked[i])];
    FilterRuns(v, p, created, asked, i);
    DecidedExactly(ViewAfter(v, asked, i), asked[i].req, asked[i].env);
    OneMoreCall(p, created, calls, LimiterCall(asked[i]));
    PrefixState(p, created, calls, [LimiterCall(asked[i])], |calls|);
    var c := Limits.VerifiedByReconnect(p, created, run, |calls|);
    k := CallComesFrom(v, asked, i, c);
    assert run == calls[..c] + run[c..];
    PrefixState(p, created, calls[..c], run[c..], c);
    FilterRuns(v, p, created, asked, k);
    DecidedExactly(ViewAfter(v, asked, k), asked[k].req, asked[k].env);
  }

  // ------------------------------------------------- a backend that probes its server

  /** What the agent is asked: once per request. */
  function AgentCalls(asked: seq<Asked>): (calls: seq<Caches.StateCall>)
    ensures |calls| == |asked|
  {
    seq(|asked|, i requires 0 <= i < |asked| => Caches.StateCall(asked[i].env.now, asked[i].env.dialSucceeds))
  }

  lemma {:induction false} AgentRuns(v: View, cooldown: int, asked: seq<Asked>, n: nat)
    requires v.agent == ProbingView(cooldown, Caches.NEW_AGENT_STATE) && n <= |asked|
    ensures ViewAfter(v, asked, n).agent == ProbingView(cooldown, Caches.AgentAfter(cooldown, AgentCalls(asked), n))
  {
    if n > 0 {
      AgentRuns(v, cooldown, asked, n - 1);
    }
  }

  /** Request `k` dials the server, as no request within the cooldown before it did. */
  predicate Dials(cooldown: int, asked: seq<Asked>, k: nat)
    requires k < |asked|
  {
    Caches.ProbesAt(cooldown, AgentCalls(asked), k)
  }

  /** With `k` the latest dial, which is no older than the cooldown, a request is answered as from
      an offline server exactly if it failed. */
  lemma {:induction false} AnsweredByLatestDial(v: View, cooldown: int, asked: seq<Asked>, i: nat) returns (k: nat)
    requires v.agent == ProbingView(cooldown, Caches.NEW_AGENT_STATE) && cooldown < MAX_DURATION && i < |asked|
    ensures k <= i && Dials(cooldown, asked, k) && (k == i || asked[i].env.now - asked[k].env.now <= cooldown)
    ensures forall j :: k < j <= i ==> !Dials(cooldown, asked, j)
    ensures var w, req := ViewAfter(v, asked, i), asked[i].req; var ans := Decide(w, req, asked[i].env).1;
      && (req.kind.Login? ==> (ans == DisconnectAnswer(w.disconnect) <==> !asked[k].env.dialSucceeds))
      && (req.kind.Login? ==> (ans.DisconnectAnswer? <==> !asked[k].env.dialSucceeds))
      && (req.kind.Status? && !asked[k].env.dialSucceeds ==> ans == StatusAnswer(w.offlineStatus))
      && (req.kind.Status? && w.cache.NoCacheView? ==> (ans.StatusAnswer? <==> !asked[k].env.dialSucceeds))
      && (req.kind.UnknownState? ==> !ans.DisconnectAnswer? && !ans.StatusAnswer?)
  {
    AgentRuns(v, cooldown, asked, i);
    k := Caches.StateIsLatestVerdict(cooldown, AgentCalls(asked), i);
    DecidedExactly(ViewAfter(v, asked, i), asked[i].req, asked[i].env);
  }

  // ------------------------------------------------- the absolute limiter

  lemma {:induction false} AbsPrefix(q: Limits.AbsParams, times: seq<int>, more: seq<int>, n: nat)
    requires n <= |times|
    ensures Limits.AbsStateAfter(q, times + more, n) == Limits.AbsStateAfter(q, times, n)
  {
    if n > 0 {
      AbsPrefix(q, times, more, n - 1);
    }
  }

  function Times(calls: seq<Limits.Call>): (times: seq<int>)
    ensures |times| == |calls|
  {
    seq(|calls|, i requires 0 <= i < |calls| => calls[i].now)
  }

  /** One request, for an absolute limiter. */
  lemma {:induction false} AbsStep(v: View, q: Limits.AbsParams, a: Limits.AbsState, req: Request, env: Env)
    requires v.limiter == AbsView(q, a)
    ensures Decide(v, req, env).0.limiter ==
            AbsView(q, if ReachesLimiter(v, req, env) then Limits.AbsAllow(q, a, env.now).0 else a)
    ensures Decide(v, req, env).1.ProxyAnswer? <==>
            ReachesLimiter(v, req, env) && Limits.AbsAllow(q, a, env.now).1
  {
    DecidedExactly(v, req, env);
  }

  lemma {:induction false} AbsNext(q: Limits.AbsParams, times: seq<int>, now: int)
    ensures Limits.AbsStateAfter(q, times + [now], |times| + 1)
         == Limits.AbsAllow(q, Limits.AbsStateAfter(q, times, |times|), now).0
    ensures Limits.AbsAdmitted(q, times + [now], |times|)
       <==> Limits.AbsAllow(q, Limits.AbsStateAfter(q, times, |times|), now).1
  {
    AbsPrefix(q, times, [now], |times|);
  }

  /** An absolute limiter runs through the times of the calls that reach it. */
  lemma {:induction false} AbsoluteRuns(v: View, q: Limits.AbsParams, asked: seq<Asked>, n: nat)
    requires v.limiter == AbsView(q, Limits.NEW_ABS_STATE) && n <= |asked|
    ensures var times := Times(LimiterCalls(v, asked, n));
      ViewAfter(v, asked, n).limiter == AbsView(q, Limits.AbsStateAfter(q, times, |times|))
  {
    if n > 0 {
      AbsoluteRuns(v, q, asked, n - 1);
      var w, last, times := ViewAfter(v, asked, n - 1), asked[n - 1], Times(LimiterCalls(v, asked, n - 1));
      AbsStep(w, q, Limits.AbsStateAfter(q, times, |times|), last.req, last.env);
      AbsNext(q, times, last.env.now);
      if ReachesLimiter(w, last.req, last.env) {
        assert Times(LimiterCalls(v, asked, n)) == times + [last.env.now];
      }
    }
  }

  /** And a request is proxied exactly if it reaches the limiter and its call is let through. */
  lemma {:induction false} AbsoluteProxies(v: View, q: Limits.AbsParams, asked: seq<Asked>, i: nat)
    requires v.limiter == AbsView(q, Limits.NEW_ABS_STATE) && i < |asked|
    ensures var times, now := Times(LimiterCalls(v, asked, i)), asked[i].env.now;
      Decide(ViewAfter(v, asked, i), asked[i].req, asked[i].env).1.ProxyAnswer? <==>
        && ReachesLimiter(ViewAfter(v, asked, i), asked[i].req, asked[i].env)
        && Limits.AbsAdmitted(q, times + [now], |times|)
  {
    AbsoluteRuns(v, q, asked, i);
    var times := Times(LimiterCalls(v, asked, i));
    AbsStep(ViewAfter(v, asked, i), q, Limits.AbsStateAfter(q, times, |times|), asked[i].req, asked[i].env);
    AbsNext(q, times, asked[i].env.now);
  }
}
