/** How a backend decides about one request, and what it sends on to its server. */
module BackendWorker {
  import opened GoStrings
  import opened McType
  import opened McPacket
  import opened McHandshake
  import RealIp
  import opened Clock
  import Caches
  import Limits = ConnLimiter
  import ActiveConns

  datatype RequestType = UnknownState | Status | Login

  /** `addr` is the client's address as text, `ip` the part of it the limiter goes by. */
  datatype Request = Request(kind: RequestType, handshake: Handshake, addr: Str, ip: Str, username: Str)

  /** What the outside contributes to one decision. */
  datatype Env = Env(now: int, dialSucceeds: bool, fetch: Caches.Fetch, done: int, stamp: int)

  /** `NoAnswer` is the zero answer, whose action is Error. */
  datatype Answer =
    | StatusAnswer(pk: Packet)
    | DisconnectAnswer(pk: Packet)
    | NoAnswer
    | ProxyAnswer(first: Packet, second: Packet)

  // ------------------------------------------------- the modules of a backend

  datatype StateAgent =
    | NoAgent
    | AlwaysOnline
    | AlwaysOffline
    | Probing(agent: Caches.McServerState)

  datatype Limiter =
    | NoLimiter
    | AlwaysAllow
    | BotFilter(bot: Limits.BotFilterConnLimiter)
    | Absolute(abs: Limits.AbsoluteConnLimiter)

  datatype Cache = NoCache | Caching(cache: Caches.StatusCache)

  datatype HsModifier = NoModifier | RealIP24

  // The same, by value: what they are configured to and what state they are in.

  datatype AgentView = NoAgentView | OnlineView | OfflineView | ProbingView(cooldown: int, s: Caches.AgentState)

  datatype LimiterView =
    | NoLimiterView
    | AllowView
    | BotView(p: Limits.Params, b: Limits.BotState)
    | AbsView(q: Limits.AbsParams, a: Limits.AbsState)

  datatype CacheView = NoCacheView | CachingView(cooldown: int, s: Caches.StatusState)

  datatype View = View(
    agent: AgentView, cache: CacheView, limiter: LimiterView,
    modifier: HsModifier, offlineStatus: Packet, disconnect: Packet)

  function AgentState(a: AgentView, env: Env): (AgentView, Caches.ServerState) {
    match a
    case NoAgentView => (a, Caches.Unknown)
    case OnlineView => (a, Caches.Online)
    case OfflineView => (a, Caches.Offline)
    case ProbingView(cooldown, s) =>
      var (s', r) := Caches.StateStep(cooldown, s, Caches.StateCall(env.now, env.dialSucceeds));
      (ProbingView(cooldown, s'), r)
  }

  function LimiterAllows(l: LimiterView, req: Request, env: Env): (LimiterView, bool) {
    match l
    case NoLimiterView => (l, true)
    case AllowView => (l, true)
    case BotView(p, b) =>
      var (b', ok) := Limits.BotAllow(p, b, Limits.Request(req.kind.Status?, req.ip, req.username), env.now);
      (BotView(p, b'), ok)
    case AbsView(q, a) =>
      var (a', ok) := Limits.AbsAllow(q, a, env.now);
      (AbsView(q, a'), ok)
  }

  function Forwarded(m: HsModifier, req: Request, env: Env): Handshake {
    match m
    case NoModifier => req.handshake
    case RealIP24 =>
      req.handshake.(serverAddress := RealIp.Upgrade(req.handshake.serverAddress, req.addr, env.stamp))
  }

  const LOGIN_START_ID: byte := 0
  const REQUEST_ID: byte := 0

  function SecondPacket(req: Request): Packet {
    match req.kind
    case Status => Packet(REQUEST_ID, [])
    case Login => Packet(LOGIN_START_ID, EncodeFields([StringValue(req.username)]))
    case UnknownState => Packet(0, [])
  }

  /** The decision, and the modules after it. */
  function Decide(v: View, req: Request, env: Env): (View, Answer) {
    var (agent, state) := AgentState(v.agent, env);
    var v1 := v.(agent := agent);
    if state.Offline? && req.kind.Status? then (v1, StatusAnswer(v.offlineStatus))
    else if state.Offline? && req.kind.Login? then (v1, DisconnectAnswer(v.disconnect))
    else if v.cache.CachingView? && req.kind.Status? then
      var (s', a) := Caches.StatusStep(v.cache.cooldown, v.cache.s, Caches.StatusCall(env.now, env.fetch, env.done));
      (v1.(cache := CachingView(v.cache.cooldown, s')),
       StatusAnswer(if a.Served? then a.pk else v.offlineStatus))
    else
      var (limiter, ok) := LimiterAllows(v.limiter, req, env);
      (v1.(limiter := limiter),
       if ok then ProxyAnswer(MarshalHandshake(Forwarded(v.modifier, req, env)), SecondPacket(req)) else NoAnswer)
  }

  /** An update of the config: whatever is missing in it keeps its old value. */
  datatype Config = Config(
    name: string,
    offlineStatus: Packet, disconnect: Packet,
    modifier: HsModifier, limiter: Limiter, agent: StateAgent, cache: Cache)

  class Backend {
    const counter: ActiveConns.Counter
    var offlineStatus: Packet
    var disconnect: Packet
    var modifier: HsModifier
    var limiter: Limiter
    var agent: StateAgent
    var cache: Cache

    constructor (counter: ActiveConns.Counter)
      ensures Now() == View(NoAgentView, NoCacheView, NoLimiterView, NoModifier, Packet(0, []), Packet(0, []))
      ensures this.counter == counter
    {
      this.counter := counter;
      offlineStatus, disconnect := Packet(0, []), Packet(0, []);
      modifier, limiter, agent, cache := NoModifier, NoLimiter, NoAgent, NoCache;
    }

    ghost function Modules(): set<object>
      reads this
    {
      (if agent.Probing? then {agent.agent as object} else {}) +
      (if cache.Caching? then {cache.cache as object} else {}) +
      (match limiter
       case BotFilter(b) => {b as object}
       case Absolute(a) => {a as object}
       case _ => {})
    }

    ghost predicate Valid()
      reads this
    {
      limiter.BotFilter? ==> limiter.bot.p.Valid()
    }

    ghost function Now(): View
      reads this, Modules()
    {
      View(
        match agent {
          case NoAgent => NoAgentView
          case AlwaysOnline => OnlineView
          case AlwaysOffline => OfflineView
          case Probing(a) => ProbingView(a.cooldown, Caches.AgentState(a.state, a.startTime))
        },
        match cache {
          case NoCache => NoCacheView
          case Caching(c) => CachingView(c.cooldown, Caches.StatusState(c.status, c.cacheTime))
        },
        match limiter {
          case NoLimiter => NoLimiterView
          case AlwaysAllow => AllowView
          case BotFilter(b) => BotView(b.p, b.State())
          case Absolute(a) => AbsView(a.p, Limits.AbsState(a.rateCounter, a.rateStartTime))
        },
        modifier, offlineStatus, disconnect)
    }

    method UpdateSameGoroutine(cfg: Config)
      modifies this, counter`name, counter.gauges
      ensures offlineStatus == if |cfg.offlineStatus.data| > 0 then cfg.offlineStatus else old(offlineStatus)
      ensures disconnect == if |cfg.disconnect.data| > 0 then cfg.disconnect else old(disconnect)
      ensures modifier == if cfg.modifier.NoModifier? then old(modifier) else cfg.modifier
      ensures limiter == if cfg.limiter.NoLimiter? then old(limiter) else cfg.limiter
      ensures agent == if cfg.agent.NoAgent? then old(agent) else cfg.agent
      ensures cache == if cfg.cache.NoCache? then old(cache) else cfg.cache
      ensures forall s: ActiveConns.State :: counter.View(s) == ActiveConns.Renamed(old(counter.View(s)), cfg.name)
    {
      counter.UpdateName(cfg.name);
      if |cfg.disconnect.data| > 0 {
        disconnect := cfg.disconnect;
      }
      if |cfg.offlineStatus.data| > 0 {
        offlineStatus := cfg.offlineStatus;
      }
      if !cfg.modifier.NoModifier? {
        modifier := cfg.modifier;
      }
      if !cfg.limiter.NoLimiter? {
        limiter := cfg.limiter;
      }
      if !cfg.agent.NoAgent? {
        agent := cfg.agent;
      }
      if !cfg.cache.NoCache? {
        cache := cfg.cache;
      }
    }

    method State(env: Env) returns (r: Caches.ServerState)
      modifies Modules()
      ensures var (a, s) := AgentState(old(Now().agent), env); Now() == old(Now()).(agent := a) && r == s
    {
      match agent
      case NoAgent => r := Caches.Unknown;
      case AlwaysOnline => r := Caches.Online;
      case AlwaysOffline => r := Caches.Offline;
      case Probing(a) => r := a.State(env.now, env.dialSucceeds);
    }

    method Allow(req: Request, env: Env) returns (ok: bool)
      requires Valid()
      modifies Modules()
      ensures var (l, r) := LimiterAllows(old(Now().limiter), req, env);
        Now() == old(Now()).(limiter := l) && ok == r
    {
      match limiter
      case NoLimiter => ok := true;
      case AlwaysAllow => ok := true;
      case BotFilter(b) => ok := b.Allow(Limits.Request(req.kind.Status?, req.ip, req.username), env.now);
      case Absolute(a) => ok := a.Allow(env.now);
    }

    method HandleRequest(req: Request, env: Env) returns (ans: Answer)
      requires Valid()
      modifies Modules()
      ensures (Now(), ans) == Decide(old(Now()), req, env)
    {
      var state := State(env);
      if state.Offline? {
        match req.kind {
          case Status => return StatusAnswer(offlineStatus);
          case Login => return DisconnectAnswer(disconnect);
          case UnknownState =>
        }
      }
      if cache.Caching? && req.kind.Status? {
        var a := cache.cache.Status(env.now, env.fetch, env.done);
        if a.ServedWithError? {
          return StatusAnswer(offlineStatus);
        }
        return StatusAnswer(a.pk);
      }
      var ok := Allow(req, env);
      if !ok {
        return NoAnswer;
      }
      return ProxyAnswer(MarshalHandshake(Forwarded(modifier, req, env)), SecondPacket(req));
    }
  }

  // ------------------------------------------------- what decisions mean

  /** The cached status is older than its cooldown. */
  predicate Stale(c: CacheView, env: Env) {
    c.CachingView? && Since(env.now, c.s.cacheTime) >= c.cooldown
  }

  /** The request gets past the server state and the status cache. */
  predicate ReachesLimiter(v: View, req: Request, env: Env) {
    && (req.kind.UnknownState? || !AgentState(v.agent, env).1.Offline?)
    && !(req.kind.Status? && v.cache.CachingView?)
  }

  /** Who is asked, what changes, and which answer comes of it. A request is proxied exactly if it
      reaches the limiter and the limiter lets it through; what does not reach it does not count
      against it; offline servers answer with what is configured for that, a cached status with
      the cached packet or, if the server cannot be asked, the offline one. */
  lemma {:induction false} DecidedExactly(v: View, req: Request, env: Env)
    ensures var (v', ans) := Decide(v, req, env);
      var offline := AgentState(v.agent, env).1.Offline?;
      && (ans.ProxyAnswer? <==> ReachesLimiter(v, req, env) && LimiterAllows(v.limiter, req, env).1)
      && (ans.NoAnswer? <==> ReachesLimiter(v, req, env) && !LimiterAllows(v.limiter, req, env).1)
      && v'.limiter == (if ReachesLimiter(v, req, env) then LimiterAllows(v.limiter, req, env).0 else v.limiter)
      && (ans.DisconnectAnswer? <==> offline && req.kind.Login?)
      && (ans.DisconnectAnswer? ==> ans.pk == v.disconnect)
      && (ans.StatusAnswer? <==> req.kind.Status? && (offline || v.cache.CachingView?))
      && (ans.StatusAnswer? && (offline || (Stale(v.cache, env) && env.fetch.Failed?)) ==> ans.pk == v.offlineStatus)
      && (ans.StatusAnswer? && !offline && Stale(v.cache, env) && !env.fetch.Failed? ==> ans.pk == env.fetch.pk)
      && (ans.StatusAnswer? && !offline && !Stale(v.cache, env) ==> ans.pk == v.cache.s.status)
      && v'.cache == (if req.kind.Status? && !offline && Stale(v.cache, env) && !env.fetch.Failed?
                      then CachingView(v.cache.cooldown, Caches.StatusState(env.fetch.pk, At(env.done))) else v.cache)
      && v'.modifier == v.modifier && v'.offlineStatus == v.offlineStatus && v'.disconnect == v.disconnect
  {
  }

  /** Whose numbers fit the fields of a handshake, in a packet that fits a length prefix. */
  predicate Readable(hs: Handshake, first: Packet) {
    && -0x8000_0000 <= hs.protocolVersion < 0x8000_0000 && -0x8000 <= hs.serverPort < 0x8000
    && 1 + |first.data| < 0x8000_0000
  }

  /** The address a server sees: the one asked for, but with RealIP 2.4 and no "///" in it already,
      its host, the client's address and the time between separators, and the first forge tag. */
  ghost predicate SeenAs(realIP: bool, asked: Str, client: Str, stamp: int, seen: Str) {
    var separator, parts := [SLASH, SLASH, SLASH], Split(asked, [NUL]);
    if !realIP || exists q :: OccursAt(asked, separator, q) then seen == asked
    else
      seen == parts[0] + (separator + client) + (separator + FormatInt(stamp)) +
        if |parts| > 1 then [NUL] + parts[1] + [NUL] else []
  }

  lemma {:induction false} UpgradedIsSeen(asked: Str, client: Str, stamp: int)
    ensures SeenAs(true, asked, client, stamp, RealIp.Upgrade(asked, client, stamp))
  {
    RealIp.RealIPIffSeparator(asked);
    if !RealIp.IsRealIPAddress(asked) {
      var forge := RealIp.UpgradeSplits(asked, client, stamp);
      var host, sep, parts := RealIp.Host(asked), [SLASH, SLASH, SLASH], Split(asked, [NUL]);
      assert host + sep + (client + (sep + FormatInt(stamp))) == host + (sep + client) + (sep + FormatInt(stamp));
      assert |parts| > 1 ==> forge == [NUL] + parts[1] + [NUL];
    }
  }

  lemma {:induction false} ForwardedRead(v: View, req: Request, env: Env)
    requires Decide(v, req, env).1.ProxyAnswer? && Readable(req.handshake, Decide(v, req, env).1.first)
    ensures var first := Decide(v, req, env).1.first;
      Unmarshal(first, true) == Ok(Forwarded(v.modifier, req, env), |first.data|)
  {
    HandshakeRoundTrip(Forwarded(v.modifier, req, env), []);
  }

  /** The server reads from the first packet the client's own version, port and state, and the
      address as it has to see it. Its host is the one the client asked for exactly unless RealIP
      rewrote a host that ends in '/'. */
  lemma {:induction false} ForwardedHandshakeExact(v: View, req: Request, env: Env)
    requires Decide(v, req, env).1.ProxyAnswer? && Readable(req.handshake, Decide(v, req, env).1.first)
    ensures var r := Unmarshal(Decide(v, req, env).1.first, true);
      && r.Ok?
      && r.value.protocolVersion == req.handshake.protocolVersion
      && r.value.serverPort == req.handshake.serverPort && r.value.nextState == req.handshake.nextState
      && SeenAs(v.modifier.RealIP24?, req.handshake.serverAddress, req.addr, env.stamp, r.value.serverAddress)
      && (RealIp.ParseServerAddress(r.value.serverAddress) == RealIp.ParseServerAddress(req.handshake.serverAddress)
          <==> || v.modifier.NoModifier?
               || RealIp.IsRealIPAddress(req.handshake.serverAddress)
               || !RealIp.EndsInSlash(RealIp.Host(req.handshake.serverAddress)))
  {
    ForwardedRead(v, req, env);
    RealIp.UpgradeKeepsHostExact(req.handshake.serverAddress, req.addr, env.stamp);
    UpgradedIsSeen(req.handshake.serverAddress, req.addr, env.stamp);
  }

  /** What is in a rewritten address, split at NUL, for a client address without one. */
  lemma {:induction false} SeenParts(asked: Str, client: Str, stamp: int, seen: Str)
    requires SeenAs(true, asked, client, stamp, seen) && NUL !in client
    requires forall q :: !OccursAt(asked, [SLASH, SLASH, SLASH], q)
    ensures var parts := Split(asked, [NUL]);
      var front := parts[0] + [SLASH, SLASH, SLASH] + client + [SLASH, SLASH, SLASH] + FormatInt(stamp);
      Split(seen, [NUL]) == if |parts| > 1 then [front, parts[1], []] else [front]
  {
    UpgradedIsSeen(asked, client, stamp);
    RealIp.RealIPIffSeparator(asked);
    RealIp.UpgradedParts(asked, client, stamp);
    var host, sep := RealIp.Host(asked), [SLASH, SLASH, SLASH];
    assert (host + sep) + (client + (sep + FormatInt(stamp))) == host + sep + client + sep + FormatInt(stamp);
  }

  /** And for a login it reads the user's name from the second packet. */
  lemma {:induction false} ForwardedLogin(v: View, req: Request, env: Env)
    requires Decide(v, req, env).1.ProxyAnswer? && req.kind.Login? && |req.username| < 0x8000_0000
    ensures var pk := Decide(v, req, env).1.second;
      pk.id == 0
      && ScanFields(pk.data, [StringField], true) == Ok([StringValue(req.username)], |pk.data|)
  {
    var vs := [StringValue(req.username)];
    ScanOfMarshal(vs, [], true);
    assert EncodeFields(vs) + [] == EncodeFields(vs);
    assert KindsOf(vs) == [StringField];
  }

  /** The same for every configuration of the modules that need no state. */
  lemma {:induction false} AnswerByConfiguration(v: View, req: Request, env: Env)
    ensures var ans := Decide(v, req, env).1;
      && (v.agent.OfflineView? && req.kind.Status? ==> ans == StatusAnswer(v.offlineStatus))
      && (v.agent.OfflineView? && req.kind.Login? ==> ans == DisconnectAnswer(v.disconnect))
      && (v.agent.OnlineView? || v.agent.NoAgentView? ==> !ans.DisconnectAnswer?)
      && ((v.agent.OnlineView? || v.agent.NoAgentView?) && v.cache.NoCacheView? ==> !ans.StatusAnswer?)
      && ((v.agent.OnlineView? || v.agent.NoAgentView?) && (v.limiter.AllowView? || v.limiter.NoLimiterView?) ==>
            (ans.ProxyAnswer? <==> !(req.kind.Status? && v.cache.CachingView?)))
      && (v.limiter.AllowView? || v.limiter.NoLimiterView? ==> !ans.NoAnswer?)
      && (v.limiter.AbsView? && !v.limiter.q.limitStatus ==> !ans.NoAnswer?)
      && (v.limiter.BotView? && req.kind.Status? ==> !ans.NoAnswer?)
  {
  }

  /** A proxied status request is sent on as an empty packet, which is a status request; a request of
      unknown type as the zero packet. */
  lemma {:induction false} ForwardedOther(v: View, req: Request, env: Env)
    requires Decide(v, req, env).1.ProxyAnswer? && !req.kind.Login?
    ensures Decide(v, req, env).1.second == Packet(0, [])
  {
  }
}
