/** The two limiters that decide whether a connection may go on to the backend. */
module ConnLimiter {
  import opened Clock
  import opened GoStrings
  import opened WindowBound

  /** `isStatus` is the request type being Status; `ip` is the filtered remote address. */
  datatype Request = Request(isStatus: bool, ip: Str, username: Str)

  /** The parameters by the names of the constructor. A duration is at most MAX_DURATION. */
  datatype Params = Params(rateLimit: int, rateCooldown: int, listClearTime: int, unverifyCooldown: int)
  {
    predicate Valid() {
      rateCooldown <= MAX_DURATION && listClearTime <= MAX_DURATION && unverifyCooldown <= MAX_DURATION
    }
  }

  datatype BotState = BotState(
    limiting: bool,
    rateCounter: int,
    rateStartTime: Time,
    lastTimeAboveLimit: Time,
    blackList: map<Str, Time>,
    namesList: map<Str, Str>)

  function NewBotState(created: int): BotState {
    BotState(false, 0, Zero, At(created), map[], map[])
  }

  /** The window part of a login: a new one starts when the cooldown is over. */
  function Roll(p: Params, s: BotState, now: int): BotState {
    if Since(now, s.rateStartTime) >= p.rateCooldown then
      var last := if s.rateCounter > p.rateLimit then s.rateStartTime else s.lastTimeAboveLimit;
      BotState(
        s.limiting && Since(now, last) < p.unverifyCooldown,
        0, At(now), last, s.blackList, s.namesList)
    else s
  }

  predicate Banned(p: Params, s: BotState, ip: Str, now: int) {
    ip in s.blackList && Since(now, s.blackList[ip]) < p.listClearTime
  }

  /** One call, and whether it is let through. */
  function BotAllow(p: Params, s: BotState, req: Request, now: int): (BotState, bool) {
    if req.isStatus then (s, true)
    else
      var r := Roll(p, s, now);
      var c := r.(rateCounter := r.rateCounter + 1);
      if Banned(p, c, req.ip, now) then (c, false)
      else
        var u := c.(blackList := c.blackList - {req.ip}, limiting := c.limiting || c.rateCounter > p.rateLimit);
        if !u.limiting then (u, true)
        else if req.ip !in u.namesList then (u.(namesList := u.namesList[req.ip := req.username]), false)
        else if u.namesList[req.ip] != req.username then (u.(blackList := u.blackList[req.ip := At(now)]), false)
        else (u, true)
  }

  class BotFilterConnLimiter {
    var limiting: bool
    const p: Params
    var rateCounter: int
    var rateStartTime: Time
    var lastTimeAboveLimit: Time
    var blackList: map<Str, Time>
    var namesList: map<Str, Str>

    function State(): BotState
      reads this
    {
      BotState(limiting, rateCounter, rateStartTime, lastTimeAboveLimit, blackList, namesList)
    }

    constructor (p: Params, now: int)
      ensures State() == NewBotState(now) && this.p == p
    {
      this.p := p;
      limiting, rateCounter, rateStartTime, lastTimeAboveLimit := false, 0, Zero, At(now);
      blackList, namesList := map[], map[];
    }

    /** Blocked times are looked up with a default of the zero time, as Go maps do. */
    method Allow(req: Request, now: int) returns (allowed: bool)
      requires p.Valid()
      modifies this
      ensures (State(), allowed) == BotAllow(p, old(State()), req, now)
    {
      if req.isStatus {
        return true;
      }
      if Since(now, rateStartTime) >= p.rateCooldown {
        if rateCounter > p.rateLimit {
          lastTimeAboveLimit := rateStartTime;
        }
        if limiting && Since(now, lastTimeAboveLimit) >= p.unverifyCooldown {
          limiting := false;
        }
        rateCounter := 0;
        rateStartTime := At(now);
      }
      assert State() == Roll(p, old(State()), now);
      rateCounter := rateCounter + 1;
      var ok := req.ip in blackList;
      var blockTime := if ok then blackList[req.ip] else Zero;
      if Since(now, blockTime) >= p.listClearTime {
        blackList := blackList - {req.ip};
      } else if ok {
        return false;
      }
      limiting := limiting || rateCounter > p.rateLimit;
      if limiting {
        if req.ip !in namesList {
          namesList := namesList[req.ip := req.username];
          return false;
        }
        if namesList[req.ip] != req.username {
          blackList := blackList[req.ip := At(now)];
          return false;
        }
      }
      return true;
    }
  }

  // ------------------------------------------------- runs

  datatype Call = Call(req: Request, now: int)

  function StateAfter(p: Params, created: int, run: seq<Call>, n: nat): BotState
    requires n <= |run|
  {
    if n == 0 then NewBotState(created)
    else BotAllow(p, StateAfter(p, created, run, n - 1), run[n - 1].req, run[n - 1].now).0
  }

  predicate Admitted(p: Params, created: int, run: seq<Call>, i: nat)
    requires i < |run|
  {
    BotAllow(p, StateAfter(p, created, run, i), run[i].req, run[i].now).1
  }

  /** Call `i` is a login. */
  predicate Login(run: seq<Call>, i: nat)
    requires i < |run|
  {
    !run[i].req.isStatus
  }

  /** A login let through with limiting off, or with limiting on. */
  predicate AdmittedFreely(p: Params, created: int, run: seq<Call>, i: nat)
    requires i < |run|
  {
    Login(run, i) && Admitted(p, created, run, i) && !StateAfter(p, created, run, i + 1).limiting
  }

  predicate AdmittedVerified(p: Params, created: int, run: seq<Call>, i: nat)
    requires i < |run|
  {
    Login(run, i) && Admitted(p, created, run, i) && StateAfter(p, created, run, i + 1).limiting
  }

  ghost predicate InOrder(created: int, run: seq<Call>) {
    && (forall i :: 0 <= i < |run| ==> created <= run[i].now)
    && (forall i, j :: 0 <= i < j < |run| ==> run[i].now <= run[j].now)
  }

  // ------------------------------------------------- the window bound

  function WindowOf(s: BotState): Window {
    if s.rateStartTime.Zero? then NoWindow else Window(s.rateStartTime.t, s.rateCounter)
  }

  ghost function Trace(p: Params, created: int, run: seq<Call>): (tr: seq<Entry>)
    ensures |tr| == |run|
  {
    seq(|run|, i requires 0 <= i < |run| =>
      Entry(run[i].now, Login(run, i), AdmittedFreely(p, created, run, i),
            WindowOf(StateAfter(p, created, run, i + 1))))
  }

  lemma {:induction false} BotFollows(p: Params, s: BotState, req: Request, now: int)
    requires p.Valid() && p.rateCooldown > 0
    ensures var (s', ok) := BotAllow(p, s, req, now);
      Follows(WindowOf(s), Entry(now, !req.isStatus, !req.isStatus && ok && !s'.limiting, WindowOf(s')),
              p.rateCooldown, p.rateLimit)
  {
  }

  lemma {:induction false} TraceWindowed(p: Params, created: int, run: seq<Call>)
    requires p.Valid() && p.rateCooldown > 0 && InOrder(created, run)
    ensures Windowed(Trace(p, created, run), p.rateCooldown, p.rateLimit)
  {
    var tr := Trace(p, created, run);
    forall i | 0 <= i < |run| ensures FitsAt(tr, i, p.rateCooldown, p.rateLimit) {
      BotFollows(p, StateAfter(p, created, run, i), run[i].req, run[i].now);
      assert WindowAt(tr, i) == WindowOf(StateAfter(p, created, run, i));
      assert i > 0 ==> run[i - 1].now <= run[i].now;
    }
  }

  /** How many of the first `n` calls are logins let through freely at a time in [a, b]. */
  function FreeAdmissions(p: Params, created: int, run: seq<Call>, n: nat, a: int, b: int): nat
    requires n <= |run|
  {
    if n == 0 then 0
    else
      FreeAdmissions(p, created, run, n - 1, a, b) +
      if AdmittedFreely(p, created, run, n - 1) && a <= run[n - 1].now <= b then 1 else 0
  }

  lemma {:induction false} FreeIsCounted(p: Params, created: int, run: seq<Call>, n: nat, a: int, b: int)
    requires n <= |run|
    ensures FreeAdmissions(p, created, run, n, a, b) == Counted(Trace(p, created, run), n, a, b)
  {
    if n > 0 {
      FreeIsCounted(p, created, run, n - 1, a, b);
    }
  }

  /** Over every run, in every interval of length `length`, the logins let through while not
      limiting are at most the rate limit times one more than the cooldowns in the interval. */
  lemma {:induction false} SlidingWindow(p: Params, created: int, run: seq<Call>, a: int, length: nat)
    requires p.Valid() && p.rateCooldown > 0 && p.rateLimit >= 0 && InOrder(created, run)
    ensures FreeAdmissions(p, created, run, |run|, a, a + length)
         <= p.rateLimit * (CeilDiv(length, p.rateCooldown) + 1)
  {
    TraceWindowed(p, created, run);
    FreeIsCounted(p, created, run, |run|, a, a + length);
    SlidingBound(Trace(p, created, run), a, length, p.rateCooldown, p.rateLimit);
  }

  // ------------------------------------------------- nobody else is turned away

  /** How many of the first `n` calls are logins at time `a` or later. */
  function LoginsSince(run: seq<Call>, n: nat, a: int): nat
    requires n <= |run|
  {
    if n == 0 then 0
    else LoginsSince(run, n - 1, a) + if Login(run, n - 1) && a <= run[n - 1].now then 1 else 0
  }

  lemma {:induction false} LoginsSinceMonotone(run: seq<Call>, n: nat, a: int, b: int)
    requires n <= |run| && a <= b
    ensures LoginsSince(run, n, b) <= LoginsSince(run, n, a)
  {
    if n > 0 {
      LoginsSinceMonotone(run, n - 1, a, b);
    }
  }

  /** At no login do the logins of the last cooldown, itself included, exceed the limit. */
  ghost predicate Calm(p: Params, run: seq<Call>) {
    forall i :: 0 <= i < |run| && Login(run, i) ==>
      LoginsSince(run, i + 1, run[i].now - p.rateCooldown + 1) <= p.rateLimit
  }

  /** Nothing is held against anyone, and the counter counts logins of the current window. */
  ghost predicate Quiet(s: BotState, run: seq<Call>, n: nat)
    requires n <= |run|
  {
    && !s.limiting && s.blackList == map[] && s.namesList == map[]
    && (s.rateStartTime.At? ==>
          n > 0 && s.rateStartTime.t <= run[n - 1].now && s.rateCounter <= LoginsSince(run, n, s.rateStartTime.t))
    && (s.rateStartTime.Zero? ==> s.rateCounter == 0)
  }

  lemma {:induction false} StaysQuiet(p: Params, created: int, run: seq<Call>, n: nat)
    requires p.Valid() && p.rateCooldown > 0 && InOrder(created, run) && Calm(p, run) && n <= |run|
    ensures Quiet(StateAfter(p, created, run, n), run, n)
    ensures n < |run| ==> Admitted(p, created, run, n)
  {
    if n > 0 {
      StaysQuiet(p, created, run, n - 1);
      QuietCall(p, StateAfter(p, created, run, n - 1), run, n - 1);
    }
    if n < |run| {
      QuietCall(p, StateAfter(p, created, run, n), run, n);
    }
  }

  lemma {:induction false} QuietCall(p: Params, s: BotState, run: seq<Call>, n: nat)
    requires p.Valid() && p.rateCooldown > 0 && Calm(p, run) && n < |run| && Quiet(s, run, n)
    requires n > 0 ==> run[n - 1].now <= run[n].now
    ensures var (s', ok) := BotAllow(p, s, run[n].req, run[n].now); ok && Quiet(s', run, n + 1)
  {
    var now := run[n].now;
    if Login(run, n) {
      var recent := now - p.rateCooldown + 1;
      assert LoginsSince(run, n + 1, recent) <= p.rateLimit;
      if s.rateStartTime.At? && recent <= s.rateStartTime.t {
        LoginsSinceMonotone(run, n + 1, recent, s.rateStartTime.t);
      }
    }
  }

  /** A run in which no cooldown sees more logins than the limit is let through entirely. */
  lemma {:induction false} CalmRunAdmitted(p: Params, created: int, run: seq<Call>)
    requires p.Valid() && p.rateCooldown > 0 && InOrder(created, run) && Calm(p, run)
    ensures forall i :: 0 <= i < |run| ==> Admitted(p, created, run, i)
  {
    forall i | 0 <= i < |run| ensures Admitted(p, created, run, i) {
      StaysQuiet(p, created, run, i);
    }
  }

  // ------------------------------------------------- limiting is sticky

  /** Limiting, and for the sake of a window that started at `s` or later: the current one is
      above the limit, or the last one above it started at `s` or later. */
  ghost predicate LimitingSince(p: Params, s: BotState, start: int) {
    && s.limiting
    && s.rateStartTime.At?
    && ((s.rateCounter > p.rateLimit && s.rateStartTime.t >= start)
        || (s.lastTimeAboveLimit.At? && s.lastTimeAboveLimit.t >= start && s.rateStartTime.t >= start))
  }

  lemma {:induction false} LimitingKept(p: Params, s: BotState, start: int, req: Request, now: int)
    requires p.Valid() && LimitingSince(p, s, start) && now >= s.rateStartTime.t
    requires now < start + p.unverifyCooldown
    ensures LimitingSince(p, BotAllow(p, s, req, now).0, start)
    ensures var s' := BotAllow(p, s, req, now).0; s'.rateStartTime.t <= now
  {
  }

  lemma {:induction false} WindowStarted(p: Params, created: int, run: seq<Call>, n: nat)
    requires 0 < n <= |run| && InOrder(created, run)
    ensures var s := StateAfter(p, created, run, n); s.rateStartTime.At? ==> s.rateStartTime.t <= run[n - 1].now
  {
    if n > 1 {
      WindowStarted(p, created, run, n - 1);
      assert run[n - 2].now <= run[n - 1].now;
    }
  }

  /** If a login turns limiting on in a window that started at `s`, limiting is on after every
      later call before `s` plus the unverify cooldown. */
  lemma {:induction false} LimitingSticky(p: Params, created: int, run: seq<Call>, i: nat, j: nat)
    requires p.Valid() && InOrder(created, run) && i <= j < |run|
    requires !StateAfter(p, created, run, i).limiting && StateAfter(p, created, run, i + 1).limiting
    ensures StateAfter(p, created, run, i + 1).rateStartTime.At?
    ensures var start := StateAfter(p, created, run, i + 1).rateStartTime.t;
      run[j].now < start + p.unverifyCooldown ==> LimitingSince(p, StateAfter(p, created, run, j + 1), start)
  {
    var s := StateAfter(p, created, run, i);
    TurnsOn(p, s, run[i].req, run[i].now);
    var start := StateAfter(p, created, run, i + 1).rateStartTime.t;
    if j > i && run[j].now < start + p.unverifyCooldown {
      assert run[j - 1].now <= run[j].now;
      LimitingSticky(p, created, run, i, j - 1);
      WindowStarted(p, created, run, j);
      LimitingKept(p, StateAfter(p, created, run, j), start, run[j].req, run[j].now);
    }
  }

  lemma {:induction false} TurnsOn(p: Params, s: BotState, req: Request, now: int)
    requires p.Valid() && !s.limiting && BotAllow(p, s, req, now).0.limiting
    ensures var s' := BotAllow(p, s, req, now).0;
      s'.rateStartTime.At? && LimitingSince(p, s', s'.rateStartTime.t)
  {
  }

  // ------------------------------------------------- verification by reconnecting

  /** The table of names is write-once, and a name in it was denied when it was written. */
  lemma {:induction false} NamesKept(p: Params, s: BotState, req: Request, now: int, ip: Str)
    ensures var (s', ok) := BotAllow(p, s, req, now);
      && (ip in s.namesList ==> ip in s'.namesList && s'.namesList[ip] == s.namesList[ip])
      && (ip !in s.namesList && ip in s'.namesList ==>
            !req.isStatus && !ok && req.ip == ip && req.username == s'.namesList[ip])
  {
  }

  lemma {:induction false} NameWasDenied(p: Params, created: int, run: seq<Call>, n: nat, ip: Str) returns (k: nat)
    requires n <= |run| && ip in StateAfter(p, created, run, n).namesList
    ensures k < n && Login(run, k) && !Admitted(p, created, run, k)
    ensures run[k].req.ip == ip && run[k].req.username == StateAfter(p, created, run, n).namesList[ip]
  {
    NamesKept(p, StateAfter(p, created, run, n - 1), run[n - 1].req, run[n - 1].now, ip);
    if ip in StateAfter(p, created, run, n - 1).namesList {
      k := NameWasDenied(p, created, run, n - 1, ip);
    } else {
      k := n - 1;
    }
  }

  lemma {:induction false} NamesForever(p: Params, created: int, run: seq<Call>, m: nat, n: nat, ip: Str)
    requires m <= n <= |run| && ip in StateAfter(p, created, run, m).namesList
    ensures ip in StateAfter(p, created, run, n).namesList
    ensures StateAfter(p, created, run, n).namesList[ip] == StateAfter(p, created, run, m).namesList[ip]
  {
    if m < n {
      NamesForever(p, created, run, m, n - 1, ip);
      NamesKept(p, StateAfter(p, created, run, n - 1), run[n - 1].req, run[n - 1].now, ip);
    }
  }

  /** Whoever is let through while limiting was denied before, from the same address and
      under the same name. */
  lemma {:induction false} VerifiedByReconnect(p: Params, created: int, run: seq<Call>, j: nat) returns (k: nat)
    requires j < |run| && AdmittedVerified(p, created, run, j)
    ensures k < j && Login(run, k) && !Admitted(p, created, run, k)
    ensures run[k].req.ip == run[j].req.ip && run[k].req.username == run[j].req.username
  {
    k := NameWasDenied(p, created, run, j, run[j].req.ip);
  }

  /** From one address at most one name is ever let through while limiting. */
  lemma {:induction false} OneNamePerAddress(p: Params, created: int, run: seq<Call>, i: nat, j: nat)
    requires i <= j < |run| && AdmittedVerified(p, created, run, i) && AdmittedVerified(p, created, run, j)
    requires run[i].req.ip == run[j].req.ip
    ensures run[i].req.username == run[j].req.username
  {
    NamesForever(p, created, run, i, j, run[i].req.ip);
  }

  // ------------------------------------------------- bans

  /** A login that is denied under a name other than the recorded one. */
  predicate WrongName(p: Params, created: int, run: seq<Call>, i: nat)
    requires i < |run|
  {
    && Login(run, i) && !Admitted(p, created, run, i)
    && run[i].req.ip in StateAfter(p, created, run, i).namesList
    && run[i].req.username != StateAfter(p, created, run, i).namesList[run[i].req.ip]
    && !Banned(p, StateAfter(p, created, run, i), run[i].req.ip, run[i].now)
  }

  lemma {:induction false} BanKept(p: Params, s: BotState, req: Request, now: int, ip: Str, t: int)
    requires p.Valid() && ip in s.blackList && s.blackList[ip] == At(t) && now - t < p.listClearTime
    ensures var (s', ok) := BotAllow(p, s, req, now);
      && ip in s'.blackList && s'.blackList[ip] == At(t)
      && (!req.isStatus && req.ip == ip ==> !ok)
  {
  }

  lemma {:induction false} StaysBanned(p: Params, created: int, run: seq<Call>, i: nat, n: nat)
    requires p.Valid() && InOrder(created, run) && i < n <= |run| && WrongName(p, created, run, i)
    requires n > i + 1 ==> run[n - 1].now < run[i].now + p.listClearTime
    ensures var s := StateAfter(p, created, run, n);
      run[i].req.ip in s.blackList && s.blackList[run[i].req.ip] == At(run[i].now)
  {
    if n > i + 1 {
      assert run[n - 2].now <= run[n - 1].now;
      StaysBanned(p, created, run, i, n - 1);
      BanKept(p, StateAfter(p, created, run, n - 1), run[n - 1].req, run[n - 1].now, run[i].req.ip, run[i].now);
    }
  }

  /** A wrong name bans the address: every login from it within the list clear time is denied. */
  lemma {:induction false} WrongNameBans(p: Params, created: int, run: seq<Call>, i: nat, j: nat)
    requires p.Valid() && InOrder(created, run) && i < j < |run| && WrongName(p, created, run, i)
    requires Login(run, j) && run[j].req.ip == run[i].req.ip && run[j].now < run[i].now + p.listClearTime
    ensures !Admitted(p, created, run, j)
  {
    assert j > i + 1 ==> run[j - 1].now <= run[j].now;
    StaysBanned(p, created, run, i, j);
    BanKept(p, StateAfter(p, created, run, j), run[j].req, run[j].now, run[i].req.ip, run[i].now);
  }

  /** The limiter a backend gets from its config. The call hands the unverify duration, ten
      windows, and the configured ban list cooldown over in the opposite order of the
      constructor's parameters. */
  function ParamsFromConfig(rateLimit: int, rateLimitDuration: int, rateBanListCooldown: int): Params {
    Params(rateLimit, rateLimitDuration, 10 * rateLimitDuration, rateBanListCooldown)
  }

  /** So a ban lasts ten windows whatever ban list cooldown is configured: from the wrong name
      until then, whatever else happens, the address is banned at `now` exactly until ten windows
      have passed since. */
  lemma {:induction false} BanLastsTenWindows(
    limit: int, duration: int, banCooldown: int, created: int, run: seq<Call>, i: nat, n: nat, now: int)
    requires ParamsFromConfig(limit, duration, banCooldown).Valid()
    requires i < n <= |run| && WrongName(ParamsFromConfig(limit, duration, banCooldown), created, run, i)
    requires n > i + 1 ==> InOrder(created, run) && run[n - 1].now < run[i].now + 10 * duration
    ensures var p := ParamsFromConfig(limit, duration, banCooldown);
      Banned(p, StateAfter(p, created, run, n), run[i].req.ip, now) <==> now - run[i].now < 10 * duration
  {
    if n > i + 1 {
      StaysBanned(ParamsFromConfig(limit, duration, banCooldown), created, run, i, n);
    }
  }

  /** At every time from `t` on the address is banned exactly for `length` after `t`. */
  ghost predicate BannedFor(p: Params, s: BotState, ip: Str, t: int, length: int) {
    forall now :: now >= t ==> (Banned(p, s, ip, now) <==> now - t < length)
  }

  /** The ban is the configured one exactly if that is ten windows long. */
  lemma {:induction false} BanAsConfiguredExact(
    limit: int, duration: int, banCooldown: int, created: int, run: seq<Call>, i: nat)
    requires ParamsFromConfig(limit, duration, banCooldown).Valid() && duration > 0
    requires i < |run| && WrongName(ParamsFromConfig(limit, duration, banCooldown), created, run, i)
    ensures var p := ParamsFromConfig(limit, duration, banCooldown);
      BannedFor(p, StateAfter(p, created, run, i + 1), run[i].req.ip, run[i].now, banCooldown)
      <==> banCooldown == 10 * duration
  {
    var p := ParamsFromConfig(limit, duration, banCooldown);
    var s, ip, t := StateAfter(p, created, run, i + 1), run[i].req.ip, run[i].now;
    forall now ensures Banned(p, s, ip, now) <==> now - t < 10 * duration {
      BanLastsTenWindows(limit, duration, banCooldown, created, run, i, i + 1, now);
    }
    if banCooldown < 10 * duration {
      var now := if banCooldown < 0 then t else t + banCooldown;
      assert Banned(p, s, ip, now) && now - t >= banCooldown;
    } else if banCooldown > 10 * duration {
      var now := t + 10 * duration;
      assert !Banned(p, s, ip, now) && now - t < banCooldown;
    } else {
      assert forall now :: Banned(p, s, ip, now) <==> now - t < banCooldown;
    }
  }

  /** Call `i` turns limiting on. */
  predicate TurnsLimitingOn(p: Params, created: int, run: seq<Call>, i: nat)
    requires i < |run|
  {
    !StateAfter(p, created, run, i).limiting && StateAfter(p, created, run, i + 1).limiting
  }

  /** Whether the limiter is limiting when it has judged a login that comes next, at `now`. */
  predicate LimitingNext(p: Params, created: int, run: seq<Call>, i: nat, req: Request, now: int)
    requires i < |run|
  {
    BotAllow(p, StateAfter(p, created, run, i + 1), req, now).0.limiting
  }

  /** The twin of the ban: a login that comes next finds limiting on for the rest of the window
      and for the configured ban list cooldown, not for ten windows. */
  lemma {:induction false} LimitingLastsBanCooldown(
    limit: int, duration: int, banCooldown: int, created: int, run: seq<Call>, i: nat, req: Request, now: int)
    requires ParamsFromConfig(limit, duration, banCooldown).Valid() && limit > 0 && duration > 0
    requires i < |run| && TurnsLimitingOn(ParamsFromConfig(limit, duration, banCooldown), created, run, i)
    requires !req.isStatus
    ensures var p := ParamsFromConfig(limit, duration, banCooldown);
      var s := StateAfter(p, created, run, i + 1);
      && s.rateStartTime.At? && (s.rateStartTime.t == run[i].now || run[i].now - s.rateStartTime.t < duration)
      && (LimitingNext(p, created, run, i, req, now) <==>
          now - s.rateStartTime.t < duration || now - s.rateStartTime.t < banCooldown)
  {
    var p := ParamsFromConfig(limit, duration, banCooldown);
    JustTurnedOn(p, StateAfter(p, created, run, i), run[i].req, run[i].now);
    NextAfterOn(p, StateAfter(p, created, run, i + 1), req, now);
  }

  lemma {:induction false} JustTurnedOn(p: Params, s: BotState, req: Request, now: int)
    requires p.Valid() && !s.limiting && BotAllow(p, s, req, now).0.limiting
    ensures var s' := BotAllow(p, s, req, now).0;
      && s'.rateStartTime.At? && s'.rateCounter > p.rateLimit
      && (s'.rateStartTime.t == now || now - s'.rateStartTime.t < p.rateCooldown)
  {
  }

  lemma {:induction false} NextAfterOn(p: Params, s: BotState, req: Request, now: int)
    requires p.Valid() && p.rateLimit > 0 && !req.isStatus
    requires s.limiting && s.rateCounter > p.rateLimit && s.rateStartTime.At?
    ensures BotAllow(p, s, req, now).0.limiting <==>
            now - s.rateStartTime.t < p.rateCooldown || now - s.rateStartTime.t < p.unverifyCooldown
  {
  }

  /** It is the ten windows that the code computes for it exactly if those are what is
      configured for bans. */
  lemma {:induction false} LimitingAsComputedExact(
    limit: int, duration: int, banCooldown: int, created: int, run: seq<Call>, i: nat, req: Request)
    requires ParamsFromConfig(limit, duration, banCooldown).Valid() && limit > 0 && duration > 0
    requires i < |run| && TurnsLimitingOn(ParamsFromConfig(limit, duration, banCooldown), created, run, i)
    requires !req.isStatus
    ensures var p := ParamsFromConfig(limit, duration, banCooldown);
      var start := StateAfter(p, created, run, i + 1).rateStartTime;
      start.At? &&
      ((forall now :: now >= run[i].now ==>
          (LimitingNext(p, created, run, i, req, now) <==> now - start.t < 10 * duration))
       <==> banCooldown == 10 * duration)
  {
    var p := ParamsFromConfig(limit, duration, banCooldown);
    LimitingLastsBanCooldown(limit, duration, banCooldown, created, run, i, req, 0);
    var t := StateAfter(p, created, run, i + 1).rateStartTime.t;
    forall now ensures LimitingNext(p, created, run, i, req, now) <==> now - t < duration || now - t < banCooldown {
      LimitingLastsBanCooldown(limit, duration, banCooldown, created, run, i, req, now);
    }
    if banCooldown < 10 * duration {
      var now := if banCooldown < duration then t + duration else t + banCooldown;
      assert !LimitingNext(p, created, run, i, req, now);
    } else if banCooldown > 10 * duration {
      assert LimitingNext(p, created, run, i, req, t + 10 * duration);
    }
  }

  // ------------------------------------------------- such a run, for every config

  /** As many logins under one name as the limit and one more, then one under another name, all
      at the same moment. */
  function Flood(limit: nat, ip: Str, name: Str, other: Str): seq<Call> {
    seq(limit + 1, _ => Call(Request(false, ip, name), 0)) + [Call(Request(false, ip, other), 0)]
  }

  lemma {:induction false} FloodCounts(p: Params, ip: Str, name: Str, other: Str, n: nat)
    requires p.Valid() && p.rateCooldown > 0 && p.rateLimit > 0 && n <= p.rateLimit
    ensures StateAfter(p, 0, Flood(p.rateLimit, ip, name, other), n)
         == BotState(false, n, if n == 0 then Zero else At(0), At(0), map[], map[])
  {
    if n > 0 {
      FloodCounts(p, ip, name, other, n - 1);
    }
  }

  /** Whatever is configured: the login above the limit turns limiting on, and the other name
      right after it is a wrong name. */
  lemma {:induction false} FloodBans(limit: nat, duration: int, banCooldown: int, ip: Str, name: Str, other: Str)
    requires ParamsFromConfig(limit, duration, banCooldown).Valid() && limit > 0 && duration > 0 && name != other
    ensures var p, run := ParamsFromConfig(limit, duration, banCooldown), Flood(limit, ip, name, other);
      && InOrder(0, run) && TurnsLimitingOn(p, 0, run, limit) && WrongName(p, 0, run, limit + 1)
  {
    var p, run := ParamsFromConfig(limit, duration, banCooldown), Flood(limit, ip, name, other);
    FloodCounts(p, ip, name, other, limit);
    FloodTurns(p, StateAfter(p, 0, run, limit), ip, name, other);
  }

  lemma {:induction false} FloodTurns(p: Params, s: BotState, ip: Str, name: Str, other: Str)
    requires p.Valid() && p.rateCooldown > 0 && p.rateLimit > 0 && name != other
    requires s == BotState(false, p.rateLimit, At(0), At(0), map[], map[])
    ensures var s' := BotAllow(p, s, Request(false, ip, name), 0).0;
      && s' == BotState(true, p.rateLimit + 1, At(0), At(0), map[], map[ip := name])
      && !BotAllow(p, s', Request(false, ip, other), 0).1
  {
  }

  const SECOND := 1_000_000_000

  /** As shipped, with windows of a second and a ban list cooldown of five minutes: ten seconds
      after a wrong name the address is free again. */
  lemma {:induction false} DefaultBanTooShort(ip: Str, name: Str, other: Str)
    requires name != other
    ensures var p, run := ParamsFromConfig(5, SECOND, 300 * SECOND), Flood(5, ip, name, other);
      WrongName(p, 0, run, 6) && !Banned(p, StateAfter(p, 0, run, 7), ip, 10 * SECOND)
  {
    var limit: nat :| limit == 5;
    FloodBans(limit, SECOND, 300 * SECOND, ip, name, other);
    var run := Flood(limit, ip, name, other);
    BanLastsTenWindows(limit, SECOND, 300 * SECOND, 0, run, limit + 1, limit + 2, 10 * SECOND);
  }

  // ------------------------------------------------- the absolute limiter

  datatype AbsParams = AbsParams(rateLimit: int, rateCooldown: int, limitStatus: bool)

  datatype AbsState = AbsState(rateCounter: int, rateStartTime: Time)

  const NEW_ABS_STATE := AbsState(0, Zero)

  function AbsAllow(p: AbsParams, s: AbsState, now: int): (AbsState, bool) {
    var r := if Since(now, s.rateStartTime) >= p.rateCooldown then AbsState(0, At(now)) else s;
    if !p.limitStatus then (r, true)
    else if r.rateCounter < p.rateLimit then (r.(rateCounter := r.rateCounter + 1), true)
    else (r, false)
  }

  class AbsoluteConnLimiter {
    const p: AbsParams
    var rateCounter: int
    var rateStartTime: Time

    constructor (p: AbsParams)
      ensures AbsState(rateCounter, rateStartTime) == NEW_ABS_STATE && this.p == p
    {
      this.p := p;
      rateCounter, rateStartTime := 0, Zero;
    }

    method Allow(now: int) returns (allowed: bool)
      modifies this
      ensures (AbsState(rateCounter, rateStartTime), allowed)
           == AbsAllow(p, old(AbsState(rateCounter, rateStartTime)), now)
    {
      if Since(now, rateStartTime) >= p.rateCooldown {
        rateCounter := 0;
        rateStartTime := At(now);
      }
      if !p.limitStatus {
        return true;
      }
      if rateCounter < p.rateLimit {
        rateCounter := rateCounter + 1;
        return true;
      }
      return false;
    }
  }

  function AbsStateAfter(p: AbsParams, times: seq<int>, n: nat): AbsState
    requires n <= |times|
  {
    if n == 0 then NEW_ABS_STATE else AbsAllow(p, AbsStateAfter(p, times, n - 1), times[n - 1]).0
  }

  predicate AbsAdmitted(p: AbsParams, times: seq<int>, i: nat)
    requires i < |times|
  {
    AbsAllow(p, AbsStateAfter(p, times, i), times[i]).1
  }

  function AbsAdmissions(p: AbsParams, times: seq<int>, n: nat, a: int, b: int): nat
    requires n <= |times|
  {
    if n == 0 then 0
    else
      AbsAdmissions(p, times, n - 1, a, b) +
      if AbsAdmitted(p, times, n - 1) && a <= times[n - 1] <= b then 1 else 0
  }

  function AbsWindow(s: AbsState): Window {
    if s.rateStartTime.Zero? then NoWindow else Window(s.rateStartTime.t, s.rateCounter)
  }

  ghost function AbsTrace(p: AbsParams, times: seq<int>): (tr: seq<Entry>)
    ensures |tr| == |times|
  {
    seq(|times|, i requires 0 <= i < |times| =>
      Entry(times[i], true, AbsAdmitted(p, times, i), AbsWindow(AbsStateAfter(p, times, i + 1))))
  }

  lemma {:induction false} AbsCounted(p: AbsParams, times: seq<int>, n: nat, a: int, b: int)
    requires n <= |times|
    ensures AbsAdmissions(p, times, n, a, b) == Counted(AbsTrace(p, times), n, a, b)
  {
    if n > 0 {
      AbsCounted(p, times, n - 1, a, b);
    }
  }

  lemma {:induction false} AbsFollows(p: AbsParams, s: AbsState, now: int)
    requires 0 < p.rateCooldown <= MAX_DURATION && p.limitStatus
    ensures var (s', ok) := AbsAllow(p, s, now);
      Follows(AbsWindow(s), Entry(now, true, ok, AbsWindow(s')), p.rateCooldown, p.rateLimit)
  {
  }

  /** The same bound for everything the absolute limiter lets through when it is switched on. */
  lemma {:induction false} AbsSlidingWindow(p: AbsParams, times: seq<int>, a: int, length: nat)
    requires 0 < p.rateCooldown <= MAX_DURATION && p.rateLimit >= 0 && p.limitStatus
    requires forall i, j :: 0 <= i < j < |times| ==> times[i] <= times[j]
    ensures AbsAdmissions(p, times, |times|, a, a + length)
         <= p.rateLimit * (CeilDiv(length, p.rateCooldown) + 1)
  {
    var tr := AbsTrace(p, times);
    forall i | 0 <= i < |times| ensures FitsAt(tr, i, p.rateCooldown, p.rateLimit) {
      var s := AbsStateAfter(p, times, i);
      AbsFollows(p, s, times[i]);
      assert AbsStateAfter(p, times, i + 1) == AbsAllow(p, s, times[i]).0;
      assert WindowAt(tr, i) == AbsWindow(s);
      assert i > 0 ==> times[i - 1] <= times[i];
    }
    AbsCounted(p, times, |times|, a, a + length);
    SlidingBound(tr, a, length, p.rateCooldown, p.rateLimit);
  }

  /** How many of the first `n` calls come at time `a` or later. */
  function CallsSince(times: seq<int>, n: nat, a: int): nat
    requires n <= |times|
  {
    if n == 0 then 0 else CallsSince(times, n - 1, a) + if a <= times[n - 1] then 1 else 0
  }

  lemma {:induction false} CallsSinceMonotone(times: seq<int>, n: nat, a: int, b: int)
    requires n <= |times| && a <= b
    ensures CallsSince(times, n, b) <= CallsSince(times, n, a)
  {
    if n > 0 {
      CallsSinceMonotone(times, n - 1, a, b);
    }
  }

  ghost predicate AbsQuiet(s: AbsState, times: seq<int>, n: nat)
    requires n <= |times|
  {
    s.rateStartTime.At? ==>
      n > 0 && s.rateStartTime.t <= times[n - 1] && s.rateCounter <= CallsSince(times, n, s.rateStartTime.t)
  }

  lemma {:induction false} AbsCounterCounts(p: AbsParams, times: seq<int>, n: nat)
    requires 0 < p.rateCooldown <= MAX_DURATION && n <= |times|
    requires forall i, j :: 0 <= i < j < |times| ==> times[i] <= times[j]
    ensures AbsQuiet(AbsStateAfter(p, times, n), times, n)
  {
    if n > 0 {
      AbsCounterCounts(p, times, n - 1);
      assert n > 1 ==> times[n - 2] <= times[n - 1];
    }
  }

  /** The absolute limiter refuses nobody at whose call the calls of the last cooldown, itself
      included, are within the limit. */
  lemma {:induction false} AbsCalmAdmitted(p: AbsParams, times: seq<int>, n: nat)
    requires 0 < p.rateCooldown <= MAX_DURATION && n < |times|
    requires forall i, j :: 0 <= i < j < |times| ==> times[i] <= times[j]
    requires CallsSince(times, n + 1, times[n] - p.rateCooldown + 1) <= p.rateLimit
    ensures AbsAdmitted(p, times, n)
  {
    AbsCounterCounts(p, times, n);
    var s := AbsStateAfter(p, times, n);
    var recent := times[n] - p.rateCooldown + 1;
    if s.rateStartTime.At? && recent <= s.rateStartTime.t {
      assert n > 0 ==> times[n - 1] <= times[n];
      CallsSinceMonotone(times, n + 1, recent, s.rateStartTime.t);
    }
  }

  /** Switched off for status requests, it lets everything through, whatever the limit. */
  lemma {:induction false} AbsOffAdmitsAll(p: AbsParams, times: seq<int>, n: nat)
    requires !p.limitStatus && n < |times|
    ensures AbsAdmitted(p, times, n)
  {
  }
}
