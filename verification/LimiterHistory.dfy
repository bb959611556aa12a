/** The bot filter in terms of what happened: which names are recorded, which addresses are banned,
    when it is limiting and who is let through are told by the logins before. */
module LimiterHistory {
  import opened Clock
  import opened GoStrings
  import opened ConnLimiter

  function Before(p: Params, created: int, run: seq<Call>, i: nat): BotState
    requires i < |run|
  {
    StateAfter(p, created, run, i)
  }

  function After(p: Params, created: int, run: seq<Call>, i: nat): BotState
    requires i < |run|
  {
    StateAfter(p, created, run, i + 1)
  }

  /** Status requests leave no trace. */
  lemma {:induction false} StatusLeavesNoTrace(p: Params, created: int, run: seq<Call>, i: nat)
    requires i < |run| && !Login(run, i)
    ensures After(p, created, run, i) == Before(p, created, run, i) && Admitted(p, created, run, i)
  {
  }

  // ------------------------------------------------- recorded names

  /** Login `i` finds limiting on and its address not banned, so its name matters. */
  predicate Screened(p: Params, created: int, run: seq<Call>, i: nat)
    requires i < |run|
  {
    && Login(run, i) && After(p, created, run, i).limiting
    && !Banned(p, Before(p, created, run, i), run[i].req.ip, run[i].now)
  }

  /** The first such login from its address. */
  ghost predicate FirstScreened(p: Params, created: int, run: seq<Call>, k: nat)
    requires k < |run|
  {
    && Screened(p, created, run, k)
    && forall j :: 0 <= j < k && run[j].req.ip == run[k].req.ip ==> !Screened(p, created, run, j)
  }

  /** `name` is the one the first screened login from `ip` among the first `n` calls gave. */
  ghost predicate Gave(p: Params, created: int, run: seq<Call>, n: nat, ip: Str, name: Str)
    requires n <= |run|
  {
    exists k :: 0 <= k < n && FirstScreened(p, created, run, k) && run[k].req.ip == ip && run[k].req.username == name
  }

  lemma {:induction false} ScreenedStep(p: Params, created: int, run: seq<Call>, i: nat, ip: Str)
    requires i < |run|
    ensures var old_, new_ := Before(p, created, run, i).namesList, After(p, created, run, i).namesList;
      if ip !in old_ && Screened(p, created, run, i) && run[i].req.ip == ip
      then ip in new_ && new_[ip] == run[i].req.username
      else (ip in new_ <==> ip in old_) && (ip in old_ ==> new_[ip] == old_[ip])
  {
  }

  lemma {:induction false} RecordedIffScreened(p: Params, created: int, run: seq<Call>, n: nat, ip: Str)
    requires n <= |run|
    ensures ip in StateAfter(p, created, run, n).namesList <==>
            exists k :: 0 <= k < n && Screened(p, created, run, k) && run[k].req.ip == ip
  {
    if n > 0 {
      RecordedIffScreened(p, created, run, n - 1, ip);
      ScreenedStep(p, created, run, n - 1, ip);
      assert Screened(p, created, run, n - 1) && run[n - 1].req.ip == ip ==>
        ip in StateAfter(p, created, run, n).namesList;
    }
  }

  /** A name is recorded for an address exactly if the first screened login from there gave it. */
  lemma {:induction false} RecordedExact(p: Params, created: int, run: seq<Call>, n: nat, ip: Str, name: Str)
    requires n <= |run|
    ensures var names := StateAfter(p, created, run, n).namesList;
      ip in names && names[ip] == name <==> Gave(p, created, run, n, ip, name)
  {
    if n > 0 {
      RecordedExact(p, created, run, n - 1, ip, name);
      RecordedIffScreened(p, created, run, n - 1, ip);
      ScreenedStep(p, created, run, n - 1, ip);
      var names := StateAfter(p, created, run, n).namesList;
      if ip in names && names[ip] == name && !Gave(p, created, run, n - 1, ip, name) {
        assert FirstScreened(p, created, run, n - 1);
      }
      if Gave(p, created, run, n, ip, name) && !Gave(p, created, run, n - 1, ip, name) {
        assert FirstScreened(p, created, run, n - 1) && run[n - 1].req.ip == ip;
      }
    }
  }

  // ------------------------------------------------- bans

  /** A screened login under another name than the first one from its address. */
  ghost predicate Mismatch(p: Params, created: int, run: seq<Call>, i: nat)
    requires i < |run|
  {
    && Screened(p, created, run, i)
    && exists name :: name != run[i].req.username && Gave(p, created, run, i, run[i].req.ip, name)
  }

  lemma {:induction false} MismatchIsWrongName(p: Params, created: int, run: seq<Call>, i: nat)
    requires i < |run|
    ensures Mismatch(p, created, run, i) <==>
            Screened(p, created, run, i) && WrongName(p, created, run, i)
    ensures WrongName(p, created, run, i) ==> Screened(p, created, run, i)
  {
    var ip, names := run[i].req.ip, Before(p, created, run, i).namesList;
    forall name ensures Gave(p, created, run, i, ip, name) <==> ip in names && names[ip] == name {
      RecordedExact(p, created, run, i, ip, name);
    }
    if WrongName(p, created, run, i) {
      assert Gave(p, created, run, i, ip, names[ip]);
    }
  }

  /** An address stands on the list of bans since a mismatch. */
  ghost predicate ListedSince(p: Params, created: int, run: seq<Call>, n: nat, ip: Str, t: Time)
    requires n <= |run|
  {
    exists w :: 0 <= w < n && WrongName(p, created, run, w) && run[w].req.ip == ip && At(run[w].now) == t
  }

  lemma {:induction false} ListedExact(p: Params, created: int, run: seq<Call>, n: nat, ip: Str)
    requires n <= |run| && ip in StateAfter(p, created, run, n).blackList
    ensures ListedSince(p, created, run, n, ip, StateAfter(p, created, run, n).blackList[ip])
  {
    var was, now := StateAfter(p, created, run, n - 1).blackList, StateAfter(p, created, run, n).blackList;
    if ip in was && now[ip] == was[ip] {
      ListedExact(p, created, run, n - 1, ip);
      var w :| 0 <= w < n - 1 && WrongName(p, created, run, w) && run[w].req.ip == ip && At(run[w].now) == now[ip];
    } else {
      assert WrongName(p, created, run, n - 1);
    }
  }

  /** The address is banned by a mismatch no longer than the list clear time ago. */
  ghost predicate BannedByMismatch(p: Params, created: int, run: seq<Call>, n: nat, ip: Str, now: int)
    requires n <= |run|
  {
    exists w :: 0 <= w < n && Mismatch(p, created, run, w) && run[w].req.ip == ip && now - run[w].now < p.listClearTime
  }

  /** Nobody else is banned, and nobody is let off earlier. */
  lemma {:induction false} BannedExact(p: Params, created: int, run: seq<Call>, n: nat, ip: Str, now: int)
    requires p.Valid() && InOrder(created, run) && n <= |run| && (n > 0 ==> run[n - 1].now <= now)
    ensures Banned(p, StateAfter(p, created, run, n), ip, now) <==> BannedByMismatch(p, created, run, n, ip, now)
  {
    var s := StateAfter(p, created, run, n);
    if Banned(p, s, ip, now) {
      ListedExact(p, created, run, n, ip);
      var w :| 0 <= w < n && WrongName(p, created, run, w) && run[w].req.ip == ip && At(run[w].now) == s.blackList[ip];
      MismatchIsWrongName(p, created, run, w);
    }
    if BannedByMismatch(p, created, run, n, ip, now) {
      var w :| 0 <= w < n && Mismatch(p, created, run, w) && run[w].req.ip == ip && now - run[w].now < p.listClearTime;
      MismatchIsWrongName(p, created, run, w);
      StaysBanned(p, created, run, w, n);
    }
  }

  // ------------------------------------------------- who is let through

  /** A login is let through exactly if its address is not banned and, while limiting, the name
      recorded for its address is its own. */
  lemma {:induction false} AdmittedExact(p: Params, created: int, run: seq<Call>, i: nat)
    requires i < |run| && Login(run, i)
    ensures var names := Before(p, created, run, i).namesList;
      Admitted(p, created, run, i) <==>
        && !Banned(p, Before(p, created, run, i), run[i].req.ip, run[i].now)
        && (After(p, created, run, i).limiting ==>
              run[i].req.ip in names && names[run[i].req.ip] == run[i].req.username)
  {
  }

  /** The same by what happened before: there was no mismatch from the address within the list
      clear time and, while limiting, the first login screened from there gave the same name. */
  lemma {:induction false} AdmittedByHistory(p: Params, created: int, run: seq<Call>, i: nat)
    requires p.Valid() && InOrder(created, run) && i < |run| && Login(run, i)
    ensures Admitted(p, created, run, i) <==>
      && !BannedByMismatch(p, created, run, i, run[i].req.ip, run[i].now)
      && (After(p, created, run, i).limiting ==>
            Gave(p, created, run, i, run[i].req.ip, run[i].req.username))
  {
    AdmittedExact(p, created, run, i);
    RecordedExact(p, created, run, i, run[i].req.ip, run[i].req.username);
    assert i > 0 ==> run[i - 1].now <= run[i].now;
    BannedExact(p, created, run, i, run[i].req.ip, run[i].now);
  }

  /** Whoever was denied for being the first screened login from an address, and comes back under
      the same name while the address is not banned, is let through. */
  lemma {:induction false} ReconnectIsAdmitted(p: Params, created: int, run: seq<Call>, k: nat, i: nat)
    requires k < i < |run| && Login(run, i) && FirstScreened(p, created, run, k)
    requires run[k].req.ip == run[i].req.ip && run[k].req.username == run[i].req.username
    ensures !Admitted(p, created, run, k)
    ensures Admitted(p, created, run, i) <==> !Banned(p, Before(p, created, run, i), run[i].req.ip, run[i].now)
  {
    RecordedIffScreened(p, created, run, k, run[k].req.ip);
    AdmittedExact(p, created, run, k);
    AdmittedExact(p, created, run, i);
    RecordedExact(p, created, run, i, run[i].req.ip, run[i].req.username);
  }

  // ------------------------------------------------- when it is limiting

  /** What a call does to the window. */
  lemma {:induction false} WindowStep(p: Params, created: int, run: seq<Call>, i: nat)
    requires p.Valid() && i < |run|
    ensures var s, s' := Before(p, created, run, i), After(p, created, run, i);
      var over := s.rateStartTime.Zero? || run[i].now - s.rateStartTime.t >= p.rateCooldown;
      && s'.rateStartTime == (if Login(run, i) && over then At(run[i].now) else s.rateStartTime)
      && s'.rateCounter == (if !Login(run, i) then s.rateCounter else if over then 1 else s.rateCounter + 1)
      && s'.lastTimeAboveLimit ==
           if Login(run, i) && over && s.rateCounter > p.rateLimit then s.rateStartTime else s.lastTimeAboveLimit
  {
  }

  /** Where the counter stands after the first `n` calls. */
  ghost predicate CountsLogins(p: Params, created: int, run: seq<Call>, n: nat, start: Time, counter: int)
    requires n <= |run|
  {
    match start
    case Zero => counter == 0 == LoginsSince(run, n, created)
    case At(t) =>
      && n > 0 && created <= t <= run[n - 1].now
      && counter == LoginsSince(run, n, t) >= 1 && LoginsSince(run, n, t + p.rateCooldown) == 0
  }

  lemma {:induction false} CountsNext(p: Params, created: int, run: seq<Call>, i: nat, start: Time, counter: int)
    requires p.rateCooldown > 0 && InOrder(created, run) && i < |run|
    requires CountsLogins(p, created, run, i, start, counter)
    ensures
      if !Login(run, i) then CountsLogins(p, created, run, i + 1, start, counter)
      else if start.Zero? || run[i].now - start.t >= p.rateCooldown
      then CountsLogins(p, created, run, i + 1, At(run[i].now), 1)
      else CountsLogins(p, created, run, i + 1, start, counter + 1)
  {
    var now := run[i].now;
    assert i > 0 ==> run[i - 1].now <= now;
    NoneLater(run, i, now + p.rateCooldown);
    match start
    case Zero => LoginsSinceMonotone(run, i, created, now);
    case At(t) =>
      if now - t >= p.rateCooldown {
        LoginsSinceMonotone(run, i, t + p.rateCooldown, now);
      }
  }

  /** The counter is the number of logins since the window started; there is no window exactly
      while there has been no login. */
  lemma {:induction false} CounterExact(p: Params, created: int, run: seq<Call>, n: nat)
    requires p.Valid() && p.rateCooldown > 0 && InOrder(created, run) && n <= |run|
    ensures var s := StateAfter(p, created, run, n);
      CountsLogins(p, created, run, n, s.rateStartTime, s.rateCounter)
  {
    if n > 0 {
      CounterExact(p, created, run, n - 1);
      var s := StateAfter(p, created, run, n - 1);
      CountsNext(p, created, run, n - 1, s.rateStartTime, s.rateCounter);
      WindowStep(p, created, run, n - 1);
    }
  }

  lemma {:induction false} NoneLater(run: seq<Call>, n: nat, a: int)
    requires n <= |run| && forall i :: 0 <= i < n ==> run[i].now < a
    ensures LoginsSince(run, n, a) == 0
  {
    if n > 0 {
      NoneLater(run, n - 1, a);
    }
  }

  /** Login `i` ends a window in which there were more logins than the limit. */
  predicate EndsFullWindow(p: Params, created: int, run: seq<Call>, i: nat)
    requires i < |run|
  {
    var start := Before(p, created, run, i).rateStartTime;
    && Login(run, i) && start.At? && run[i].now - start.t >= p.rateCooldown
    && LoginsSince(run, i, start.t) > p.rateLimit
  }

  /** `last` is when the last such window started, or the creation of the filter. */
  ghost predicate LastFull(p: Params, created: int, run: seq<Call>, n: nat, last: Time)
    requires n <= |run|
  {
    && last.At?
    && (last.t == created || exists i :: 0 <= i < n && EndsFullWindow(p, created, run, i)
                                         && Before(p, created, run, i).rateStartTime == last)
    && (forall i :: 0 <= i < n && EndsFullWindow(p, created, run, i) ==>
          Before(p, created, run, i).rateStartTime.t <= last.t)
    && created <= last.t
  }

  /** The filter remembers exactly that time. */
  lemma {:induction false} LastFullExact(p: Params, created: int, run: seq<Call>, n: nat, last: Time)
    requires p.Valid() && p.rateCooldown > 0 && p.rateLimit >= 0 && InOrder(created, run) && n <= |run|
    ensures StateAfter(p, created, run, n).lastTimeAboveLimit == last <==> LastFull(p, created, run, n, last)
  {
    LastFullHolds(p, created, run, n);
  }

  lemma {:induction false} LastFullHolds(p: Params, created: int, run: seq<Call>, n: nat)
    requires p.Valid() && p.rateCooldown > 0 && p.rateLimit >= 0 && InOrder(created, run) && n <= |run|
    ensures var s := StateAfter(p, created, run, n);
      && LastFull(p, created, run, n, s.lastTimeAboveLimit)
      && (s.rateStartTime.At? ==> s.lastTimeAboveLimit.t <= s.rateStartTime.t)
  {
    if n > 0 {
      LastFullHolds(p, created, run, n - 1);
      CounterExact(p, created, run, n - 1);
      WindowStep(p, created, run, n - 1);
      assert n > 1 ==> run[n - 2].now <= run[n - 1].now;
    }
  }

  /** A login leaves limiting on exactly if it came in above the limit of its window without being
      banned, or limiting was on and either the window is not over or the last full one started
      less than the unverify cooldown ago. */
  lemma {:induction false} LimitingExact(p: Params, created: int, run: seq<Call>, i: nat, last: Time)
    requires p.Valid() && p.rateCooldown > 0 && p.rateLimit >= 0 && InOrder(created, run) && i < |run| && Login(run, i)
    requires LastFull(p, created, run, i + 1, last)
    ensures var start, now := After(p, created, run, i).rateStartTime, run[i].now;
      && start.At?
      && (After(p, created, run, i).limiting <==>
            || (LoginsSince(run, i + 1, start.t) > p.rateLimit
                && !Banned(p, Before(p, created, run, i), run[i].req.ip, now))
            || (Before(p, created, run, i).limiting
                && (Before(p, created, run, i).rateStartTime == start || now - last.t < p.unverifyCooldown)))
  {
    CounterExact(p, created, run, i);
    CounterExact(p, created, run, i + 1);
    LastFullExact(p, created, run, i + 1, last);
  }
}
