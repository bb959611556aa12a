/** Every change of the catalog is announced: after the write, each worker takes an update. */
module DrainPushes {
  import opened ServerConfigs
  import opened Reload
  import opened ReloadScript
  import opened DrainProtocol
  import opened DrainTheorems

  predicate Writes(op: ManagerOp) {
    op.PutAll? || op.DelAll?
  }

  /** Every change of the catalog is followed by an update of the workers at once. */
  ghost predicate Announced(ops: seq<ManagerOp>) {
    forall i :: 0 <= i < |ops| && Writes(ops[i]) ==> i + 1 < |ops| && ops[i + 1].Push?
  }

  /** A backend is configured or closed right after an update of the workers. */
  ghost predicate Settled(ops: seq<ManagerOp>) {
    forall i :: 0 <= i < |ops| && (ops[i].Configure? || ops[i].Close?) ==> i > 0 && ops[i - 1].Push?
  }

  lemma {:induction false} SettledAppend(a: seq<ManagerOp>, b: seq<ManagerOp>)
    requires Settled(a) && Settled(b)
    ensures Settled(a + b)
  {
  }

  lemma {:induction false} AnnouncedAppend(a: seq<ManagerOp>, b: seq<ManagerOp>)
    requires Announced(a) && Announced(b)
    ensures Announced(a + b)
  {
    forall i | 0 <= i < |a + b| && Writes((a + b)[i]) ensures i + 1 < |a + b| && (a + b)[i + 1].Push? {
      if i < |a| {
        assert Writes(a[i]);
      } else {
        assert Writes(b[i - |a|]);
      }
    }
  }

  /** `t'` has the script of `t` and more, and what is more is announced and settled. */
  ghost predicate Appends(t: Tables, t': Tables) {
    t.ops <= t'.ops && Announced(t'.ops[|t.ops|..]) && Settled(t'.ops[|t.ops|..])
  }

  lemma {:induction false} AppendsOps(t: Tables, t': Tables, step: seq<ManagerOp>)
    requires t'.ops == t.ops + step && Announced(step) && Settled(step)
    ensures Appends(t, t')
  {
    assert t'.ops[|t.ops|..] == step;
  }

  lemma {:induction false} AddAppends(t: Tables, cfg: ServerConfig)
    ensures Appends(t, AddConfig(t, cfg))
  {
    AppendsOps(t, AddConfig(t, cfg), [Spawn(t.next), PutAll(DomainSet(cfg), t.next), Push]);
  }

  lemma {:induction false} RemoveAppends(t: Tables, cfg: ServerConfig)
    ensures Appends(t, RemoveConfig(t, cfg))
  {
    if cfg.ID() in t.backends {
      AppendsOps(t, RemoveConfig(t, cfg), [DelAll(DomainSet(cfg)), Push, Close(t.backends[cfg.ID()])]);
    } else {
      AppendsOps(t, t, []);
    }
  }

  lemma {:induction false} UpdateAppends(v: Variant, t: Tables, cfg: ServerConfig)
    requires cfg.ID() in t.cfgs && cfg.ID() in t.backends
    ensures Appends(t, UpdateConfig(v, t, cfg))
  {
    var prev, b := t.cfgs[cfg.ID()], t.backends[cfg.ID()];
    if cfg == prev {
      AppendsOps(t, t, []);
    } else {
      AppendsOps(t, UpdateConfig(v, t, cfg),
        [PutAll(AddedDomains(cfg, prev), b), Push, DelAll(RemovedDomains(cfg, prev)), Push, Configure(b, cfg)]);
    }
  }

  lemma {:induction false} AppendsTwice(t: Tables, t': Tables, t'': Tables)
    requires Appends(t, t') && Appends(t', t'')
    ensures Appends(t, t'')
  {
    AnnouncedAppend(t'.ops[|t.ops|..], t''.ops[|t'.ops|..]);
    SettledAppend(t'.ops[|t.ops|..], t''.ops[|t'.ops|..]);
    assert t''.ops[|t.ops|..] == t'.ops[|t.ops|..] + t''.ops[|t'.ops|..];
  }

  lemma {:induction false} RemoveAllAppends(t: Tables, news: map<string, ServerConfig>, order: seq<string>)
    ensures Appends(t, RemoveAll(t, news, order))
  {
    if order != [] {
      var p, id := RemoveAll(t, news, order[..|order| - 1]), order[|order| - 1];
      RemoveAllAppends(t, news, order[..|order| - 1]);
      if id in p.cfgs {
        RemoveAppends(p, p.cfgs[id]);
      }
      assert Appends(p, p);
      AppendsTwice(t, p, RemoveAll(t, news, order));
    }
  }

  lemma {:induction false} ApplyAllAppends(
    v: Variant, t: Tables, news: map<string, ServerConfig>, order: seq<string>)
    requires Keyed(t) && NewKeyed(news) && forall id :: id in order ==> id in news
    ensures Appends(t, ApplyAll(v, t, news, order))
  {
    if order != [] {
      var p := ApplyAll(v, t, news, order[..|order| - 1]);
      ApplyAllAppends(v, t, news, order[..|order| - 1]);
      var cfg := news[order[|order| - 1]];
      if cfg.ID() in p.cfgs { UpdateAppends(v, p, cfg); } else { AddAppends(p, cfg); }
      AppendsTwice(t, p, ApplyAll(v, t, news, order));
    }
  }

  lemma {:induction false} AddAllAppends(t: Tables, cfgs: seq<ServerConfig>)
    ensures Appends(t, AddAll(t, cfgs))
  {
    if cfgs != [] {
      var p := AddAll(t, cfgs[..|cfgs| - 1]);
      AddAllAppends(t, cfgs[..|cfgs| - 1]);
      AddAppends(p, cfgs[|cfgs| - 1]);
      AppendsTwice(t, p, AddAll(t, cfgs));
    }
  }

  /** The script of a load announces every change it makes, and configures and closes backends only
      after such an announcement. */
  lemma {:induction false} LoadAnnounces(v: Variant, t: Tables, l: Load)
    requires Keyed(t) && ValidLoad(t, l)
    ensures Announced(Script(v, t, l)) && Settled(Script(v, t, l))
  {
    AddAllAppends(t, l.cfgs);
    if t.cfgs != map[] {
      var news := ById(l.cfgs);
      RemoveAllKeyed(t, news, l.removeOrder);
      ByIdKeyed(l.cfgs);
      var r := RemoveAll(t, news, l.removeOrder);
      RemoveAllAppends(t, news, l.removeOrder);
      ApplyAllAppends(v, r, news, l.applyOrder);
      AppendsTwice(t, r, DoLoad(v, t, l));
    }
  }

  // ------------------------------------------------- every worker is told

  /** Worker `i` takes an update at one of the steps from `m` up to `n`. */
  ghost predicate Told(states: seq<State>, events: seq<Event>, m: nat, n: nat, i: nat)
    requires |states| == |events| + 1 && n <= |events|
  {
    exists k :: m <= k < n && events[k].PushOne? && states[k].pushed == i
  }

  ghost predicate AllTold(states: seq<State>, events: seq<Event>, m: nat, n: nat, count: nat)
    requires |states| == |events| + 1 && n <= |events|
  {
    forall i: nat :: i < count ==> Told(states, events, m, n, i)
  }

  lemma {:induction false} AllToldNext(states: seq<State>, events: seq<Event>, m: nat, n: nat, count: nat)
    requires |states| == |events| + 1 && m <= n < |events| && AllTold(states, events, m, n, count)
    ensures AllTold(states, events, m, n + 1, count)
    ensures events[n].PushOne? && states[n].pushed == count ==> AllTold(states, events, m, n + 1, count + 1)
  {
    var n' := n + 1;
    forall i: nat | i < count ensures Told(states, events, m, n', i) {
      assert Told(states, events, m, n, i);
      var k :| m <= k < n && events[k].PushOne? && states[k].pushed == i;
      assert m <= k < n' && events[k].PushOne?;
    }
  }

  /** While the manager works, what is left is announced and `pushed` counts the current round. */
  ghost predicate Underway(s: State) {
    && Announced(s.ops)
    && s.pushed <= |s.workers| && (s.pushed > 0 ==> s.ops != [] && s.ops[0].Push?)
  }

  lemma {:induction false} StepUnderway(s: State, e: Event)
    requires Underway(s) && Enabled(s, e)
    ensures Underway(Step(s, e)) && |Step(s, e).workers| == |s.workers|
  {
    var s' := Step(s, e);
    if e.Write? || e.OpDone? {
      forall i | 0 <= i < |s'.ops| && Writes(s'.ops[i]) ensures i + 1 < |s'.ops| && s'.ops[i + 1].Push? {
        var j := if e.Write? then i else i + 1;
        assert Writes(s.ops[j]);
      }
    }
  }

  lemma {:induction false} RunUnderway(states: seq<State>, events: seq<Event>, n: nat)
    requires Behaviour(states, events) && Underway(states[0]) && n < |states|
    ensures Underway(states[n]) && |states[n].workers| == |states[0].workers|
  {
    if n > 0 {
      RunUnderway(states, events, n - 1);
      StepUnderway(states[n - 1], events[n - 1]);
    }
  }

  /** Since the write at step `m`: it is still going on, or the round after it has told the first
      workers, or all of them. */
  ghost predicate Telling(states: seq<State>, events: seq<Event>, m: nat, n: nat)
    requires Behaviour(states, events) && n <= |events|
  {
    var s := states[n];
    || (s.ops != [] && Writes(s.ops[0]))
    || (s.ops != [] && s.ops[0].Push? && AllTold(states, events, m, n, s.pushed))
    || AllTold(states, events, m, n, |s.workers|)
  }

  lemma {:induction false} StepTelling(states: seq<State>, events: seq<Event>, m: nat, n: nat)
    requires Behaviour(states, events) && m <= n < |events| && Telling(states, events, m, n)
    requires Underway(states[n])
    ensures Telling(states, events, m, n + 1)
  {
    var s, e, s' := states[n], events[n], states[n + 1];
    StepUnderway(s, e);
    if s.ops != [] && Writes(s.ops[0]) {
      if e.OpDone? {
        assert s.ops[1].Push? && s'.ops[0] == s.ops[1] && s'.pushed == 0;
      }
    } else if AllTold(states, events, m, n, |s.workers|) {
      AllToldNext(states, events, m, n, |s.workers|);
    } else {
      AllToldNext(states, events, m, n, s.pushed);
    }
  }

  lemma {:induction false} RunTelling(states: seq<State>, events: seq<Event>, m: nat, n: nat)
    requires Behaviour(states, events) && Underway(states[0]) && m < n <= |events| && events[m].Write?
    ensures Telling(states, events, m, n)
  {
    RunUnderway(states, events, n - 1);
    if n > m + 1 {
      RunTelling(states, events, m, n - 1);
      StepTelling(states, events, m, n - 1);
    }
  }

  /** Once the manager is done with a load, every worker has taken an update after every single
      write to the catalog, in whatever interleaving. */
  lemma {:induction false} EveryWorkerIsTold(
    v: Variant, t: Tables, l: Load, states: seq<State>, events: seq<Event>, m: nat, n: nat, i: nat)
    requires Keyed(t) && ValidLoad(t, l) && Behaviour(states, events) && AboutToLoad(states[0], v, t, l)
    requires m < n <= |events| && events[m].Write? && states[n].ops == []
    requires i < |states[0].workers|
    ensures Told(states, events, m, n, i)
  {
    LoadAnnounces(v, t, l);
    RunUnderway(states, events, n);
    RunTelling(states, events, m, n);
  }
}
