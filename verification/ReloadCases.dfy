/** Runs in which the reload, as written, does not leave the routes of the new list. */
module ReloadCases {
  import opened ServerConfigs
  import opened Reload
  import opened ReloadRoutes
  import opened ReloadByDomain
  import opened ReloadRuns
  import opened ReloadScript

  function Cfg(id: string, domains: seq<string>): ServerConfig {
    ServerConfig(id, id, domains, "target", "")
  }

  lemma {:induction false} OneConfig(cfg: ServerConfig)
    ensures ById([cfg]) == map[cfg.ID() := cfg]
    ensures AddAll(EMPTY_TABLES, [cfg]) == AddConfig(EMPTY_TABLES, cfg)
    ensures DistinctIds([cfg])
  {
    assert [cfg][..0] == [];
    assert ById([cfg][..0]) == map[];
    assert AddAll(EMPTY_TABLES, [cfg][..0]) == EMPTY_TABLES;
  }

  /** Reloading a single config under the same id is one update. */
  lemma {:induction false} ReloadOne(t: Tables, cfg: ServerConfig, l: Load)
    requires Keyed(t) && t.cfgs.Keys == {cfg.ID()}
    requires l == Load([cfg], [cfg.ID()], [cfg.ID()])
    ensures ValidLoad(t, l) && DoLoad(AsWritten, t, l) == UpdateConfig(AsWritten, t, cfg)
  {
    OneConfig(cfg);
    var id, order, news := cfg.ID(), [cfg.ID()], ById([cfg]);
    assert order[..0] == [];
    assert RemoveAll(t, news, order[..0]) == t;
    RemoveAllKeyed(t, news, order);
    ByIdKeyed([cfg]);
    assert ApplyAll(AsWritten, t, news, order[..0]) == t;
  }

  /** Replacing the only config by one with another id is a removal and an addition. */
  lemma {:induction false} ReplaceOne(t: Tables, gone: string, cfg: ServerConfig, l: Load)
    requires Keyed(t) && t.cfgs.Keys == {gone} && gone != cfg.ID()
    requires l == Load([cfg], [gone], [cfg.ID()])
    ensures ValidLoad(t, l) && DoLoad(AsWritten, t, l) == AddConfig(RemoveConfig(t, t.cfgs[gone]), cfg)
  {
    OneConfig(cfg);
    var ro, ao, news := [gone], [cfg.ID()], ById([cfg]);
    assert ro[..0] == [] && ao[..0] == [];
    assert RemoveAll(t, news, ro[..0]) == t;
    RemoveAllKeyed(t, news, ro);
    ByIdKeyed([cfg]);
    var t' := RemoveAll(t, news, ro);
    assert ApplyAll(AsWritten, t', news, ao[..0]) == t';
  }

  /** One id is loaded as `small` and reloaded as `grown`. */
  ghost function GrowingRun(small: ServerConfig, grown: ServerConfig): seq<Load> {
    [Load([small], [], [])] + [Load([grown], [small.ID()], [small.ID()])]
  }

  /** The added domain is routed, but the small version is what stays stored. */
  lemma {:induction false} Grown(small: ServerConfig, grown: ServerConfig, d: string)
    requires small.ID() == grown.ID() && NoRepeats(small.domains) && NoRepeats(grown.domains)
    requires d in grown.domains && d !in small.domains
    ensures var run := GrowingRun(small, grown); var t := After(AsWritten, run);
      && ValidRun(AsWritten, run)
      && t.cfgs == map[small.ID() := small] && t.backends == map[small.ID() := 0] && t.next == 1
      && d in t.dict && t.dict[d] == 0
  {
    var l1, l2 := Load([small], [], []), Load([grown], [small.ID()], [small.ID()]);
    OneConfig(small);
    OneConfig(grown);
    RunExtended(AsWritten, [], l1);
    assert [] + [l1] == [l1];
    var t1 := AddConfig(EMPTY_TABLES, small);
    ReloadOne(t1, grown, l2);
    RunExtended(AsWritten, [l1], l2);
    GrownTables(t1, small, grown, d);
  }

  lemma {:induction false} GrownTables(t: Tables, small: ServerConfig, grown: ServerConfig, d: string)
    requires small.ID() == grown.ID() && NoRepeats(small.domains) && NoRepeats(grown.domains)
    requires d in grown.domains && d !in small.domains && t == AddConfig(EMPTY_TABLES, small)
    ensures var t' := UpdateConfig(AsWritten, t, grown);
      && t'.cfgs == map[small.ID() := small] && t'.backends == map[small.ID() := 0] && t'.next == 1
      && d in t'.dict && t'.dict[d] == 0
  {
    UpdatedLookup(AsWritten, t, grown, d);
  }

  /** Going back to the small version changes nothing: the added domain stays routed. */
  lemma {:induction false} RollbackIsIgnored(small: ServerConfig, grown: ServerConfig, d: string)
    requires small.ID() == grown.ID() && NoRepeats(small.domains) && NoRepeats(grown.domains)
    requires d in grown.domains && d !in small.domains
    ensures var before := GrowingRun(small, grown);
      var run := before + [Load([small], [small.ID()], [small.ID()])];
      && ValidRun(AsWritten, run)
      && After(AsWritten, run) == After(AsWritten, before)
      && d in After(AsWritten, run).dict
  {
    Grown(small, grown, d);
    var t, l := After(AsWritten, GrowingRun(small, grown)), Load([small], [small.ID()], [small.ID()]);
    OneConfig(small);
    ReloadOne(t, small, l);
    RunExtended(AsWritten, GrowingRun(small, grown), l);
  }

  /** Replacing the grown config closes its backend while the added domain still leads there. */
  lemma {:induction false} LeftoverLeadsToClosed(
    small: ServerConfig, grown: ServerConfig, other: ServerConfig, d: string)
    requires small.ID() == grown.ID() && NoRepeats(small.domains) && NoRepeats(grown.domains)
    requires d in grown.domains && d !in small.domains
    requires other.ID() != small.ID() && d !in other.domains
    ensures var run := GrowingRun(small, grown) + [Load([other], [small.ID()], [other.ID()])];
      var t := After(AsWritten, run);
      && ValidRun(AsWritten, run)
      && d in t.dict && t.dict[d] == 0 && Close(0) in t.ops && !InUse(t, 0)
  {
    Grown(small, grown, d);
    var t, l := After(AsWritten, GrowingRun(small, grown)), Load([other], [small.ID()], [other.ID()]);
    OneConfig(other);
    ReplaceOne(t, small.ID(), other, l);
    RunExtended(AsWritten, GrowingRun(small, grown), l);
    ReplacedStillRouted(t, small, other, 0, d);
  }

  lemma {:induction false} ReplacedStillRouted(
    t: Tables, gone: ServerConfig, other: ServerConfig, b: Backend, d: string)
    requires t.backends == map[gone.ID() := b] && b < t.next
    requires d in t.dict && t.dict[d] == b && d !in gone.domains && d !in other.domains
    ensures var t' := AddConfig(RemoveConfig(t, gone), other);
      d in t'.dict && t'.dict[d] == b && Close(b) in t'.ops && !InUse(t', b)
  {
    var removed := RemoveConfig(t, gone);
    assert removed.ops[|removed.ops| - 1] == Close(b);
    assert AddConfig(removed, other).ops[|removed.ops| - 1] == Close(b);
  }

  lemma {:induction false} OneAndTwo(a: string, b: string)
    requires a != b
    ensures NoRepeats([a]) && NoRepeats([a, b]) && b in [a, b] && b !in [a]
  {
    assert [a, b][1] == b;
  }

  /** Concretely: the file "A" with {a}, then {a, b}, then {a} leaves b routed; with the file
      "C" instead of the last one, b leads to a closed backend. */
  lemma {:induction false} StaleDomain(
    ) returns (small: ServerConfig, grown: ServerConfig, other: ServerConfig, d: string)
    ensures small == Cfg("A", ["a"]) && grown == Cfg("A", ["a", "b"]) && other == Cfg("C", ["c"]) && d == "b"
    ensures d in After(AsWritten, GrowingRun(small, grown) + [Load([small], [small.ID()], [small.ID()])]).dict
    ensures var t := After(AsWritten, GrowingRun(small, grown) + [Load([other], [small.ID()], [other.ID()])]);
      d in t.dict && Close(t.dict[d]) in t.ops && !InUse(t, t.dict[d])
  {
    var id, name, otherId, otherName: string :| id == "A" && name == "a" && otherId == "C" && otherName == "c";
    d :| d == "b";
    other := Cfg(otherId, [otherName]);
    small, grown := Cfg(id, [name]), Cfg(id, [name, d]);
    assert name[0] != d[0] && otherId[0] != id[0] && otherName[0] != d[0];
    OneAndTwo(name, d);
    RollbackIsIgnored(small, grown, d);
    LeftoverLeadsToClosed(small, grown, other, d);
  }

  /** Two configs A and B stay, but x moves from A to B, as in {a, x}, {b} to {a}, {b, x}:
      in the order B, A nobody routes x afterwards. */
  lemma {:induction false} MovedDomainLost(t: Tables, newA: ServerConfig, newB: ServerConfig, x: string)
    requires Coherent(t) && t.cfgs.Keys == {newA.ID(), newB.ID()} && newA.ID() != newB.ID()
    requires DomainsUnique([newA, newB])
    requires x in t.cfgs[newA.ID()].domains && x in newB.domains && x !in newA.domains
    ensures var l := Load([newA, newB], [newA.ID(), newB.ID()], [newB.ID(), newA.ID()]);
      ValidLoad(t, l) && x !in DoLoad(AsWritten, t, l).dict
  {
    var list, order := [newA, newB], [newB.ID(), newA.ID()];
    var l := Load(list, [newA.ID(), newB.ID()], order);
    TwoById(newA, newB);
    ByIdDisjoint(list);
    LastDropWins(AsWritten, t, t.cfgs, l, 1, x);
  }

  lemma {:induction false} TwoUnique(a: ServerConfig, b: ServerConfig)
    requires NoRepeats(a.domains) && NoRepeats(b.domains) && forall d :: d in a.domains ==> d !in b.domains
    ensures DomainsUnique([a, b])
  {
  }

  lemma {:induction false} OneNoRepeats(a: string)
    ensures NoRepeats([a])
  {
  }

  /** The first load of a verified list leaves coherent tables. */
  lemma {:induction false} FirstCoherent(v: Variant, l: Load)
    requires DistinctIds(l.cfgs) && DomainsUnique(l.cfgs)
    ensures ValidRun(v, [l]) && Coherent(After(v, [l])) && After(v, [l]).cfgs == ById(l.cfgs)
  {
    RunExtended(v, [], l);
    assert [] + [l] == [l];
    LoadIntoEmpty(EMPTY_TABLES, l.cfgs);
    LedgerAddAll(EMPTY_TABLES, l.cfgs);
    ByIdDisjoint(l.cfgs);
  }

  /** Two configs are loaded and then reloaded, the second one first. */
  function MovingRun(oldA: ServerConfig, oldB: ServerConfig, newA: ServerConfig, newB: ServerConfig): seq<Load> {
    [Load([oldA, oldB], [], [])] + [Load([newA, newB], [newA.ID(), newB.ID()], [newB.ID(), newA.ID()])]
  }

  /** From a run: two configs are loaded, then `x` moves from the first to the second. */
  lemma {:induction false} MoveRun(
    oldA: ServerConfig, oldB: ServerConfig, newA: ServerConfig, newB: ServerConfig, x: string)
    requires oldA.ID() == newA.ID() != newB.ID() == oldB.ID()
    requires DomainsUnique([oldA, oldB]) && DomainsUnique([newA, newB])
    requires x in oldA.domains && x in newB.domains && x !in newA.domains
    ensures var run := MovingRun(oldA, oldB, newA, newB);
      ValidRun(AsWritten, run) && x !in After(AsWritten, run).dict
  {
    var l1 := Load([oldA, oldB], [], []);
    var l2 := Load([newA, newB], [newA.ID(), newB.ID()], [newB.ID(), newA.ID()]);
    TwoById(oldA, oldB);
    TwoById(newA, newB);
    FirstCoherent(AsWritten, l1);
    MovedDomainLost(After(AsWritten, [l1]), newA, newB, x);
    RunExtended(AsWritten, [l1], l2);
  }

  /** Concretely: the files "A" with {a, x} and "B" with {b}, then {a} and {b, x}. */
  lemma {:induction false} MovedDomain()
    returns (oldA: ServerConfig, oldB: ServerConfig, newA: ServerConfig, newB: ServerConfig, x: string)
    ensures oldA == Cfg("A", ["a", "x"]) && oldB == Cfg("B", ["b"])
    ensures newA == Cfg("A", ["a"]) && newB == Cfg("B", ["b", "x"]) && x == "x"
    ensures var run := MovingRun(oldA, oldB, newA, newB);
      ValidRun(AsWritten, run) && x !in After(AsWritten, run).dict
  {
    var idA, idB, a, b: string :| idA == "A" && idB == "B" && a == "a" && b == "b";
    x :| x == "x";
    assert idA[0] != idB[0] && a[0] != b[0] && a[0] != x[0] && b[0] != x[0];
    oldA, oldB, newA, newB := Cfg(idA, [a, x]), Cfg(idB, [b]), Cfg(idA, [a]), Cfg(idB, [b, x]);
    OneAndTwo(a, x);
    OneAndTwo(b, x);
    OneNoRepeats(a);
    OneNoRepeats(b);
    TwoUnique(oldA, oldB);
    TwoUnique(newA, newB);
    MoveRun(oldA, oldB, newA, newB, x);
  }

  lemma {:induction false} TwoById(a: ServerConfig, b: ServerConfig)
    requires a.ID() != b.ID()
    ensures ById([a, b]) == map[a.ID() := a, b.ID() := b] && DistinctIds([a, b])
  {
    assert [a, b][..1] == [a];
    OneConfig(a);
  }
}
