/** A reload seen from one domain: who it leads to afterwards, whichever versions of the
    configs are stored and whichever are in force. */
module ReloadByDomain {
  import opened ServerConfigs
  import opened Reload
  import opened ReloadRoutes

  /** What the owner table and the catalog say about a domain. */
  datatype Look = Look(owner: Option<string>, server: Option<Backend>)

  const NOWHERE := Look(None, None)

  function LookUp(t: Tables, d: string): Look {
    Look(if d in t.domains then Some(t.domains[d]) else None, if d in t.dict then Some(t.dict[d]) else None)
  }

  function LeadsTo(t: Tables, id: string): Look
    requires id in t.backends
  {
    Look(Some(id), Some(t.backends[id]))
  }

  /** Applying the new version of `id` points `d` at it. */
  predicate Sets(stored: map<string, ServerConfig>, news: map<string, ServerConfig>, id: string, d: string) {
    Has(news, id, d) && !Has(stored, id, d)
  }

  /** Applying the new version of `id` deletes `d`, whoever it leads to by then. */
  predicate Drops(stored: map<string, ServerConfig>, news: map<string, ServerConfig>, id: string, d: string) {
    id in news && Has(stored, id, d) && !Has(news, id, d)
  }

  /** A config that is to be removed is stored with `d`. */
  ghost predicate GoneHas(
    stored: map<string, ServerConfig>, news: map<string, ServerConfig>, order: seq<string>, d: string)
  {
    exists id :: id in order && id !in news && Has(stored, id, d)
  }

  ghost predicate DroppedFrom(
    stored: map<string, ServerConfig>, news: map<string, ServerConfig>, order: seq<string>, n: nat, d: string)
  {
    exists k :: n <= k < |order| && Drops(stored, news, order[k], d)
  }

  // ------------------------------------------------- the removal loop

  lemma {:induction false} RemovedLook(t: Tables, cfg: ServerConfig, d: string)
    requires cfg.ID() in t.backends
    ensures LookUp(RemoveConfig(t, cfg), d) == if d in cfg.domains then NOWHERE else LookUp(t, d)
  {
  }

  /** What the removal loop leaves of the stored configs. */
  lemma {:induction false} RemoveAllId(t: Tables, news: map<string, ServerConfig>, order: seq<string>, id: string)
    requires Keyed(t)
    ensures var t' := RemoveAll(t, news, order);
      && Keyed(t')
      && (id in t'.cfgs <==> id in t.cfgs && (id in news || id !in order))
      && (id in t'.cfgs ==> t'.cfgs[id] == t.cfgs[id] && t'.backends[id] == t.backends[id])
      && t'.next == t.next
  {
    RemoveAllKeyed(t, news, order);
    if order != [] {
      var p := order[..|order| - 1];
      assert order == p + [order[|order| - 1]];
      RemoveAllId(t, news, p, id);
    }
  }

  /** The removal loop deletes the stored domains of what is gone and nothing else. */
  lemma {:induction false} RemoveAllLook(t: Tables, news: map<string, ServerConfig>, order: seq<string>, d: string)
    requires Keyed(t)
    ensures LookUp(RemoveAll(t, news, order), d) ==
            if GoneHas(t.cfgs, news, order, d) then NOWHERE else LookUp(t, d)
  {
    if order != [] {
      var p, id := order[..|order| - 1], order[|order| - 1];
      var tp := RemoveAll(t, news, p);
      assert order == p + [id];
      RemoveAllLook(t, news, p, d);
      RemoveAllId(t, news, p, id);
      GoneHasNext(t.cfgs, news, p, id, d);
      if id in tp.cfgs && id !in news {
        RemovedLook(tp, tp.cfgs[id], d);
      } else if id !in news && id in t.cfgs {
        assert id in p;
      }
    }
  }

  lemma {:induction false} GoneHasNext(
    stored: map<string, ServerConfig>, news: map<string, ServerConfig>, p: seq<string>, id: string, d: string)
    ensures GoneHas(stored, news, p + [id], d) <==>
            GoneHas(stored, news, p, d) || (id !in news && Has(stored, id, d))
  {
    assert id in p + [id];
    if GoneHas(stored, news, p, d) {
      var a :| a in p && a !in news && Has(stored, a, d);
      assert a in p + [id];
    }
  }

  // ------------------------------------------------- the apply loop

  lemma {:induction false} PrefixLacks(order: seq<string>, n: nat)
    requires n < |order| && NoRepeats(order)
    ensures order[n] !in order[..n]
  {
  }

  lemma {:induction false} AppliedOneId(v: Variant, t: Tables, cfg: ServerConfig, id: string)
    requires Keyed(t)
    ensures var t' := ApplyOne(v, t, cfg);
      && Keyed(t') && t'.next >= t.next
      && (id in t'.cfgs <==> id in t.cfgs || id == cfg.ID())
      && (id in t.cfgs ==> t'.backends[id] == t.backends[id])
      && (id !in t.cfgs && id == cfg.ID() ==> t'.backends[id] >= t.next)
      && (id in t'.cfgs ==>
            t'.cfgs[id] == if id in t.cfgs && (v.AsWritten? || id != cfg.ID()) then t.cfgs[id] else cfg)
  {
  }

  /** What the apply loop does to an id: a stored id keeps its backend, a new one gets a new backend. */
  lemma {:induction false} AppliedId(
    v: Variant, t: Tables, news: map<string, ServerConfig>, order: seq<string>, id: string)
    requires Keyed(t) && NewKeyed(news) && forall a :: a in order ==> a in news
    ensures var t' := ApplyAll(v, t, news, order);
      && (id in t'.cfgs <==> id in t.cfgs || id in order)
      && (id in t'.cfgs ==>
            t'.cfgs[id] == if id in t.cfgs && (v.AsWritten? || id !in order) then t.cfgs[id] else news[id])
      && (id in t'.cfgs ==>
            id in t'.backends && if id in t.cfgs then t'.backends[id] == t.backends[id] else t'.backends[id] >= t.next)
      && t'.next >= t.next
  {
    if order != [] {
      var p, last := order[..|order| - 1], order[|order| - 1];
      assert order == p + [last];
      AppliedId(v, t, news, p, id);
      AppliedOneId(v, ApplyAll(v, t, news, p), news[last], id);
    }
  }

  /** A backend that is there at some point of the loop is there at its end. */
  lemma {:induction false} BackendStays(
    v: Variant, t: Tables, news: map<string, ServerConfig>, order: seq<string>, n: nat, id: string)
    requires Keyed(t) && NewKeyed(news) && (forall a :: a in order ==> a in news) && n <= |order|
    requires id in ApplyAll(v, t, news, order[..n]).cfgs
    ensures id in ApplyAll(v, t, news, order).backends
    ensures LeadsTo(ApplyAll(v, t, news, order), id) == LeadsTo(ApplyAll(v, t, news, order[..n]), id)
    decreases |order| - n
  {
    if n == |order| {
      assert order[..n] == order;
    } else {
      assert order[..n + 1][..n] == order[..n];
      AppliedOneId(v, ApplyAll(v, t, news, order[..n]), news[order[n]], id);
      BackendStays(v, t, news, order, n + 1, id);
    }
  }

  lemma {:induction false} AddedLook(t: Tables, cfg: ServerConfig, d: string)
    ensures var t' := AddConfig(t, cfg);
      cfg.ID() in t'.backends && LookUp(t', d) == if d in cfg.domains then LeadsTo(t', cfg.ID()) else LookUp(t, d)
  {
  }

  lemma {:induction false} UpdatedLook(v: Variant, t: Tables, cfg: ServerConfig, d: string)
    requires cfg.ID() in t.cfgs && cfg.ID() in t.backends
    requires NoRepeats(cfg.domains) && NoRepeats(t.cfgs[cfg.ID()].domains)
    ensures var t', stored := UpdateConfig(v, t, cfg), t.cfgs[cfg.ID()];
      LookUp(t', d) ==
        if d in cfg.domains && d !in stored.domains then LeadsTo(t, cfg.ID())
        else if d in stored.domains && d !in cfg.domains then NOWHERE
        else LookUp(t, d)
  {
    UpdatedLookup(v, t, cfg, d);
  }

  /** One round of the apply loop, for a domain. */
  lemma {:induction false} RoundLook(
    v: Variant, t: Tables, news: map<string, ServerConfig>, order: seq<string>, n: nat, d: string)
    requires Keyed(t) && NewKeyed(news) && (forall a :: a in order ==> a in news)
    requires n < |order| && order[n] !in order[..n] && NoRepeats(news[order[n]].domains)
    requires order[n] in t.cfgs ==> NoRepeats(t.cfgs[order[n]].domains)
    ensures var id, p, q := order[n], ApplyAll(v, t, news, order[..n]), ApplyAll(v, t, news, order[..n + 1]);
      && id in q.cfgs
      && LookUp(q, d) ==
         if Sets(t.cfgs, news, id, d) then LeadsTo(q, id)
         else if Drops(t.cfgs, news, id, d) then NOWHERE
         else LookUp(p, d)
  {
    var id, p, cfg := order[n], ApplyAll(v, t, news, order[..n]), news[order[n]];
    assert order[..n + 1][..n] == order[..n];
    AppliedId(v, t, news, order[..n], id);
    if id in p.cfgs { UpdatedLook(v, p, cfg, d); } else { AddedLook(p, cfg, d); }
  }

  /** What the rounds need: no id twice, and no domain twice in a list that is compared. */
  ghost predicate Comparable(t: Tables, news: map<string, ServerConfig>, order: seq<string>) {
    && Keyed(t) && NewKeyed(news) && NoRepeats(order)
    && (forall a :: a in order ==> a in news && NoRepeats(news[a].domains))
    && (forall a :: a in t.cfgs ==> NoRepeats(t.cfgs[a].domains))
  }

  /** Once nobody sets `d` any more, it stays where it is unless somebody drops it. */
  lemma {:induction false} RestLook(
    v: Variant, t: Tables, news: map<string, ServerConfig>, order: seq<string>, n: nat, d: string)
    requires Comparable(t, news, order) && n <= |order|
    requires forall k :: n <= k < |order| ==> !Sets(t.cfgs, news, order[k], d)
    ensures LookUp(ApplyAll(v, t, news, order), d) ==
            if DroppedFrom(t.cfgs, news, order, n, d) then NOWHERE else LookUp(ApplyAll(v, t, news, order[..n]), d)
    decreases |order| - n
  {
    if n == |order| {
      assert order[..n] == order;
    } else {
      PrefixLacks(order, n);
      RoundLook(v, t, news, order, n, d);
      RestLook(v, t, news, order, n + 1, d);
      DroppedNext(t.cfgs, news, order, n, d);
    }
  }

  lemma {:induction false} DroppedNext(
    stored: map<string, ServerConfig>, news: map<string, ServerConfig>, order: seq<string>, n: nat, d: string)
    requires n < |order|
    ensures DroppedFrom(stored, news, order, n, d) <==>
            Drops(stored, news, order[n], d) || DroppedFrom(stored, news, order, n + 1, d)
  {
  }

  // ------------------------------------------------- what a load does to one domain

  ghost predicate Gone(stored: map<string, ServerConfig>, news: map<string, ServerConfig>, d: string) {
    exists id :: id !in news && Has(stored, id, d)
  }

  /** `d` leads to the config of the new list that claims it, or nowhere if none does. */
  ghost predicate RightAt(t: Tables, news: map<string, ServerConfig>, d: string) {
    && (forall id :: Has(news, id, d) ==> id in t.backends && LookUp(t, d) == LeadsTo(t, id))
    && ((forall id :: !Has(news, id, d)) ==> LookUp(t, d) == NOWHERE)
  }

  /** The config in place `i` of the order claims `d` and gets it: one that is stored with `d`
      must have it by now and nobody may delete it from under it; one that is not stored with
      it sets it in its turn, and nobody may delete it afterwards. */
  ghost predicate ClaimSafe(
    stored: map<string, ServerConfig>, cur: map<string, ServerConfig>, news: map<string, ServerConfig>,
    order: seq<string>, i: nat, d: string)
    requires i < |order|
  {
    if Has(stored, order[i], d) then
      Has(cur, order[i], d) && !Gone(stored, news, d) && !DroppedFrom(stored, news, order, 0, d)
    else !DroppedFrom(stored, news, order, i + 1, d)
  }

  /** What nobody claims any more was stored with somebody, so somebody deletes it. */
  ghost predicate ReleaseSafe(
    stored: map<string, ServerConfig>, cur: map<string, ServerConfig>, news: map<string, ServerConfig>, d: string)
  {
    (exists a :: Has(cur, a, d)) && (forall id :: !Has(news, id, d)) ==> exists b :: Has(stored, b, d)
  }

  ghost predicate SafeFor(
    stored: map<string, ServerConfig>, cur: map<string, ServerConfig>, news: map<string, ServerConfig>,
    order: seq<string>, d: string)
  {
    && (forall i :: 0 <= i < |order| && Has(news, order[i], d) ==> ClaimSafe(stored, cur, news, order, i, d))
    && ReleaseSafe(stored, cur, news, d)
  }

  /** Every domain is safe. */
  ghost predicate AllSafe(
    stored: map<string, ServerConfig>, cur: map<string, ServerConfig>, news: map<string, ServerConfig>,
    order: seq<string>)
  {
    forall d :: SafeFor(stored, cur, news, order, d)
  }

  /** A domain that is set in its turn stays set exactly if nobody drops it later. */
  lemma {:induction false} SetExact(
    v: Variant, t: Tables, news: map<string, ServerConfig>, order: seq<string>, i: nat, d: string)
    requires Comparable(t, news, order) && Disjoint(news)
    requires i < |order| && Sets(t.cfgs, news, order[i], d)
    ensures var t' := ApplyAll(v, t, news, order);
      order[i] in t'.backends
      && (LookUp(t', d) == LeadsTo(t', order[i]) <==> !DroppedFrom(t.cfgs, news, order, i + 1, d))
  {
    PrefixLacks(order, i);
    RoundLook(v, t, news, order, i, d);
    BackendStays(v, t, news, order, i + 1, order[i]);
    forall k | i + 1 <= k < |order| ensures !Sets(t.cfgs, news, order[k], d) {
      assert Apart(news, order[k], order[i], d);
    }
    RestLook(v, t, news, order, i + 1, d);
  }

  /** A domain that nobody sets is where it was exactly if nobody drops it. */
  lemma {:induction false} UnsetLook(
    v: Variant, t: Tables, news: map<string, ServerConfig>, order: seq<string>, d: string)
    requires Comparable(t, news, order)
    requires forall k :: 0 <= k < |order| ==> !Sets(t.cfgs, news, order[k], d)
    ensures LookUp(ApplyAll(v, t, news, order), d) ==
            if DroppedFrom(t.cfgs, news, order, 0, d) then NOWHERE else LookUp(t, d)
  {
    assert order[..0] == [];
    RestLook(v, t, news, order, 0, d);
  }

  /** A config that keeps `d` keeps it exactly if it has it and nobody drops it. */
  lemma {:induction false} KeptExact(
    v: Variant, t: Tables, news: map<string, ServerConfig>, order: seq<string>, i: nat, d: string)
    requires Comparable(t, news, order) && Disjoint(news)
    requires i < |order| && Has(news, order[i], d) && Has(t.cfgs, order[i], d)
    ensures var t' := ApplyAll(v, t, news, order);
      order[i] in t'.backends
      && (LookUp(t', d) == LeadsTo(t', order[i])
          <==> LookUp(t, d) == LeadsTo(t, order[i]) && !DroppedFrom(t.cfgs, news, order, 0, d))
  {
    forall k | 0 <= k < |order| ensures !Sets(t.cfgs, news, order[k], d) {
      assert Apart(news, order[k], order[i], d);
    }
    UnsetLook(v, t, news, order, d);
    assert order[..0] == [];
    BackendStays(v, t, news, order, 0, order[i]);
  }

  // ------------------------------------------------- a whole load

  /** The removal loop does not touch what the apply loop compares with. */
  lemma {:induction false} RemovalKeeps(
    t: Tables, news: map<string, ServerConfig>, removeOrder: seq<string>, order: seq<string>, d: string)
    requires Keyed(t) && forall id :: id in order ==> id in news
    ensures var t1 := RemoveAll(t, news, removeOrder);
      && Keyed(t1)
      && (forall id :: id in news ==> (Has(t1.cfgs, id, d) <==> Has(t.cfgs, id, d)))
      && (forall id :: id in t1.cfgs ==> id in t.cfgs && t1.cfgs[id] == t.cfgs[id] && t1.backends[id] == t.backends[id])
      && (forall n: nat :: DroppedFrom(t1.cfgs, news, order, n, d) <==> DroppedFrom(t.cfgs, news, order, n, d))
  {
    var t1 := RemoveAll(t, news, removeOrder);
    RemoveAllKeyed(t, news, removeOrder);
    forall id ensures id in news ==> (Has(t1.cfgs, id, d) <==> Has(t.cfgs, id, d))
              ensures id in t1.cfgs ==> id in t.cfgs && t1.cfgs[id] == t.cfgs[id] && t1.backends[id] == t.backends[id] {
      RemoveAllId(t, news, removeOrder, id);
    }
    assert forall id :: Drops(t1.cfgs, news, id, d) <==> Drops(t.cfgs, news, id, d);
  }

  lemma {:induction false} GoneInOrder(
    stored: map<string, ServerConfig>, news: map<string, ServerConfig>, order: seq<string>, d: string)
    requires IsOrder(order, stored.Keys)
    ensures GoneHas(stored, news, order, d) <==> Gone(stored, news, d)
  {
    if Gone(stored, news, d) {
      var id :| id !in news && Has(stored, id, d);
      assert id in order;
    }
  }

  /** Tables that agree with the configs in force lead `d` to `id` exactly if `id` has `d`. */
  lemma {:induction false} AgreesLook(t: Tables, cur: map<string, ServerConfig>, id: string, d: string)
    requires Agrees(t, cur)
    ensures id in t.backends ==> (LookUp(t, d) == LeadsTo(t, id) <==> Has(cur, id, d))
    ensures LookUp(t, d) == NOWHERE <==> forall a :: !Has(cur, a, d)
  {
    assert RouteSound(t, cur, d) && RouteComplete(t, cur, id, d);
    if LookUp(t, d) == NOWHERE {
      forall a ensures !Has(cur, a, d) {
        assert RouteComplete(t, cur, a, d);
      }
    } else {
      assert d in t.domains && Has(cur, t.domains[d], d);
    }
  }

  ghost predicate Loading(t: Tables, cur: map<string, ServerConfig>, l: Load) {
    && Keyed(t) && Agrees(t, cur) && ValidLoad(t, l)
    && (forall id :: id in t.cfgs ==> NoRepeats(t.cfgs[id].domains))
    && NewKeyed(ById(l.cfgs)) && Disjoint(ById(l.cfgs))
  }

  lemma {:induction false} ClaimExact(v: Variant, t: Tables, cur: map<string, ServerConfig>, l: Load, i: nat, d: string)
    requires Loading(t, cur, l) && t.cfgs != map[] && i < |l.applyOrder| && Has(ById(l.cfgs), l.applyOrder[i], d)
    ensures var t', id := DoLoad(v, t, l), l.applyOrder[i];
      id in t'.backends
      && (LookUp(t', d) == LeadsTo(t', id) <==> ClaimSafe(t.cfgs, cur, ById(l.cfgs), l.applyOrder, i, d))
  {
    var news, order, id := ById(l.cfgs), l.applyOrder, l.applyOrder[i];
    var t1 := RemoveAll(t, news, l.removeOrder);
    RemovalKeeps(t, news, l.removeOrder, order, d);
    if Has(t.cfgs, id, d) {
      KeptExact(v, t1, news, order, i, d);
      RemoveAllLook(t, news, l.removeOrder, d);
      GoneInOrder(t.cfgs, news, l.removeOrder, d);
      AgreesLook(t, cur, id, d);
    } else {
      SetExact(v, t1, news, order, i, d);
    }
  }

  /** If nobody claims `d`, every config stored with it deletes it, in one loop or the other. */
  lemma {:induction false} StoredDeletes(
    stored: map<string, ServerConfig>, news: map<string, ServerConfig>, order: seq<string>, d: string)
    requires IsOrder(order, news.Keys) && forall id :: !Has(news, id, d)
    ensures (exists b :: Has(stored, b, d)) <==> Gone(stored, news, d) || DroppedFrom(stored, news, order, 0, d)
  {
    if b :| Has(stored, b, d) {
      if b in news {
        var k :| 0 <= k < |order| && order[k] == b;
        assert Drops(stored, news, order[k], d);
      }
    }
  }

  lemma {:induction false} ReleasedLook(v: Variant, t: Tables, cur: map<string, ServerConfig>, l: Load, d: string)
    requires Loading(t, cur, l) && t.cfgs != map[] && forall id :: !Has(ById(l.cfgs), id, d)
    ensures LookUp(DoLoad(v, t, l), d) == if exists b :: Has(t.cfgs, b, d) then NOWHERE else LookUp(t, d)
  {
    var news, order := ById(l.cfgs), l.applyOrder;
    RemovalKeeps(t, news, l.removeOrder, order, d);
    UnsetLook(v, RemoveAll(t, news, l.removeOrder), news, order, d);
    RemoveAllLook(t, news, l.removeOrder, d);
    GoneInOrder(t.cfgs, news, l.removeOrder, d);
    StoredDeletes(t.cfgs, news, order, d);
  }

  lemma {:induction false} ReleaseExact(v: Variant, t: Tables, cur: map<string, ServerConfig>, l: Load, d: string)
    requires Loading(t, cur, l) && t.cfgs != map[] && forall id :: !Has(ById(l.cfgs), id, d)
    ensures LookUp(DoLoad(v, t, l), d) == NOWHERE <==> ReleaseSafe(t.cfgs, cur, ById(l.cfgs), d)
  {
    ReleasedLook(v, t, cur, l, d);
    AgreesLook(t, cur, "", d);
  }

  lemma {:induction false} ClaimedOnce(news: map<string, ServerConfig>, order: seq<string>, i: nat, d: string)
    requires IsOrder(order, news.Keys) && Disjoint(news) && i < |order| && Has(news, order[i], d)
    ensures forall a :: Has(news, a, d) <==> a == order[i]
    ensures forall k :: 0 <= k < |order| && Has(news, order[k], d) ==> k == i
  {
    forall a ensures Has(news, a, d) <==> a == order[i] {
      assert Apart(news, a, order[i], d);
    }
  }

  /** One domain after one load, whatever was stored and in force before. */
  lemma {:induction false} DomainExact(v: Variant, t: Tables, cur: map<string, ServerConfig>, l: Load, d: string)
    requires Loading(t, cur, l) && t.cfgs != map[]
    ensures RightAt(DoLoad(v, t, l), ById(l.cfgs), d) <==> SafeFor(t.cfgs, cur, ById(l.cfgs), l.applyOrder, d)
  {
    var news, order := ById(l.cfgs), l.applyOrder;
    if id :| Has(news, id, d) {
      var i :| 0 <= i < |order| && order[i] == id;
      ClaimedOnce(news, order, i, d);
      assert RightAt(DoLoad(v, t, l), news, d) <==> ClaimSafe(t.cfgs, cur, news, order, i, d) by {
        ClaimExact(v, t, cur, l, i, d);
      }
    } else {
      ReleaseExact(v, t, cur, l, d);
    }
  }

  /** The reload as written, exactly: from any stored versions and any configs in force, a load
      of a verified list leaves the routes of a from-scratch build exactly when every domain is
      safe for the order the loop takes. */
  lemma {:induction false} StoredReloadExact(v: Variant, t: Tables, cur: map<string, ServerConfig>, l: Load)
    requires Loading(t, cur, l) && DistinctIds(l.cfgs) && DomainsUnique(l.cfgs)
    ensures Rebuilt(DoLoad(v, t, l), l.cfgs) <==> AllSafe(t.cfgs, cur, ById(l.cfgs), l.applyOrder)
  {
    if t.cfgs == map[] {
      FirstLoadSafe(t, cur, l);
    } else {
      var t', news := DoLoad(v, t, l), ById(l.cfgs);
      LoadedIds(v, t, l);
      RebuiltIsRight(t', l.cfgs);
      forall d ensures RightAt(t', news, d) <==> SafeFor(t.cfgs, cur, news, l.applyOrder, d) {
        DomainExact(v, t, cur, l, d);
      }
    }
  }

  /** With nothing stored a load builds everything, and nothing can be compared wrong. */
  lemma {:induction false} FirstLoadSafe(t: Tables, cur: map<string, ServerConfig>, l: Load)
    requires Loading(t, cur, l) && t.cfgs == map[] && DistinctIds(l.cfgs) && DomainsUnique(l.cfgs)
    ensures Rebuilt(AddAll(t, l.cfgs), l.cfgs) && AllSafe(t.cfgs, cur, ById(l.cfgs), l.applyOrder)
  {
    assert cur == map[] by {
      assert cur.Keys == {};
    }
    LoadIntoEmpty(t, l.cfgs);
    AgreesRebuilt(AddAll(t, l.cfgs), l.cfgs);
  }

  lemma {:induction false} LoadedIds(v: Variant, t: Tables, l: Load)
    requires Keyed(t) && t.cfgs != map[] && ValidLoad(t, l)
    ensures Keyed(DoLoad(v, t, l)) && DoLoad(v, t, l).cfgs.Keys == ById(l.cfgs).Keys
  {
    var news := ById(l.cfgs);
    DoLoadKeyed(v, t, l);
    ByIdKeyed(l.cfgs);
    RemoveAllKeyed(t, news, l.removeOrder);
    forall id ensures id in DoLoad(v, t, l).cfgs <==> id in news {
      RemoveAllId(t, news, l.removeOrder, id);
      AppliedId(v, RemoveAll(t, news, l.removeOrder), news, l.applyOrder, id);
    }
  }

  /** A from-scratch build is right at every domain, and nothing else is. */
  lemma {:induction false} RebuiltIsRight(t: Tables, cfgs: seq<ServerConfig>)
    requires DistinctIds(cfgs) && DomainsUnique(cfgs) && t.backends.Keys == ById(cfgs).Keys
    ensures Rebuilt(t, cfgs) <==> forall d :: RightAt(t, ById(cfgs), d)
  {
    var news := ById(cfgs);
    if Rebuilt(t, cfgs) {
      RebuiltAgrees(t, cfgs);
      forall d ensures RightAt(t, news, d) {
        AgreesLook(t, news, "", d);
        forall id | Has(news, id, d) ensures LookUp(t, d) == LeadsTo(t, id) {
          AgreesLook(t, news, id, d);
        }
      }
    }
    if forall d :: RightAt(t, news, d) {
      forall d ensures RouteSound(t, news, d) {
        assert RightAt(t, news, d);
      }
      forall id, d ensures RouteComplete(t, news, id, d) {
        assert RightAt(t, news, d);
      }
      AgreesRebuilt(t, cfgs);
    }
  }

  /** Whoever is applied last and drops `d` leaves it unrouted. */
  lemma {:induction false} LastDropWins(
    v: Variant, t: Tables, cur: map<string, ServerConfig>, l: Load, n: nat, d: string)
    requires Loading(t, cur, l) && t.cfgs != map[]
    requires n + 1 == |l.applyOrder| && Drops(t.cfgs, ById(l.cfgs), l.applyOrder[n], d)
    ensures LookUp(DoLoad(v, t, l), d) == NOWHERE
  {
    var news, order := ById(l.cfgs), l.applyOrder;
    RemovalKeeps(t, news, l.removeOrder, order, d);
    PrefixLacks(order, n);
    RoundLook(v, RemoveAll(t, news, l.removeOrder), news, order, n, d);
    assert order[..n + 1] == order;
  }

  // ------------------------------------------------- when the stored versions are in force

  /** `first` takes over a domain that `second` still holds but drops in this reload. */
  ghost predicate TakesOver(
    stored: map<string, ServerConfig>, news: map<string, ServerConfig>, first: string, second: string)
  {
    && first in news && second in news && first != second && second in stored
    && exists d :: d in stored[second].domains && d !in news[second].domains && d in news[first].domains
  }

  /** Nobody takes over a domain before its former owner has dropped it. */
  ghost predicate OrderSafe(
    stored: map<string, ServerConfig>, news: map<string, ServerConfig>, order: seq<string>)
  {
    forall i, j :: 0 <= i < j < |order| ==> !TakesOver(stored, news, order[i], order[j])
  }

  ghost predicate NoMovedDomain(stored: map<string, ServerConfig>, news: map<string, ServerConfig>) {
    forall a, b :: !TakesOver(stored, news, a, b)
  }

  lemma {:induction false} DropIsTakeOver(
    stored: map<string, ServerConfig>, news: map<string, ServerConfig>, a: string, b: string, d: string)
    ensures a != b && Has(news, a, d) && Drops(stored, news, b, d) ==> TakesOver(stored, news, a, b)
  {
  }

  lemma {:induction false} SafeForTakers(
    stored: map<string, ServerConfig>, news: map<string, ServerConfig>, order: seq<string>, d: string)
    requires Disjoint(stored) && OrderSafe(stored, news, order) && NoRepeats(order)
    requires forall id :: id in order <==> id in news
    ensures SafeFor(stored, stored, news, order, d)
  {
    forall i | 0 <= i < |order| && Has(news, order[i], d) ensures ClaimSafe(stored, stored, news, order, i, d) {
      forall a ensures Has(stored, order[i], d) && Has(stored, a, d) ==> a == order[i] {
        assert Apart(stored, a, order[i], d);
      }
      forall k | i < k < |order| ensures !Has(stored, order[i], d) ==> !Drops(stored, news, order[k], d) {
        DropIsTakeOver(stored, news, order[i], order[k], d);
      }
    }
  }

  lemma {:induction false} TakersUnsafe(
    stored: map<string, ServerConfig>, news: map<string, ServerConfig>, order: seq<string>, i: nat, j: nat)
    returns (d: string)
    requires Disjoint(stored) && i < j < |order| && TakesOver(stored, news, order[i], order[j])
    ensures !SafeFor(stored, stored, news, order, d)
  {
    d :| d in stored[order[j]].domains && d !in news[order[j]].domains && d in news[order[i]].domains;
    assert Apart(stored, order[j], order[i], d);
    assert Has(news, order[i], d) && Drops(stored, news, order[j], d);
    assert DroppedFrom(stored, news, order, i + 1, d);
    assert !ClaimSafe(stored, stored, news, order, i, d);
  }

  lemma {:induction false} SafeIsOrderSafe(
    stored: map<string, ServerConfig>, news: map<string, ServerConfig>, order: seq<string>)
    requires Disjoint(stored) && (stored != map[] ==> IsOrder(order, news.Keys))
    ensures AllSafe(stored, stored, news, order) <==> OrderSafe(stored, news, order)
  {
    if stored == map[] {
    } else if OrderSafe(stored, news, order) {
      forall d ensures SafeFor(stored, stored, news, order, d) {
        SafeForTakers(stored, news, order, d);
      }
    } else {
      var i, j :| 0 <= i < j < |order| && TakesOver(stored, news, order[i], order[j]);
      var d := TakersUnsafe(stored, news, order, i, j);
    }
  }

  /** Only the domains of the stored versions matter. */
  ghost predicate SameDomains(a: map<string, ServerConfig>, b: map<string, ServerConfig>) {
    forall id, d :: Has(a, id, d) <==> Has(b, id, d)
  }

  lemma {:induction false} SameDomainsSafe(
    stored: map<string, ServerConfig>, cur: map<string, ServerConfig>, news: map<string, ServerConfig>,
    order: seq<string>)
    requires SameDomains(stored, cur)
    ensures AllSafe(stored, cur, news, order) <==> AllSafe(cur, cur, news, order)
  {
    forall d ensures SafeFor(stored, cur, news, order, d) <==> SafeFor(cur, cur, news, order, d) {
      assert forall id :: Drops(stored, news, id, d) <==> Drops(cur, news, id, d);
      assert forall n: nat :: DroppedFrom(stored, news, order, n, d) <==> DroppedFrom(cur, news, order, n, d);
      assert Gone(stored, news, d) <==> Gone(cur, news, d);
      assert forall i :: 0 <= i < |order| ==>
        (ClaimSafe(stored, cur, news, order, i, d) <==> ClaimSafe(cur, cur, news, order, i, d));
    }
  }

  lemma {:induction false} CoherentDisjoint(t: Tables)
    requires Coherent(t)
    ensures Disjoint(t.cfgs)
  {
    forall a, b, d ensures Apart(t.cfgs, a, b, d) {
      assert RouteComplete(t, t.cfgs, a, d) && RouteComplete(t, t.cfgs, b, d);
    }
  }

  /** Reload equals rebuild, order by order: from coherent tables a load of a verified list
      leaves the routes of a from-scratch build exactly when no domain is taken over too early. */
  lemma {:induction false} ReloadExact(v: Variant, t: Tables, l: Load)
    requires Coherent(t) && ValidLoad(t, l) && DistinctIds(l.cfgs) && DomainsUnique(l.cfgs)
    ensures Rebuilt(DoLoad(v, t, l), l.cfgs) <==> OrderSafe(t.cfgs, ById(l.cfgs), l.applyOrder)
  {
    ByIdDisjoint(l.cfgs);
    CoherentDisjoint(t);
    StoredReloadExact(v, t, t.cfgs, l);
    SafeIsOrderSafe(t.cfgs, ById(l.cfgs), l.applyOrder);
  }

  lemma {:induction false} OrderExists(keys: set<string>) returns (order: seq<string>)
    ensures IsOrder(order, keys)
  {
    if keys == {} {
      order := [];
    } else {
      var id :| id in keys;
      var p := OrderExists(keys - {id});
      NoRepeatsAppend(p, id);
      order := p + [id];
    }
  }

  lemma {:induction false} OrderEndingIn(keys: set<string>, id: string) returns (order: seq<string>)
    requires id in keys
    ensures IsOrder(order, keys) && order[|order| - 1] == id
  {
    var p := OrderExists(keys - {id});
    NoRepeatsAppend(p, id);
    order := p + [id];
  }

  // ------------------------------------------------- whatever order Go takes

  /** What holds of `d` before the load and makes every order right: nobody drops it if it is
      claimed, a claimant stored with it has it and nobody removed is stored with it, and it is
      stored with somebody if it is routed and claimed no more. */
  ghost predicate SafeInAnyOrder(
    stored: map<string, ServerConfig>, cur: map<string, ServerConfig>, news: map<string, ServerConfig>, d: string)
  {
    && (forall a, b :: Has(news, a, d) ==> !Drops(stored, news, b, d))
    && (forall a :: Has(news, a, d) && Has(stored, a, d) ==> Has(cur, a, d) && !Gone(stored, news, d))
    && ReleaseSafe(stored, cur, news, d)
  }

  ghost predicate AllSafeInAnyOrder(
    stored: map<string, ServerConfig>, cur: map<string, ServerConfig>, news: map<string, ServerConfig>)
  {
    forall d :: SafeInAnyOrder(stored, cur, news, d)
  }

  lemma {:induction false} AnyOrderIsSafe(
    stored: map<string, ServerConfig>, cur: map<string, ServerConfig>, news: map<string, ServerConfig>,
    order: seq<string>, d: string)
    requires SafeInAnyOrder(stored, cur, news, d)
    ensures SafeFor(stored, cur, news, order, d)
  {
  }

  /** An order that is not safe for `d`: one that ends in whoever drops it, if anybody does. */
  lemma {:induction false} SomeOrderUnsafe(
    stored: map<string, ServerConfig>, cur: map<string, ServerConfig>, news: map<string, ServerConfig>, d: string)
    returns (order: seq<string>)
    requires !SafeInAnyOrder(stored, cur, news, d)
    ensures IsOrder(order, news.Keys) && !SafeFor(stored, cur, news, order, d)
  {
    if a, b :| Has(news, a, d) && Drops(stored, news, b, d) {
      order := OrderEndingIn(news.Keys, b);
      var i :| 0 <= i < |order| && order[i] == a;
      assert Drops(stored, news, order[|order| - 1], d);
      assert !ClaimSafe(stored, cur, news, order, i, d);
    } else {
      order := OrderExists(news.Keys);
      if a :| Has(news, a, d) && Has(stored, a, d) && (!Has(cur, a, d) || Gone(stored, news, d)) {
        var i :| 0 <= i < |order| && order[i] == a;
        assert !ClaimSafe(stored, cur, news, order, i, d);
      }
    }
  }

  /** Every valid load of `cfgs` leaves the routes of a from-scratch build. */
  ghost predicate EveryLoadRebuilds(v: Variant, t: Tables, cfgs: seq<ServerConfig>)
    requires Keyed(t)
  {
    forall l: Load :: l.cfgs == cfgs && ValidLoad(t, l) ==> Rebuilt(DoLoad(v, t, l), cfgs)
  }

  /** The reload as written, for whatever orders Go takes: from any stored versions and any
      configs in force, every load of a verified list leaves the rebuilt routes exactly when
      every domain is safe in any order. */
  lemma {:induction false} ReloadEveryOrderExact(
    v: Variant, t: Tables, cur: map<string, ServerConfig>, cfgs: seq<ServerConfig>)
    requires Keyed(t) && Agrees(t, cur) && forall id :: id in t.cfgs ==> NoRepeats(t.cfgs[id].domains)
    requires DistinctIds(cfgs) && DomainsUnique(cfgs)
    ensures EveryLoadRebuilds(v, t, cfgs) <==> AllSafeInAnyOrder(t.cfgs, cur, ById(cfgs))
  {
    var news := ById(cfgs);
    ByIdDisjoint(cfgs);
    if AllSafeInAnyOrder(t.cfgs, cur, news) {
      forall l: Load | l.cfgs == cfgs && ValidLoad(t, l) ensures Rebuilt(DoLoad(v, t, l), cfgs) {
        forall d ensures SafeFor(t.cfgs, cur, news, l.applyOrder, d) {
          AnyOrderIsSafe(t.cfgs, cur, news, l.applyOrder, d);
        }
        StoredReloadExact(v, t, cur, l);
      }
    } else {
      var d :| !SafeInAnyOrder(t.cfgs, cur, news, d);
      var order := SomeOrderUnsafe(t.cfgs, cur, news, d);
      var removeOrder := OrderExists(t.cfgs.Keys);
      var l := Load(cfgs, removeOrder, order);
      StoredReloadExact(v, t, cur, l);
      assert !Rebuilt(DoLoad(v, t, l), cfgs);
    }
  }

  lemma {:induction false} SafeIfNoneMoves(
    stored: map<string, ServerConfig>, news: map<string, ServerConfig>)
    requires Disjoint(stored)
    ensures AllSafeInAnyOrder(stored, stored, news) <==> NoMovedDomain(stored, news)
  {
    if NoMovedDomain(stored, news) {
      forall d ensures SafeInAnyOrder(stored, stored, news, d) {
        forall a, b ensures Has(news, a, d) ==> !Drops(stored, news, b, d) {
          DropIsTakeOver(stored, news, a, b, d);
        }
        forall a, b ensures Has(stored, a, d) && Has(stored, b, d) ==> a == b {
          assert Apart(stored, a, b, d);
        }
      }
    } else {
      var a, b :| TakesOver(stored, news, a, b);
      var d :| d in stored[b].domains && d !in news[b].domains && d in news[a].domains;
      assert Has(news, a, d) && Drops(stored, news, b, d);
      assert !SafeInAnyOrder(stored, stored, news, d);
    }
  }

  /** From coherent tables: exactly when no domain that a surviving config drops is claimed by
      another config of the new list. */
  lemma {:induction false} CoherentEveryOrderExact(v: Variant, t: Tables, cfgs: seq<ServerConfig>)
    requires Coherent(t) && DistinctIds(cfgs) && DomainsUnique(cfgs)
    ensures EveryLoadRebuilds(v, t, cfgs) <==> NoMovedDomain(t.cfgs, ById(cfgs))
  {
    CoherentDisjoint(t);
    ReloadEveryOrderExact(v, t, t.cfgs, cfgs);
    SafeIfNoneMoves(t.cfgs, ById(cfgs));
  }
}
