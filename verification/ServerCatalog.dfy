/** Looking a server up by the address a client asked for. */
module ServerCatalog {
  import opened ServerConfigs
  import opened Reload
  import opened ReloadRoutes
  import opened ReloadByDomain

  datatype Found = Server(b: Backend) | NoServerFound

  function LowerChar(c: char): char {
    if 'A' <= c <= 'Z' then c - 'A' + 'a' else c
  }

  /** Lower case, for ASCII letters. */
  function ToLower(s: string): (r: string)
    ensures |r| == |s|
  {
    seq(|s|, i requires 0 <= i < |s| => LowerChar(s[i]))
  }

  function Find(dict: map<string, Backend>, addr: string): Found {
    var clean := ToLower(addr);
    if clean in dict then Server(dict[clean]) else NoServerFound
  }

  lemma {:induction false} RightAfter(v: Variant, t: Tables, cur: map<string, ServerConfig>, l: Load, d: string)
    requires Loading(t, cur, l) && DistinctIds(l.cfgs) && AllSafe(t.cfgs, cur, ById(l.cfgs), l.applyOrder)
    ensures RightAt(DoLoad(v, t, l), ById(l.cfgs), d)
  {
    DisjointUnique(l.cfgs);
    StoredReloadExact(v, t, cur, l);
    RebuiltIsRight(DoLoad(v, t, l), l.cfgs);
  }

  predicate IsUpper(c: char) {
    'A' <= c <= 'Z'
  }

  /** `key` is `addr` with every upper-case letter 32 characters further up. */
  ghost predicate LowerOf(key: string, addr: string) {
    && |key| == |addr|
    && forall i :: 0 <= i < |addr| ==> key[i] as int == addr[i] as int + if IsUpper(addr[i]) then 32 else 0
  }

  lemma {:induction false} LowerOfExact(key: string, addr: string)
    ensures LowerOf(key, addr) <==> key == ToLower(addr)
  {
    if LowerOf(key, addr) {
      forall i | 0 <= i < |addr| ensures key[i] == ToLower(addr)[i] {
        assert key[i] as int == addr[i] as int + if IsUpper(addr[i]) then 32 else 0;
        assert key[i] as int == ToLower(addr)[i] as int;
      }
    }
  }

  /** A lookup finds the server under the key that is the address in lower case, letter by letter,
      and nothing exactly if there is no such key. */
  lemma {:induction false} FindExact(dict: map<string, Backend>, addr: string)
    ensures forall key :: key in dict && LowerOf(key, addr) ==> Find(dict, addr) == Server(dict[key])
    ensures Find(dict, addr).NoServerFound? <==> forall key :: key in dict ==> !LowerOf(key, addr)
  {
    LowerOfExact(ToLower(addr), addr);
    forall key ensures LowerOf(key, addr) <==> key == ToLower(addr) {
      LowerOfExact(key, addr);
    }
  }

  lemma {:induction false} LowerHasNoUpper(addr: string)
    ensures forall i :: 0 <= i < |addr| ==> !IsUpper(ToLower(addr)[i])
  {
  }

  /** An address without upper-case letters that is a key is found as it stands. */
  lemma {:induction false} FindsLowerCase(dict: map<string, Backend>, addr: string)
    requires addr in dict && forall i :: 0 <= i < |addr| ==> !IsUpper(addr[i])
    ensures Find(dict, addr) == Server(dict[addr])
  {
    assert LowerOf(addr, addr);
    FindExact(dict, addr);
  }

  /** The config lists the address in lower case. */
  ghost predicate Claimed(cfg: ServerConfig, addr: string) {
    exists d :: d in cfg.domains && LowerOf(d, addr)
  }

  lemma {:induction false} ClaimedExact(cfg: ServerConfig, addr: string)
    ensures Claimed(cfg, addr) <==> ToLower(addr) in cfg.domains
  {
    forall key ensures LowerOf(key, addr) <==> key == ToLower(addr) {
      LowerOfExact(key, addr);
    }
  }

  /** After a load in which every domain is safe, a lookup finds the backend of the config that claims the address in
      lower case, and nothing when there is no such config. */
  lemma {:induction false} LookupAfterLoad(v: Variant, t: Tables, cur: map<string, ServerConfig>, l: Load, addr: string)
    requires Loading(t, cur, l) && DistinctIds(l.cfgs) && AllSafe(t.cfgs, cur, ById(l.cfgs), l.applyOrder)
    ensures var t' := DoLoad(v, t, l);
      && (forall i :: 0 <= i < |l.cfgs| && Claimed(l.cfgs[i], addr) ==>
            l.cfgs[i].ID() in t'.backends && Find(t'.dict, addr) == Server(t'.backends[l.cfgs[i].ID()]))
      && ((forall i :: 0 <= i < |l.cfgs| ==> !Claimed(l.cfgs[i], addr)) <==>
            Find(t'.dict, addr) == NoServerFound)
  {
    var news, d := ById(l.cfgs), ToLower(addr);
    forall i | 0 <= i < |l.cfgs| ensures Claimed(l.cfgs[i], addr) <==> d in l.cfgs[i].domains {
      ClaimedExact(l.cfgs[i], addr);
    }
    assert RightAt(DoLoad(v, t, l), news, d) by {
      RightAfter(v, t, cur, l, d);
    }
    forall i | 0 <= i < |l.cfgs| && d in l.cfgs[i].domains ensures Has(news, l.cfgs[i].ID(), d) {
      ByIdAt(l.cfgs, i);
    }
    forall id ensures Has(news, id, d) ==> exists i :: 0 <= i < |l.cfgs| && d in l.cfgs[i].domains {
      if id in news { ByIdSound(l.cfgs, id); }
    }
  }

  /** Catalog keys are stored as configured but looked up in lower case: an entry matters to no
      lookup exactly when its key has an upper-case letter. */
  lemma {:induction false} DeadEntryExact(dict: map<string, Backend>, key: string)
    requires key in dict
    ensures (forall addr :: Find(dict - {key}, addr) == Find(dict, addr)) <==>
            exists i :: 0 <= i < |key| && IsUpper(key[i])
  {
    if exists i :: 0 <= i < |key| && IsUpper(key[i]) {
      var i :| 0 <= i < |key| && IsUpper(key[i]);
      forall addr ensures Find(dict - {key}, addr) == Find(dict, addr) {
        LowerHasNoUpper(addr);
      }
    } else {
      FindsLowerCase(dict, key);
      assert LowerOf(key, key);
      LowerOfExact(key, key);
      assert Find(dict - {key}, key) == NoServerFound;
    }
  }
}
