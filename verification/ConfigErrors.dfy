/** Which complaints a list of configs gets, by what is in the list. */
module ConfigErrors {
  import opened ServerConfigs

  /** Config `f` is the first one that lists `d`. */
  ghost predicate FirstWith(cfgs: seq<ServerConfig>, d: string, f: nat) {
    f < |cfgs| && d in cfgs[f].domains && forall k :: 0 <= k < f ==> d !in cfgs[k].domains
  }

  /** The domain at place `j` of config `i` is `d`, and config `f` or an earlier place has it already. */
  ghost predicate AgainAt(cfgs: seq<ServerConfig>, i: nat, j: nat, d: string, f: nat) {
    && i < |cfgs| && j < |cfgs[i].domains| && cfgs[i].domains[j] == d
    && FirstWith(cfgs, d, f) && (f < i || (f == i && d in cfgs[i].domains[..j]))
  }

  ghost predicate Again(cfgs: seq<ServerConfig>, i: nat, j: nat, d: string, p: string, q: string) {
    i < |cfgs| && cfgs[i].filePath == p && exists f: nat :: AgainAt(cfgs, i, j, d, f) && cfgs[f].filePath == q
  }

  lemma {:induction false} FirstIs(cfgs: seq<ServerConfig>, i: nat, j: nat, d: string, f: nat)
    requires AgainAt(cfgs, i, j, d, f)
    ensures FirstClaim(cfgs, d, i) == f
  {
    FirstClaimIsLeast(cfgs, d, i);
  }

  lemma {:induction false} PlaceExact(cfgs: seq<ServerConfig>, i: nat, j: nat, d: string, p: string, q: string)
    requires i < |cfgs| && j < |cfgs[i].domains|
    ensures DuplicateDomain(d, p, q) in DuplicatesIn(cfgs, i, j + 1) <==>
            DuplicateDomain(d, p, q) in DuplicatesIn(cfgs, i, j) || Again(cfgs, i, j, d, p, q)
  {
    var x := cfgs[i].domains[j];
    var first := FirstClaim(cfgs, x, i);
    FirstClaimIsLeast(cfgs, x, i);
    if first < i || x in cfgs[i].domains[..j] {
      assert AgainAt(cfgs, i, j, x, first);
      assert Again(cfgs, i, j, x, cfgs[i].filePath, cfgs[first].filePath);
    }
    if Again(cfgs, i, j, d, p, q) {
      var f: nat :| AgainAt(cfgs, i, j, d, f) && cfgs[f].filePath == q;
      FirstIs(cfgs, i, j, d, f);
    }
  }

  lemma {:induction false} DuplicatesInExact(cfgs: seq<ServerConfig>, i: nat, n: nat, d: string, p: string, q: string)
    requires i < |cfgs| && n <= |cfgs[i].domains|
    ensures DuplicateDomain(d, p, q) in DuplicatesIn(cfgs, i, n) <==>
            exists j :: 0 <= j < n && Again(cfgs, i, j, d, p, q)
  {
    if n > 0 {
      DuplicatesInExact(cfgs, i, n - 1, d, p, q);
      PlaceExact(cfgs, i, n - 1, d, p, q);
    }
  }

  ghost predicate AgainIn(cfgs: seq<ServerConfig>, i: nat, d: string, p: string, q: string) {
    i < |cfgs| && exists j :: 0 <= j < |cfgs[i].domains| && Again(cfgs, i, j, d, p, q)
  }

  lemma {:induction false} OnlyDuplicates(cfgs: seq<ServerConfig>, i: nat, j: nat)
    requires i < |cfgs| && j <= |cfgs[i].domains|
    ensures forall e :: e in DuplicatesIn(cfgs, i, j) ==> e.DuplicateDomain?
  {
    if j > 0 {
      OnlyDuplicates(cfgs, i, j - 1);
    }
  }

  /** Config `i` is the reason for the error. */
  ghost predicate Reason(cfgs: seq<ServerConfig>, i: nat, e: VerifyError) {
    i < |cfgs| &&
    match e
    case NoDomains(p) => cfgs[i].filePath == p && cfgs[i].domains == []
    case NoProxyTo(p) => cfgs[i].filePath == p && cfgs[i].proxyTo == ""
    case DuplicateDomain(d, p, q) => AgainIn(cfgs, i, d, p, q)
  }

  lemma {:induction false} OneConfigExact(cfgs: seq<ServerConfig>, i: nat, e: VerifyError)
    requires i < |cfgs|
    ensures e in MissingIn(cfgs[i]) + DuplicatesIn(cfgs, i, |cfgs[i].domains|) <==> Reason(cfgs, i, e)
  {
    OnlyDuplicates(cfgs, i, |cfgs[i].domains|);
    match e
    case DuplicateDomain(d, p, q) => DuplicatesInExact(cfgs, i, |cfgs[i].domains|, d, p, q);
    case _ =>
  }

  function Flat<T>(parts: seq<seq<T>>): seq<T> {
    if parts == [] then [] else Flat(parts[..|parts| - 1]) + parts[|parts| - 1]
  }

  lemma {:induction false} InFlat<T>(parts: seq<seq<T>>, x: T)
    ensures x in Flat(parts) <==> exists i :: 0 <= i < |parts| && x in parts[i]
  {
    if parts != [] {
      InFlat(parts[..|parts| - 1], x);
    }
  }

  lemma {:induction false} Associates<T>(a: seq<T>, b: seq<T>, c: seq<T>)
    ensures a + b + c == a + (b + c)
  {
  }

  /** The complaints about the first `n` configs, one by one. */
  function PartsOf(cfgs: seq<ServerConfig>, n: nat): (parts: seq<seq<VerifyError>>)
    requires n <= |cfgs|
    ensures |parts| == n
  {
    seq(n, i requires 0 <= i < n => MissingIn(cfgs[i]) + DuplicatesIn(cfgs, i, |cfgs[i].domains|))
  }

  lemma {:induction false} ErrorsInParts(cfgs: seq<ServerConfig>, n: nat)
    requires n <= |cfgs|
    ensures ErrorsOf(cfgs, n) == Flat(PartsOf(cfgs, n))
  {
    if n > 0 {
      ErrorsInParts(cfgs, n - 1);
      var i, parts := n - 1, PartsOf(cfgs, n);
      assert parts[..i] == PartsOf(cfgs, i);
      Associates(ErrorsOf(cfgs, i), MissingIn(cfgs[i]), DuplicatesIn(cfgs, i, |cfgs[i].domains|));
    }
  }

  /** What is reported is exactly what there is a reason for: a config without domains, one without
      `proxyTo`, and a domain that comes a second time in the config with the first path while the
      first config that lists it has the second path. */
  lemma {:induction false} ErrorsExact(cfgs: seq<ServerConfig>, e: VerifyError)
    ensures e in AllErrors(cfgs) <==> exists i :: 0 <= i < |cfgs| && Reason(cfgs, i, e)
  {
    var parts := PartsOf(cfgs, |cfgs|);
    ErrorsInParts(cfgs, |cfgs|);
    InFlat(parts, e);
    forall i | 0 <= i < |cfgs| ensures e in parts[i] <==> Reason(cfgs, i, e) {
      OneConfigExact(cfgs, i, e);
    }
  }

  // ------------------------------------------------- how many

  function Listed(cfgs: seq<ServerConfig>, n: nat): nat
    requires n <= |cfgs|
  {
    if n == 0 then 0 else Listed(cfgs, n - 1) + |cfgs[n - 1].domains|
  }

  function Distinct(cfgs: seq<ServerConfig>, n: nat): set<string>
    requires n <= |cfgs|
  {
    if n == 0 then {} else Distinct(cfgs, n - 1) + Upto(cfgs[n - 1].domains, |cfgs[n - 1].domains|)
  }

  function Upto(ds: seq<string>, j: nat): set<string>
    requires j <= |ds|
  {
    if j == 0 then {} else Upto(ds, j - 1) + {ds[j - 1]}
  }

  lemma {:induction false} UptoIs(ds: seq<string>, j: nat, d: string)
    requires j <= |ds|
    ensures d in Upto(ds, j) <==> d in ds[..j]
  {
    if j > 0 {
      UptoIs(ds, j - 1, d);
      assert ds[..j] == ds[..j - 1] + [ds[j - 1]];
    }
  }

  function Duplicates(errors: seq<VerifyError>): nat {
    if errors == [] then 0
    else Duplicates(errors[..|errors| - 1]) + if errors[|errors| - 1].DuplicateDomain? then 1 else 0
  }

  lemma {:induction false} DuplicatesAppend(a: seq<VerifyError>, b: seq<VerifyError>)
    ensures Duplicates(a + b) == Duplicates(a) + Duplicates(b)
  {
    if b == [] {
      assert a + b == a;
    } else {
      var c := b[..|b| - 1];
      assert (a + b)[..|a + b| - 1] == a + c;
      DuplicatesAppend(a, c);
    }
  }

  lemma {:induction false} DistinctIs(cfgs: seq<ServerConfig>, n: nat, d: string)
    requires n <= |cfgs|
    ensures d in Distinct(cfgs, n) <==> FirstClaim(cfgs, d, n) < n
  {
    if n > 0 {
      var ds := cfgs[n - 1].domains;
      DistinctIs(cfgs, n - 1, d);
      UptoIs(ds, |ds|, d);
      assert ds[..|ds|] == ds;
    }
  }

  lemma {:induction false} OnePlaceCounts(cfgs: seq<ServerConfig>, i: nat, j: nat)
    requires i < |cfgs| && j < |cfgs[i].domains|
    ensures var d := cfgs[i].domains[j];
      Duplicates(DuplicatesIn(cfgs, i, j + 1)) == Duplicates(DuplicatesIn(cfgs, i, j)) +
        if FirstClaim(cfgs, d, i) < i || d in cfgs[i].domains[..j] then 1 else 0
  {
    var d, errs := cfgs[i].domains[j], DuplicatesIn(cfgs, i, j);
    var e := DuplicateDomain(d, cfgs[i].filePath, cfgs[FirstClaim(cfgs, d, i)].filePath);
    assert (errs + [e])[..|errs|] == errs;
    assert errs + [] == errs;
  }

  lemma {:induction false} OneMore(a: set<string>, b: set<string>, d: string)
    ensures |a + (b + {d})| == |a + b| + if d in a || d in b then 0 else 1
  {
    if d in a || d in b {
      assert a + (b + {d}) == a + b;
    } else {
      assert a + (b + {d}) == (a + b) + {d};
    }
  }

  /** The duplicates of config `i` and the distinct domains, up to place `j` of it. */
  function Balance(cfgs: seq<ServerConfig>, i: nat, j: nat): nat
    requires i < |cfgs| && j <= |cfgs[i].domains|
  {
    Duplicates(DuplicatesIn(cfgs, i, j)) + |Distinct(cfgs, i) + Upto(cfgs[i].domains, j)|
  }

  lemma {:induction false} OneConfigCounts(cfgs: seq<ServerConfig>, i: nat, j: nat)
    requires i < |cfgs| && j <= |cfgs[i].domains|
    ensures Balance(cfgs, i, j) == |Distinct(cfgs, i)| + j
    decreases j
  {
    if j == 0 {
      assert Distinct(cfgs, i) + {} == Distinct(cfgs, i);
    } else {
      OneConfigCounts(cfgs, i, j - 1);
      OnePlaceMore(cfgs, i, j - 1);
    }
  }

  lemma {:induction false} OnePlaceMore(cfgs: seq<ServerConfig>, i: nat, j: nat)
    requires i < |cfgs| && j < |cfgs[i].domains|
    ensures Balance(cfgs, i, j + 1) == Balance(cfgs, i, j) + 1
  {
    var ds := cfgs[i].domains;
    OnePlaceCounts(cfgs, i, j);
    UptoIs(ds, j, ds[j]);
    DistinctIs(cfgs, i, ds[j]);
    OneMore(Distinct(cfgs, i), Upto(ds, j), ds[j]);
  }

  /** Every listed domain is either new or reported once: the duplicates reported and the distinct
      domains add up to the domains listed. */
  lemma {:induction false} DuplicatesConserved(cfgs: seq<ServerConfig>, n: nat)
    requires n <= |cfgs|
    ensures Duplicates(ErrorsOf(cfgs, n)) + |Distinct(cfgs, n)| == Listed(cfgs, n)
  {
    if n > 0 {
      var cfg := cfgs[n - 1];
      DuplicatesConserved(cfgs, n - 1);
      OneConfigCounts(cfgs, n - 1, |cfg.domains|);
      var missing, again := MissingIn(cfg), DuplicatesIn(cfgs, n - 1, |cfg.domains|);
      DuplicatesAppend(ErrorsOf(cfgs, n - 1) + missing, again);
      DuplicatesAppend(ErrorsOf(cfgs, n - 1), missing);
      NoneMissingIsDuplicate(cfg);
    }
  }

  lemma {:induction false} NoneMissingIsDuplicate(cfg: ServerConfig)
    ensures Duplicates(MissingIn(cfg)) == 0
  {
    var a := if cfg.domains == [] then [NoDomains(cfg.filePath)] else [];
    var b := if cfg.proxyTo == "" then [NoProxyTo(cfg.filePath)] else [];
    DuplicatesAppend(a, b);
    assert a != [] ==> a[..0] == [];
    assert b != [] ==> b[..0] == [];
  }
}
