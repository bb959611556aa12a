/** Server configurations and the check that a list of them is usable together. */
module ServerConfigs {

  /** The fields the reload logic looks at; `settings` stands for all the others,
      which only matter to the deep comparison of two versions of a config. */
  datatype ServerConfig = ServerConfig(
    filePath: string, name: string, domains: seq<string>, proxyTo: string, settings: string)
  {
    function ID(): string {
      filePath
    }
  }

  ghost predicate NoRepeats<T>(s: seq<T>) {
    forall i, j :: 0 <= i < j < |s| ==> s[i] != s[j]
  }

  ghost predicate DistinctIds(cfgs: seq<ServerConfig>) {
    forall i, j :: 0 <= i < j < |cfgs| ==> cfgs[i].ID() != cfgs[j].ID()
  }

  /** No domain is claimed twice: neither inside one config nor by two of them. */
  ghost predicate DomainsUnique(cfgs: seq<ServerConfig>) {
    && (forall i :: 0 <= i < |cfgs| ==> NoRepeats(cfgs[i].domains))
    && (forall i, j, d :: 0 <= i < j < |cfgs| && d in cfgs[i].domains ==> d !in cfgs[j].domains)
  }

  ghost predicate Verified(cfgs: seq<ServerConfig>) {
    && (forall i :: 0 <= i < |cfgs| ==> cfgs[i].domains != [] && cfgs[i].proxyTo != "")
    && DomainsUnique(cfgs)
  }

  datatype VerifyError =
    | NoDomains(path: string)
    | NoProxyTo(path: string)
    | DuplicateDomain(domain: string, cfg1Path: string, cfg2Path: string)

  /** The least index of a config among the first `n` that claims `d`, or `n` when none does. */
  function FirstClaim(cfgs: seq<ServerConfig>, d: string, n: nat): (i: nat)
    requires n <= |cfgs|
    ensures i <= n
  {
    if n == 0 then 0
    else
      var i := FirstClaim(cfgs, d, n - 1);
      if i < n - 1 || d in cfgs[n - 1].domains then i else n
  }

  lemma {:induction false} FirstClaimIsLeast(cfgs: seq<ServerConfig>, d: string, n: nat)
    requires n <= |cfgs|
    ensures forall k :: 0 <= k < FirstClaim(cfgs, d, n) ==> d !in cfgs[k].domains
    ensures FirstClaim(cfgs, d, n) < n ==> d in cfgs[FirstClaim(cfgs, d, n)].domains
  {
    if n > 0 {
      FirstClaimIsLeast(cfgs, d, n - 1);
    }
  }

  /** The complaints about the first `j` domains of config `i`: one per domain
      that an earlier config, or an earlier place in the same config, already has. */
  function DuplicatesIn(cfgs: seq<ServerConfig>, i: nat, j: nat): (errs: seq<VerifyError>)
    requires i < |cfgs| && j <= |cfgs[i].domains|
  {
    if j == 0 then []
    else
      var d := cfgs[i].domains[j - 1];
      var first := FirstClaim(cfgs, d, i);
      DuplicatesIn(cfgs, i, j - 1) +
      (if first < i || d in cfgs[i].domains[..j - 1]
       then [DuplicateDomain(d, cfgs[i].filePath, cfgs[first].filePath)] else [])
  }

  function MissingIn(cfg: ServerConfig): seq<VerifyError> {
    (if cfg.domains == [] then [NoDomains(cfg.filePath)] else []) +
    (if cfg.proxyTo == "" then [NoProxyTo(cfg.filePath)] else [])
  }

  function ErrorsOf(cfgs: seq<ServerConfig>, n: nat): seq<VerifyError>
    requires n <= |cfgs|
  {
    if n == 0 then []
    else ErrorsOf(cfgs, n - 1) + MissingIn(cfgs[n - 1]) + DuplicatesIn(cfgs, n - 1, |cfgs[n - 1].domains|)
  }

  function AllErrors(cfgs: seq<ServerConfig>): seq<VerifyError> {
    ErrorsOf(cfgs, |cfgs|)
  }

  lemma {:induction false} NoRepeatsAppend<T>(s: seq<T>, x: T)
    ensures NoRepeats(s + [x]) <==> NoRepeats(s) && x !in s
  {
    var t := s + [x];
    if NoRepeats(t) {
      forall i, j | 0 <= i < j < |s| ensures s[i] != s[j] {
        assert t[i] != t[j];
      }
      forall i | 0 <= i < |s| ensures s[i] != x {
        assert t[i] != t[|s|];
      }
    }
  }

  lemma {:induction false} DomainsUniqueAppend(p: seq<ServerConfig>, cfg: ServerConfig)
    ensures DomainsUnique(p + [cfg]) <==>
            && DomainsUnique(p) && NoRepeats(cfg.domains)
            && forall k, d :: 0 <= k < |p| && d in p[k].domains ==> d !in cfg.domains
  {
    var q := p + [cfg];
    assert forall k :: 0 <= k < |p| ==> q[k] == p[k];
    assert q[|p|] == cfg;
    if DomainsUnique(q) {
      forall i | 0 <= i < |p| ensures NoRepeats(p[i].domains) {
        assert NoRepeats(q[i].domains);
      }
      forall i, j, d | 0 <= i < j < |p| && d in p[i].domains ensures d !in p[j].domains {
        assert d in q[i].domains;
      }
      forall k, d | 0 <= k < |p| && d in p[k].domains ensures d !in cfg.domains {
        assert d in q[k].domains;
      }
    }
  }

  /** None of the first `i` configs claims a domain of `ds`. */
  ghost predicate Unclaimed(cfgs: seq<ServerConfig>, i: nat, ds: seq<string>)
    requires i <= |cfgs|
  {
    forall k :: 0 <= k < i ==> forall d :: d in ds ==> d !in cfgs[k].domains
  }

  lemma {:induction false} UnclaimedAppend(cfgs: seq<ServerConfig>, i: nat, ds: seq<string>, d: string)
    requires i <= |cfgs|
    ensures Unclaimed(cfgs, i, ds + [d]) <==> Unclaimed(cfgs, i, ds) && FirstClaim(cfgs, d, i) == i
  {
    FirstClaimIsLeast(cfgs, d, i);
    assert d in ds + [d];
    assert forall e :: e in ds + [d] <==> e in ds || e == d;
  }

  lemma {:induction false} DuplicatesInEmpty(cfgs: seq<ServerConfig>, i: nat, j: nat)
    requires i < |cfgs| && j <= |cfgs[i].domains|
    ensures DuplicatesIn(cfgs, i, j) == [] <==>
            NoRepeats(cfgs[i].domains[..j]) && Unclaimed(cfgs, i, cfgs[i].domains[..j])
  {
    if j > 0 {
      DuplicatesInEmpty(cfgs, i, j - 1);
      var ds := cfgs[i].domains;
      assert ds[..j] == ds[..j - 1] + [ds[j - 1]];
      NoRepeatsAppend(ds[..j - 1], ds[j - 1]);
      UnclaimedAppend(cfgs, i, ds[..j - 1], ds[j - 1]);
    }
  }

  lemma {:induction false} VerifiedAppend(p: seq<ServerConfig>, cfg: ServerConfig)
    ensures Verified(p + [cfg]) <==>
            Verified(p) && MissingIn(cfg) == [] && NoRepeats(cfg.domains) && Unclaimed(p, |p|, cfg.domains)
  {
    DomainsUniqueAppend(p, cfg);
    var q := p + [cfg];
    assert q[|p|] == cfg && forall k :: 0 <= k < |p| ==> q[k] == p[k];
    assert MissingIn(cfg) == [] <==> cfg.domains != [] && cfg.proxyTo != "";
  }

  lemma {:induction false} ErrorsNext(cfgs: seq<ServerConfig>, n: nat)
    requires n < |cfgs|
    ensures ErrorsOf(cfgs, n + 1) == [] <==>
            && ErrorsOf(cfgs, n) == [] && MissingIn(cfgs[n]) == []
            && NoRepeats(cfgs[n].domains) && Unclaimed(cfgs[..n], n, cfgs[n].domains)
  {
    var ds := cfgs[n].domains;
    DuplicatesInEmpty(cfgs, n, |ds|);
    assert ds[..|ds|] == ds;
    assert Unclaimed(cfgs, n, ds) <==> Unclaimed(cfgs[..n], n, ds);
  }

  /** VerifyConfigs reports nothing exactly on the lists that are verified. */
  lemma {:induction false} NoErrorsIffVerified(cfgs: seq<ServerConfig>, n: nat)
    requires n <= |cfgs|
    ensures ErrorsOf(cfgs, n) == [] <==> Verified(cfgs[..n])
  {
    if n > 0 {
      NoErrorsIffVerified(cfgs, n - 1);
      ErrorsNext(cfgs, n - 1);
      VerifiedAppend(cfgs[..n - 1], cfgs[n - 1]);
      assert cfgs[..n] == cfgs[..n - 1] + [cfgs[n - 1]];
    }
  }

  /** `domains` after the verification loop has seen the first `n` configs and
      the first `j` domains of config `n`. */
  ghost predicate SeenSoFar(cfgs: seq<ServerConfig>, domains: map<string, nat>, n: nat, j: nat)
    requires n < |cfgs| && j <= |cfgs[n].domains|
  {
    forall d :: (d in domains <==> FirstClaim(cfgs, d, n) < n || d in cfgs[n].domains[..j])
                && (d in domains ==> domains[d] == FirstClaim(cfgs, d, n))
  }

  lemma {:induction false} SeenNext(cfgs: seq<ServerConfig>, domains: map<string, nat>, n: nat)
    requires n + 1 < |cfgs| && SeenSoFar(cfgs, domains, n, |cfgs[n].domains|)
    ensures SeenSoFar(cfgs, domains, n + 1, 0)
  {
    assert cfgs[n].domains[..|cfgs[n].domains|] == cfgs[n].domains;
  }

  /** The verification loop. An empty result is the source's nil error. */
  method VerifyConfigs(cfgs: seq<ServerConfig>) returns (errors: seq<VerifyError>)
    ensures errors == [] <==> Verified(cfgs)
    ensures errors == AllErrors(cfgs)
  {
    errors := [];
    var domains: map<string, nat> := map[];
    for index := 0 to |cfgs|
      invariant errors == ErrorsOf(cfgs, index)
      invariant index < |cfgs| ==> SeenSoFar(cfgs, domains, index, 0)
    {
      var cfg := cfgs[index];
      if |cfg.domains| == 0 {
        errors := errors + [NoDomains(cfg.filePath)];
      }
      if cfg.proxyTo == "" {
        errors := errors + [NoProxyTo(cfg.filePath)];
      }
      assert errors == ErrorsOf(cfgs, index) + MissingIn(cfg);
      errors, domains := CheckDomains(cfgs, index, errors, domains);
      if index + 1 < |cfgs| {
        SeenNext(cfgs, domains, index);
      }
    }
    NoErrorsIffVerified(cfgs, |cfgs|);
    assert cfgs[..|cfgs|] == cfgs;
  }

  /** The inner loop of `VerifyConfigs`, over the domains of one config. */
  method CheckDomains(cfgs: seq<ServerConfig>, index: nat, errs: seq<VerifyError>, seen: map<string, nat>)
    returns (errors: seq<VerifyError>, domains: map<string, nat>)
    requires index < |cfgs| && SeenSoFar(cfgs, seen, index, 0)
    ensures errors == errs + DuplicatesIn(cfgs, index, |cfgs[index].domains|)
    ensures SeenSoFar(cfgs, domains, index, |cfgs[index].domains|)
  {
    var cfg := cfgs[index];
    errors, domains := errs, seen;
    for j := 0 to |cfg.domains|
      invariant errors == errs + DuplicatesIn(cfgs, index, j)
      invariant SeenSoFar(cfgs, domains, index, j)
    {
      var domain := cfg.domains[j];
      assert cfg.domains[..j + 1] == cfg.domains[..j] + [domain];
      if domain in domains {
        var otherIndex := domains[domain];
        errors := errors + [DuplicateDomain(domain, cfg.filePath, cfgs[otherIndex].filePath)];
      } else {
        domains := domains[domain := index];
      }
    }
  }

  /** What building a catalog config by config leaves: a later claim overwrites an earlier one. */
  function BuildDomains(cfgs: seq<ServerConfig>): map<string, string> {
    if cfgs == [] then map[]
    else
      var last := cfgs[|cfgs| - 1];
      BuildDomains(cfgs[..|cfgs| - 1]) + (map d | d in last.domains :: last.ID())
  }

  ghost predicate Claims(cfgs: seq<ServerConfig>, d: string, id: string) {
    exists i :: 0 <= i < |cfgs| && cfgs[i].ID() == id && d in cfgs[i].domains
  }

  /** On a list whose domains are unique the built catalog is the claim relation itself. */
  lemma {:induction false} BuildIsClaims(cfgs: seq<ServerConfig>)
    requires DomainsUnique(cfgs)
    ensures forall d, id :: (d in BuildDomains(cfgs) && BuildDomains(cfgs)[d] == id) <==> Claims(cfgs, d, id)
  {
    if cfgs != [] {
      var n := |cfgs| - 1;
      var p, last := cfgs[..n], cfgs[n];
      assert forall i :: 0 <= i < n ==> p[i] == cfgs[i];
      BuildIsClaims(p);
      forall d, id ensures (d in BuildDomains(cfgs) && BuildDomains(cfgs)[d] == id) <==> Claims(cfgs, d, id) {
        if Claims(p, d, id) {
          var i :| 0 <= i < n && p[i].ID() == id && d in p[i].domains;
          assert d in cfgs[i].domains && d !in cfgs[n].domains;
        }
        if Claims(cfgs, d, id) {
          var i :| 0 <= i < |cfgs| && cfgs[i].ID() == id && d in cfgs[i].domains;
          if i < n { assert p[i] == cfgs[i]; assert Claims(p, d, id); }
        }
        if d in last.domains && id == last.ID() { assert cfgs[n].ID() == id; }
      }
    }
  }

  lemma {:induction false} PermutedClaims(a: seq<ServerConfig>, b: seq<ServerConfig>, d: string, id: string)
    requires multiset(a) == multiset(b)
    ensures Claims(a, d, id) ==> Claims(b, d, id)
  {
    if Claims(a, d, id) {
      var i :| 0 <= i < |a| && a[i].ID() == id && d in a[i].domains;
      assert a[i] in multiset(b);
    }
  }

  lemma {:induction false} TwoPlaces<T>(s: seq<T>, i: nat, j: nat)
    requires i < j < |s| && s[i] == s[j]
    ensures multiset(s)[s[i]] >= 2
  {
    assert s == s[..j] + ([s[j]] + s[j + 1..]);
    assert s[i] in s[..j];
  }

  lemma {:induction false} PlacesOfTwo<T>(s: seq<T>, x: T) returns (i: nat, j: nat)
    requires multiset(s)[x] >= 2
    ensures i < j < |s| && s[i] == s[j] == x
  {
    if s[|s| - 1] == x {
      var p := s[..|s| - 1];
      assert s == p + [x];
      assert x in multiset(p);
      i :| 0 <= i < |p| && p[i] == x;
      j := |s| - 1;
    } else {
      assert s == s[..|s| - 1] + [s[|s| - 1]];
      i, j := PlacesOfTwo(s[..|s| - 1], x);
    }
  }

  /** Whether domains are unique does not depend on the order of the files either. */
  lemma {:induction false} UniqueOrderIrrelevant(a: seq<ServerConfig>, b: seq<ServerConfig>)
    requires multiset(a) == multiset(b)
    requires DomainsUnique(a)
    ensures DomainsUnique(b)
  {
    forall i | 0 <= i < |b| ensures NoRepeats(b[i].domains) {
      assert b[i] in multiset(a);
    }
    forall i, j, d | 0 <= i < j < |b| && d in b[i].domains ensures d !in b[j].domains {
      assert b[i] in multiset(a) && b[j] in multiset(a);
      if b[i] == b[j] {
        TwoPlaces(b, i, j);
        var k, l := PlacesOfTwo(a, b[i]);
      } else {
        var k :| 0 <= k < |a| && a[k] == b[i];
        var l :| 0 <= l < |a| && a[l] == b[j];
      }
    }
  }

  /** The catalog built from a verified list does not depend on the order of the files. */
  lemma {:induction false} BuildOrderIrrelevant(a: seq<ServerConfig>, b: seq<ServerConfig>)
    requires multiset(a) == multiset(b)
    requires DomainsUnique(a)
    ensures BuildDomains(a) == BuildDomains(b)
  {
    UniqueOrderIrrelevant(a, b);
    BuildIsClaims(a);
    BuildIsClaims(b);
    forall d, id ensures Claims(a, d, id) <==> Claims(b, d, id) {
      PermutedClaims(a, b, d, id);
      PermutedClaims(b, a, d, id);
    }
    var ma, mb := BuildDomains(a), BuildDomains(b);
    forall d | d in ma ensures d in mb && mb[d] == ma[d] {
      assert Claims(a, d, ma[d]);
    }
    forall d | d in mb ensures d in ma {
      assert Claims(b, d, mb[d]);
    }
  }
}
