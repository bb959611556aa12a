/** Reading the host out of a handshake address and rewriting the address for RealIP 2.4. */
module RealIp {
  import opened GoStrings

  const FORGE_SEPARATOR: Str := [NUL]
  const REALIP_SEPARATOR: Str := [SLASH, SLASH, SLASH]

  predicate IsForgeAddress(addr: Str) {
    |Split(addr, FORGE_SEPARATOR)| > 1
  }

  predicate IsRealIPAddress(addr: Str) {
    |Split(addr, REALIP_SEPARATOR)| > 1
  }

  function ParseServerAddress(addr: Str): Str {
    Split(Split(addr, FORGE_SEPARATOR)[0], REALIP_SEPARATOR)[0]
  }

  /** The address after `UpgradeToOldRealIP_WithTime`; `stamp` is in Unix seconds. */
  function Upgrade(addr: Str, clientAddr: Str, stamp: int): Str {
    if IsRealIPAddress(addr) then addr
    else
      var addrWithForge := SplitN(addr, FORGE_SEPARATOR, 3);
      var upgraded := addrWithForge[0] + REALIP_SEPARATOR + clientAddr + REALIP_SEPARATOR + FormatInt(stamp);
      if |addrWithForge| > 1 then upgraded + [NUL] + addrWithForge[1] + [NUL] else upgraded
  }

  class ServerBoundHandshake {
    var serverAddress: Str

    method UpgradeToOldRealIP(clientAddr: Str, stamp: int)
      modifies this
      ensures serverAddress == Upgrade(old(serverAddress), clientAddr, stamp)
    {
      if IsRealIPAddress(serverAddress) {
        return;
      }
      var addr := serverAddress;
      var addrWithForge := SplitN(addr, FORGE_SEPARATOR, 3);
      addr := addrWithForge[0] + REALIP_SEPARATOR + clientAddr + REALIP_SEPARATOR + FormatInt(stamp);
      if |addrWithForge| > 1 {
        addr := addr + [NUL] + addrWithForge[1] + [NUL];
      }
      serverAddress := addr;
    }
  }

  // ------------------------------------------------- reference definitions

  /** The part before the first NUL. */
  function Host(addr: Str): Str {
    Split(addr, FORGE_SEPARATOR)[0]
  }

  predicate EndsInSlash(s: Str) {
    s != [] && s[|s| - 1] == SLASH
  }

  lemma {:induction false} ForgeIffNul(addr: Str)
    ensures IsForgeAddress(addr) <==> NUL in addr
  {
    IndexNone(addr, NUL);
  }

  lemma {:induction false} HostOf(addr: Str)
    ensures NUL !in Host(addr) && Host(addr) <= addr
    ensures NUL !in addr ==> Host(addr) == addr
    ensures NUL in addr ==> |Host(addr)| < |addr| && addr[|Host(addr)|] == NUL
  {
    PartsLackSeparator(addr, NUL);
    IndexNone(addr, NUL);
    var p := Index(addr, FORGE_SEPARATOR, 0);
    if p != -1 {
      assert addr[p..p + 1] == [addr[p]];
    }
  }

  /** Only the first NUL decides the host. */
  lemma {:induction false} HostOfExtended(a: Str, rest: Str)
    requires NUL !in a
    ensures Host(a + [NUL] + rest) == a
  {
    IndexAfter(a, NUL, rest);
  }

  lemma {:induction false} OccursIn(s: Str, sep: Str, p: int)
    requires sep != [] && OccursAt(s, sep, p)
    ensures Contains(s, sep)
  {
  }

  lemma {:induction false} SlashesAt(s: Str, p: int)
    ensures OccursAt(s, REALIP_SEPARATOR, p) <==>
            0 <= p && p + 3 <= |s| && s[p] == SLASH && s[p + 1] == SLASH && s[p + 2] == SLASH
  {
    if 0 <= p && p + 3 <= |s| {
      assert s[p..p + 3] == [s[p], s[p + 1], s[p + 2]];
    }
  }

  /** In a host without "///" followed by "///", the separator starts early exactly if the host
      ends in '/'. */
  lemma {:induction false} SeparatorIndex(host: Str, rest: Str)
    requires !Contains(host, REALIP_SEPARATOR)
    ensures 0 <= Index(host + REALIP_SEPARATOR + rest, REALIP_SEPARATOR, 0) <= |host|
    ensures Index(host + REALIP_SEPARATOR + rest, REALIP_SEPARATOR, 0) == |host| <==> !EndsInSlash(host)
  {
    var s, n := host + REALIP_SEPARATOR + rest, |host|;
    var p := Index(s, REALIP_SEPARATOR, 0);
    SlashesAt(s, n);
    SlashesAt(s, n - 1);
    SlashesAt(s, p);
    SlashesAt(host, p);
    assert OccursAt(host, REALIP_SEPARATOR, p) ==> Contains(host, REALIP_SEPARATOR);
  }

  /** A host followed by "///": the separator is found there exactly unless the host ends in '/'. */
  lemma {:induction false} FirstSeparatorAfter(host: Str, rest: Str)
    requires !Contains(host, REALIP_SEPARATOR)
    ensures Split(host + REALIP_SEPARATOR + rest, REALIP_SEPARATOR)[0] == host <==> !EndsInSlash(host)
  {
    var s := host + REALIP_SEPARATOR + rest;
    SeparatorIndex(host, rest);
    assert s[..|host|] == host;
  }

  /** The upgraded address in parts: what stands between the host and the forge tag. */
  lemma {:induction false} UpgradeSplits(addr: Str, clientAddr: Str, stamp: int) returns (forge: Str)
    requires !IsRealIPAddress(addr)
    ensures Upgrade(addr, clientAddr, stamp) ==
            (Host(addr) + REALIP_SEPARATOR) + (clientAddr + (REALIP_SEPARATOR + FormatInt(stamp))) + forge
    ensures forge == if IsForgeAddress(addr) then [NUL] + (Split(addr, FORGE_SEPARATOR)[1] + [NUL]) else []
  {
    SplitInThree(addr, FORGE_SEPARATOR);
    var parts := SplitN(addr, FORGE_SEPARATOR, 3);
    var upgraded := parts[0] + REALIP_SEPARATOR + clientAddr + REALIP_SEPARATOR + FormatInt(stamp);
    Regroup(parts[0], REALIP_SEPARATOR, clientAddr, FormatInt(stamp));
    if |parts| > 1 {
      forge := [NUL] + (parts[1] + [NUL]);
      assert upgraded + [NUL] + parts[1] + [NUL] == upgraded + forge;
    } else {
      forge := [];
      assert upgraded + [] == upgraded;
    }
  }

  lemma {:induction false} Regroup(a: Str, b: Str, c: Str, d: Str)
    ensures a + b + c + b + d == (a + b) + (c + (b + d))
  {
  }

  /** The host of some bytes that have a NUL-free front. */
  lemma {:induction false} HostOfFront(front: Str, middle: Str, forge: Str) returns (rest: Str)
    requires NUL !in front && (forge == [] || forge[0] == NUL)
    ensures Host(front + middle + forge) == front + rest
    ensures NUL !in middle ==> rest == middle
  {
    var u := front + middle + forge;
    if NUL in middle {
      HostOf(middle);
      rest := Host(middle);
      var after := middle[|rest| + 1..] + forge;
      assert middle == rest + [NUL] + middle[|rest| + 1..];
      assert u == (front + rest) + [NUL] + after;
      HostOfExtended(front + rest, after);
    } else {
      rest := middle;
      if forge == [] {
        assert u == front + rest;
        HostOf(u);
      } else {
        assert u == (front + rest) + [NUL] + forge[1..];
        HostOfExtended(front + rest, forge[1..]);
      }
    }
  }

  /** The upgraded address up to its own first NUL. */
  lemma {:induction false} HostOfUpgraded(addr: Str, clientAddr: Str, stamp: int) returns (rest: Str)
    requires !IsRealIPAddress(addr)
    ensures Host(Upgrade(addr, clientAddr, stamp)) == Host(addr) + REALIP_SEPARATOR + rest
  {
    var forge := UpgradeSplits(addr, clientAddr, stamp);
    HostOf(addr);
    rest := HostOfFront(
      Host(addr) + REALIP_SEPARATOR, clientAddr + (REALIP_SEPARATOR + FormatInt(stamp)), forge);
  }

  lemma {:induction false} HostHasNoSeparator(addr: Str)
    requires !IsRealIPAddress(addr)
    ensures !Contains(Host(addr), REALIP_SEPARATOR)
  {
    HostOf(addr);
    var p := Index(Host(addr), REALIP_SEPARATOR, 0);
    if p >= 0 {
      assert addr[p..p + 3] == Host(addr)[p..p + 3];
      OccursIn(addr, REALIP_SEPARATOR, p);
    }
  }

  // ------------------------------------------------- the host

  /** `p` is what stands in front of the first NUL and of the first "///", whichever comes first. */
  ghost predicate IsHost(addr: Str, p: Str) {
    && p <= addr && NUL !in p
    && (forall q :: 0 <= q < |p| ==> !OccursAt(addr, REALIP_SEPARATOR, q))
    && (|p| == |addr| || addr[|p|] == NUL || OccursAt(addr, REALIP_SEPARATOR, |p|))
  }

  /** The separator lies in front of the first NUL or behind it. */
  lemma {:induction false} OccursInHost(addr: Str, q: int)
    requires q < |Host(addr)|
    ensures OccursAt(addr, REALIP_SEPARATOR, q) <==> OccursAt(Host(addr), REALIP_SEPARATOR, q)
  {
    HostOf(addr);
    SlashesAt(addr, q);
    SlashesAt(Host(addr), q);
  }

  /** Parsing an address gives that and nothing else. */
  lemma {:induction false} ParseExact(addr: Str, p: Str)
    ensures IsHost(addr, p) <==> p == ParseServerAddress(addr)
  {
    var host := Host(addr);
    HostOf(addr);
    var k := Index(host, REALIP_SEPARATOR, 0);
    var parsed := ParseServerAddress(addr);
    assert parsed == if k == -1 then host else host[..k];
    forall q | 0 <= q < |parsed| ensures !OccursAt(addr, REALIP_SEPARATOR, q) {
      OccursInHost(addr, q);
    }
    if k >= 0 {
      OccursInHost(addr, k);
    }
    assert IsHost(addr, parsed);
    if IsHost(addr, p) {
      HostUnique(addr, p, parsed);
    }
  }

  lemma {:induction false} HostUnique(addr: Str, p: Str, q: Str)
    requires IsHost(addr, p) && IsHost(addr, q)
    ensures p == q
  {
    if |p| < |q| {
      assert false;
    } else if |q| < |p| {
      assert false;
    }
  }

  /** An address that is only a host is returned unchanged. */
  lemma {:induction false} PlainHost(addr: Str)
    requires NUL !in addr && forall q :: !OccursAt(addr, REALIP_SEPARATOR, q)
    ensures ParseServerAddress(addr) == addr
  {
    ParseExact(addr, addr);
  }

  /** An address is RealIP exactly if it has "///" somewhere. */
  lemma {:induction false} RealIPIffSeparator(addr: Str)
    ensures IsRealIPAddress(addr) <==> exists q :: OccursAt(addr, REALIP_SEPARATOR, q)
  {
  }

  // ------------------------------------------------- theorems

  /** The upgrade keeps the parsed host exactly when the address is RealIP already or its host
      does not end in '/', whatever the client address is. */
  lemma {:induction false} UpgradeKeepsHostExact(addr: Str, clientAddr: Str, stamp: int)
    ensures ParseServerAddress(Upgrade(addr, clientAddr, stamp)) == ParseServerAddress(addr)
       <==> IsRealIPAddress(addr) || !EndsInSlash(Host(addr))
  {
    if !IsRealIPAddress(addr) {
      var rest := HostOfUpgraded(addr, clientAddr, stamp);
      HostHasNoSeparator(addr);
      FirstSeparatorAfter(Host(addr), rest);
    }
  }

  /** The upgrade keeps an address forge or not exactly when it changes nothing, the address
      is forge, or the client address has no NUL. */
  lemma {:induction false} UpgradeKeepsForgeExact(addr: Str, clientAddr: Str, stamp: int)
    ensures (IsForgeAddress(Upgrade(addr, clientAddr, stamp)) <==> IsForgeAddress(addr))
       <==> IsRealIPAddress(addr) || IsForgeAddress(addr) || NUL !in clientAddr
  {
    if !IsRealIPAddress(addr) {
      ForgeIffNul(addr);
      var u := Upgrade(addr, clientAddr, stamp);
      ForgeIffNul(u);
      HostOf(addr);
      FormatHasNo(stamp, NUL);
      IndexNone(addr, NUL);
    }
  }

  lemma {:induction false} SeparatorInside(s: Str, a: Str, b: Str)
    requires s == a + REALIP_SEPARATOR + b
    ensures IsRealIPAddress(s)
  {
    SlashesAt(s, |a|);
    OccursIn(s, REALIP_SEPARATOR, |a|);
  }

  lemma {:induction false} UpgradedIsRealIP(addr: Str, clientAddr: Str, stamp: int)
    ensures IsRealIPAddress(Upgrade(addr, clientAddr, stamp))
  {
    if !IsRealIPAddress(addr) {
      var rest := HostOfUpgraded(addr, clientAddr, stamp);
      var u := Upgrade(addr, clientAddr, stamp);
      HostOf(u);
      SeparatorInside(u, Host(addr), u[|Host(addr)| + 3..]);
    }
  }

  /** An upgraded address is RealIP, so upgrading it again changes nothing. */
  lemma {:induction false} UpgradeIdempotent(addr: Str, clientAddr: Str, stamp: int, clientAddr': Str, stamp': int)
    ensures IsRealIPAddress(Upgrade(addr, clientAddr, stamp))
    ensures Upgrade(Upgrade(addr, clientAddr, stamp), clientAddr', stamp') == Upgrade(addr, clientAddr, stamp)
  {
    UpgradedIsRealIP(addr, clientAddr, stamp);
  }

  /** What the server finds in an upgraded address: the host, the client address and the time
      between separators, and for a forge address its first tag between two NULs. */
  lemma {:induction false} UpgradedParts(addr: Str, clientAddr: Str, stamp: int)
    requires !IsRealIPAddress(addr) && NUL !in clientAddr
    ensures Split(Upgrade(addr, clientAddr, stamp), FORGE_SEPARATOR) ==
      (var front := (Host(addr) + REALIP_SEPARATOR) + (clientAddr + (REALIP_SEPARATOR + FormatInt(stamp)));
       if IsForgeAddress(addr) then [front, Split(addr, FORGE_SEPARATOR)[1], []] else [front])
  {
    var front := (Host(addr) + REALIP_SEPARATOR) + (clientAddr + (REALIP_SEPARATOR + FormatInt(stamp)));
    var forge := UpgradeSplits(addr, clientAddr, stamp);
    assert NUL !in front by {
      HostOf(addr);
      FormatHasNo(stamp, NUL);
    }
    if IsForgeAddress(addr) {
      PartsLackSeparator(addr, NUL);
      SplitThree(front, Split(addr, FORGE_SEPARATOR)[1]);
    } else {
      IndexNone(front, NUL);
      assert front + [] == front;
    }
  }

  lemma {:induction false} SplitThree(a: Str, b: Str)
    requires NUL !in a && NUL !in b
    ensures Split(a + ([NUL] + (b + [NUL])), FORGE_SEPARATOR) == [a, b, []]
  {
    JoinThree(a, b);
    SplitOfJoin([a, b, []], NUL);
  }

  lemma {:induction false} JoinThree(a: Str, b: Str)
    ensures Join([a, b, []], FORGE_SEPARATOR) == a + ([NUL] + (b + [NUL]))
  {
    assert [a, b, []][1..] == [b, []] && [b, []][1..] == [[]];
    assert Join([[]], FORGE_SEPARATOR) == [];
    assert Join([b, []], FORGE_SEPARATOR) == b + [NUL] + [];
    assert Join([a, b, []], FORGE_SEPARATOR) == a + [NUL] + Join([b, []], FORGE_SEPARATOR);
  }
}
