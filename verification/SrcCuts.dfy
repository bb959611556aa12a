/** What the second codec makes of input that ends too early. Its reader takes the end for a zero
    byte and a short read for one filled up with zeros, so nothing is reported; these are the
    exact losses. */
module SrcCuts {
  import opened GoStrings
  import opened Leb128
  import M = McType
  import opened SrcCodec

  // ------------------------------------------------- a VarInt

  /** Continuation bytes up to `k`, then the end or a zero byte: the groups before it count. */
  lemma {:induction false} EndsAt(s: Str, k: nat)
    requires k <= |s| && (forall i :: 0 <= i < k ==> s[i] >= 128) && (k < |s| ==> s[k] == 0)
    requires GroupSum(s, k) < TWO_63
    ensures DecodeVarInt(s) == (GroupSum(s, k), if k < |s| then k + 1 else k)
  {
    FirstEndAt(s, k);
    if k < |s| {
      GroupSumZero(s, k);
    }
  }

  /** The first `k` bytes of an encoding and what comes after them instead. */
  lemma {:induction false} CutAt(v: int, k: nat, s: Str)
    requires 0 <= v < TWO_63 && k < |Encode(v)| && k <= |s| && s[..k] == Encode(v)[..k]
    ensures forall i :: 0 <= i < k ==> s[i] >= 128
    ensures GroupSum(s, k) == Low(v, k) <= v
  {
    var e := Encode(v);
    EncodeGroups(v);
    FirstEndIs(e);
    LowGroups(v, k);
    LowExact(v, k);
    assert e[..k] + e[k..] == e && s[..k] + s[k..] == s;
    GroupSumLocal(e[..k], e[k..], k);
    GroupSumLocal(s[..k], s[k..], k);
    forall i | 0 <= i < k ensures s[i] >= 128 {
      assert s[..k][i] == e[..k][i] == e[i];
    }
  }

  /** A cut VarInt is read as the groups that are left of it. */
  lemma {:induction false} CutVarInt(v: int, k: nat)
    requires 0 <= v < TWO_63 && k <= |Encode(v)|
    ensures DecodeVarInt(Encode(v)[..k]) == (Low(v, k), k)
  {
    var s, p := Encode(v), Encode(v)[..k];
    if k == |s| {
      assert p + [] == s == p;
      VarIntRoundTrip(v, []);
      LowExact(v, k);
    } else {
      CutAt(v, k, p);
      EndsAt(p, k);
    }
  }

  /** So it comes back exactly if nothing was cut off or the number is zero. */
  lemma {:induction false} CutVarIntExact(v: int, k: nat)
    requires 0 <= v < TWO_63 && k <= |Encode(v)|
    ensures DecodeVarInt(Encode(v)[..k]).0 == v <==> k == |Encode(v)| || v == 0
  {
    CutVarInt(v, k);
    LowExact(v, k);
  }

  /** A VarInt whose end is overwritten with zeros comes back exactly if that changes nothing. */
  lemma {:induction false} FilledVarInt(v: int, k: nat, rest: Str)
    requires 0 <= v < TWO_63 && k <= |Encode(v)|
    ensures DecodeVarInt(Fill(Encode(v), k) + rest).0 == v <==> Fill(Encode(v), k) == Encode(v)
    ensures Fill(Encode(v), k) == Encode(v) ==> DecodeVarInt(Fill(Encode(v), k) + rest) == (v, |Encode(v)|)
  {
    var e := Encode(v);
    VarIntRoundTrip(v, rest);
    if k < |e| {
      ZeroEnds(v, k, rest);
      LowExact(v, k);
      assert v == 0 ==> Fill(e, k) == [0];
    } else {
      assert Fill(e, k) == e;
    }
  }

  lemma {:induction false} ZeroEnds(v: int, k: nat, rest: Str)
    requires 0 <= v < TWO_63 && k < |Encode(v)|
    ensures DecodeVarInt(Fill(Encode(v), k) + rest).0 == Low(v, k)
  {
    var s := Fill(Encode(v), k) + rest;
    CutAt(v, k, s);
    EndsAt(s, k);
  }

  // ------------------------------------------------- a handshake with its end set to zero

  function Front(k: nat, n: nat): nat {
    if k < n then k else n
  }

  function Back(k: nat, n: nat): nat {
    if k < n then 0 else k - n
  }

  lemma {:induction false} FillParts(a: Str, b: Str, k: nat)
    requires k <= |a| + |b|
    ensures Fill(a + b, k) == Fill(a, Front(k, |a|)) + Fill(b, Back(k, |a|))
  {
  }

  lemma {:induction false} FillExact(s: Str, k: nat)
    requires k <= |s|
    ensures Fill(s, k) == s <==> forall i :: k <= i < |s| ==> s[i] == 0
  {
    if Fill(s, k) == s {
      forall i | k <= i < |s| ensures s[i] == 0 {
        assert Fill(s, k)[i] == 0;
      }
    }
  }

  lemma {:induction false} PortBytes(port: nat)
    requires port < M.MOD_16
    ensures M.BigEndian(port, 2) == [port / 256, port % 256]
  {
    assert M.BigEndian(port, 2) == M.BigEndian(port / 256, 1) + [port % 256];
    assert M.BigEndian(port / 256, 1) == M.BigEndian(port / 256 / 256, 0) + [port / 256 % 256];
  }

  /** Two bytes that decode to a port are the port's bytes. */
  lemma {:induction false} PortForced(b: Str, port: int)
    requires -0x8000 <= port < 0x8000 && |b| == 2
    ensures M.ToI16((b[0] as int) * 256 + b[1]) == port ==> b == M.BigEndian(port % M.MOD_16, 2)
  {
    PortBytes(port % M.MOD_16);
  }

  /** The same port and state can only come from an unchanged end. */
  lemma {:induction false} TailForced(pk: Handshake, k: nat, id: byte, version: int, address: Str)
    requires -0x8000 <= pk.serverPort < 0x8000 && 0 <= pk.nextState < TWO_63 && k <= |Tail(pk)|
    requires Matches(DecodeTail(Fill(Tail(pk), k), id, version, address), pk)
    ensures Fill(Tail(pk), k) == Tail(pk)
  {
    var p, e := M.BigEndian(pk.serverPort % M.MOD_16, 2), Encode(pk.nextState);
    FillParts(p, e, k);
    var fp, fe := Fill(p, Front(k, 2)), Fill(e, Back(k, 2));
    var s := Fill(Tail(pk), k);
    assert s == fp + fe && s[0] == fp[0] && s[1] == fp[1] && s[2..] == fe + [];
    PortForced(fp, pk.serverPort);
    FilledVarInt(pk.nextState, Back(k, 2), []);
  }

  /** What is decoded with the address, port and state of `pk` has the length of its address in
      front, then that address, and then a tail with that port and state. */
  lemma {:induction false} AddressPieces(
    pk: Handshake, s: Str, l: Str, a: Str, t: Str, id: byte, version: int)
    requires s == l + (a + t) && |a| == |pk.serverAddress| && |t| >= 1
    requires DecodeVarInt(s).0 == |a| ==> DecodeVarInt(s) == (|a|, |l|)
    requires Matches(DecodeAddressAndTail(s, id, version), pk)
    ensures DecodeVarInt(s).0 == |a| && a == pk.serverAddress && Matches(DecodeTail(t, id, version, a), pk)
  {
    assert DecodeVarInt(s).0 == |a|;
    assert s[|l|..] == a + t;
    assert (a + t)[..|a|] == a;
    assert s[|l| + |a|..] == t;
  }

  /** Decoded, with the address, port and state of `pk`. */
  predicate Matches(r: M.Read<Handshake>, pk: Handshake) {
    r.Ok? && r.value.serverAddress == pk.serverAddress
    && r.value.serverPort == pk.serverPort && r.value.nextState == pk.nextState
  }

  /** The same address, port and state can only come from unchanged bytes after the version. */
  lemma {:induction false} AddressForced(pk: Handshake, k: nat, rest: Str, id: byte, version: int)
    requires -0x8000 <= pk.serverPort < 0x8000 && 0 <= pk.nextState < TWO_63 && |pk.serverAddress| < TWO_63
    requires rest == Encode(|pk.serverAddress|) + (pk.serverAddress + Tail(pk)) && k <= |rest|
    requires Matches(DecodeAddressAndTail(Fill(rest, k), id, version), pk)
    ensures Fill(rest, k) == rest
  {
    var l, a, t := Encode(|pk.serverAddress|), pk.serverAddress, Tail(pk);
    var k', k'' := Back(k, |l|), Back(Back(k, |l|), |a|);
    FillParts(l, a + t, k);
    FillParts(a, t, k');
    var fl, fa, ft := Fill(l, Front(k, |l|)), Fill(a, Front(k', |a|)), Fill(t, k'');
    FilledVarInt(|a|, Front(k, |l|), fa + ft);
    AddressPieces(pk, Fill(rest, k), fl, fa, ft, id, version);
    TailForced(pk, k'', id, version, fa);
  }

  /** A handshake whose end is overwritten with zeros is read as itself exactly if that changes
      nothing. */
  lemma {:induction false} FilledHandshakeExact(pk: Handshake, k: nat)
    requires pk.Fits() && k <= |Body(pk)|
    ensures DecodesTo(Fill(Body(pk), k), pk) <==> Fill(Body(pk), k) == Body(pk)
  {
    BodyRoundTrip(pk);
    if DecodesTo(Fill(Body(pk), k), pk) {
      var v, rest := Encode(pk.protocolVersion), Encode(|pk.serverAddress|) + (pk.serverAddress + Tail(pk));
      BodyInTwo(pk, v, rest);
      var k' := Back(k, 1);
      FillParts([pk.packetId], v + rest, k);
      FillParts(v, rest, k');
      var fv, fr := Fill(v, Front(k', |v|)), Fill(rest, Back(k', |v|));
      FilledVarInt(pk.protocolVersion, Front(k', |v|), fr);
      VersionPieces(pk, Fill(Body(pk), k), Fill([pk.packetId], Front(k, 1)), fv, fr);
      AddressForced(pk, Back(k', |v|), rest, pk.packetId, pk.protocolVersion);
    }
  }

  predicate DecodesTo(s: Str, pk: Handshake) {
    DecodeHandshake(s).Ok? && DecodeHandshake(s).value == pk
  }

  lemma {:induction false} BodyInTwo(pk: Handshake, v: Str, rest: Str)
    requires pk.Fits() && v == Encode(pk.protocolVersion)
    requires rest == Encode(|pk.serverAddress|) + (pk.serverAddress + Tail(pk))
    ensures Body(pk) == [pk.packetId] + (v + rest) && |pk.serverAddress| < TWO_63
  {
    BodyParts(pk, v, EncodeString(pk.serverAddress), Tail(pk));
    assert Encode(|pk.serverAddress|) + pk.serverAddress + Tail(pk) == rest;
  }

  /** `v` is what is read of the version, if the right version is read. */
  predicate ReadsVersion(v: Str, rest: Str, version: int) {
    DecodeVarInt(v + rest).0 == version ==> DecodeVarInt(v + rest) == (version, |v|)
  }

  lemma {:induction false} VersionPieces(pk: Handshake, s: Str, i: Str, v: Str, rest: Str)
    requires s == i + (v + rest) && |i| == 1
    ensures DecodesTo(s, pk) && ReadsVersion(v, rest, pk.protocolVersion) ==>
      && i == [pk.packetId] && DecodeVarInt(v + rest).0 == pk.protocolVersion
      && Matches(DecodeAddressAndTail(rest, pk.packetId, pk.protocolVersion), pk)
  {
    if DecodesTo(s, pk) && ReadsVersion(v, rest, pk.protocolVersion) {
      assert s[1..] == v + rest && s[0] == i[0];
      IdAndVersion(s, pk);
      assert (v + rest)[|v|..] == rest;
    }
  }

  lemma {:induction false} IdAndVersion(s: Str, pk: Handshake)
    requires s != [] && DecodesTo(s, pk)
    ensures s[0] == pk.packetId && DecodeVarInt(s[1..]).0 == pk.protocolVersion
    ensures Matches(DecodeAddressAndTail(s[1..][DecodeVarInt(s[1..]).1..], pk.packetId, pk.protocolVersion), pk)
  {
    AddressKeeps(s[1..][DecodeVarInt(s[1..]).1..], s[0], DecodeVarInt(s[1..]).0);
  }

  lemma {:induction false} AddressKeeps(s: Str, id: byte, version: int)
    requires DecodeAddressAndTail(s, id, version).Ok?
    ensures DecodeAddressAndTail(s, id, version).value.packetId == id
    ensures DecodeAddressAndTail(s, id, version).value.protocolVersion == version
  {
  }

  // ------------------------------------------------- a frame cut short

  /** What is read of a frame after `c` of its bytes: with none of the body nothing is accepted,
      unless what is left of the length is zero; with some of it the rest is zeros. */
  lemma {:induction false} CutFrameData(body: Str, c: nat)
    requires 1 <= |body| < TWO_63 && c <= |Encode(|body|) + body|
    ensures var e, s := |Encode(|body|)|, (Encode(|body|) + body)[..c];
      DecodePacketData(s) ==
        if c > e then M.Ok((|body|, Fill(body, c - e)), c)
        else if Low(|body|, c) == 0 then M.Ok((0, []), c)
        else M.Err(M.EOF)
    ensures var e := |Encode(|body|)|;
      c > e ==> (Fill(body, c - e) == body <==> forall i :: c - e <= i < |body| ==> body[i] == 0)
  {
    var e, s := Encode(|body|), (Encode(|body|) + body)[..c];
    if c > |e| {
      var rest := body[..c - |e|];
      FillExact(body, c - |e|);
      assert s == e + rest;
      VarIntRoundTrip(|body|, rest);
      assert s[|e|..] == rest;
      if c - |e| == |body| {
        assert rest == body && body[..|body|] == body && Fill(body, |body|) == body;
      }
    } else {
      assert s == e[..c];
      CutVarInt(|body|, c);
      assert s[c..] == [];
    }
  }

  /** The stream is accepted as a frame and its data is read as `pk`. */
  predicate AcceptedAs(s: Str, pk: Handshake) {
    DecodePacketData(s).Ok? && DecodesTo(DecodePacketData(s).value.1, pk)
  }

  lemma {:induction false} NothingIsNoHandshake(pk: Handshake)
    ensures !DecodesTo([], pk)
  {
    var s: Str :| s == [];
    assert FirstEnd(s) == 0 && GroupSum(s, 0) == 0 && s[0..] == s;
    assert DecodeVarInt(s) == (0, 0);
    assert s[0..][0..] == s;
  }

  /** A frame that ends too early is accepted as the handshake that was written exactly if some
      of its body is there and everything that is missing is zero. */
  lemma {:induction false} CutHandshakeExact(pk: Handshake, c: nat)
    requires pk.Fits() && c <= |Encode(|Body(pk)|) + Body(pk)|
    ensures var e, body := |Encode(|Body(pk)|)|, Body(pk);
      AcceptedAs((Encode(|body|) + body)[..c], pk) <==> c > e && forall i :: c - e <= i < |body| ==> body[i] == 0
  {
    var e, body := |Encode(|Body(pk)|)|, Body(pk);
    CutFrameData(body, c);
    if c > e {
      FilledHandshakeExact(pk, c - e);
    } else {
      NothingIsNoHandshake(pk);
    }
  }

  lemma {:induction false} LastByteIsState(pk: Handshake, body: Str, body': Str)
    requires 0 <= pk.nextState < 128 && body == Body(pk) && body' == Body(pk.(nextState := 0))
    ensures |body| == |body'| >= 2 && body[..|body| - 1] == body'[..|body| - 1] && body'[|body| - 1] == 0
  {
  }

  /** What the writer writes, without its last byte. */
  function AllButLast(pk: Handshake): Str
    requires Body(pk) != []
  {
    var out := Encode(|Body(pk)|) + Body(pk);
    out[..|out| - 1]
  }

  lemma {:induction false} LastByteFilled(body: Str, body': Str)
    requires 2 <= |body| == |body'| < TWO_63 && body'[|body| - 1] == 0
    requires body[..|body| - 1] == body'[..|body| - 1]
    ensures var out := Encode(|body|) + body;
      DecodePacketData(out[..|out| - 1]) == M.Ok((|body|, body'), |out| - 1)
  {
    CutFrameData(body, |Encode(|body|)| + |body| - 1);
    assert Fill(body, |body| - 1) == body';
  }

  lemma {:induction false} LastByteData(pk: Handshake, body: Str, body': Str)
    requires pk.Fits() && pk.nextState < 128 && body == Body(pk) && body' == Body(pk.(nextState := 0))
    ensures body != [] && DecodePacketData(AllButLast(pk)) == M.Ok((|body|, body'), |Encode(|body|)| + |body| - 1)
  {
    LastByteIsState(pk, body, body');
    LastByteFilled(body, body');
  }

  /** In particular a frame that lacks only its last byte, a state below 128, is accepted as the
      same handshake with the state zero. */
  lemma {:induction false} LastByteLost(pk: Handshake)
    requires pk.Fits() && pk.nextState < 128
    ensures AcceptedAs(AllButLast(pk), pk.(nextState := 0))
    ensures AcceptedAs(AllButLast(pk), pk) <==> pk.nextState == 0
  {
    var pk' := pk.(nextState := 0);
    LastByteData(pk, Body(pk), Body(pk'));
    assert DecodesTo(Body(pk'), pk') by {
      BodyRoundTrip(pk');
    }
  }

  lemma {:induction false} ShortBody(pk: Handshake)
    requires 0 <= pk.protocolVersion < 128 && 0 <= pk.nextState < 128 && |pk.serverAddress| < 128
    requires -0x8000 <= pk.serverPort < 0x8000
    ensures pk.Fits()
  {
    assert |Encode(pk.protocolVersion)| == |Encode(pk.nextState)| == |Encode(|pk.serverAddress|)| == 1;
  }

  /** Concretely: the login of a client of version 47 to "ab" on port 25565, its last byte lost,
      is accepted as a handshake of state 0. */
  lemma {:induction false} LostLogin() returns (pk: Handshake)
    ensures pk == Handshake(0, 47, [97, 98], 25565, 2)
    ensures Body(pk) != [] && !AcceptedAs(AllButLast(pk), pk) && AcceptedAs(AllButLast(pk), pk.(nextState := 0))
  {
    pk :| pk == Handshake(0, 47, [97, 98], 25565, 2);
    ShortBody(pk);
    LastByteLost(pk);
  }

  /** And of the number 300 the first of its two bytes is read as 44. */
  lemma {:induction false} LostByte() returns (v: nat)
    ensures v == 300 && |Encode(v)| == 2 && Encode(v)[..1] == [0xac] && DecodeVarInt(Encode(v)[..1]) == (44, 1)
  {
    v :| v == 300;
    assert Encode(v) == [v % 128 + 128] + Encode(v / 128) && |Encode(v / 128)| == 1;
    CutVarInt(v, 1);
    assert Low(v, 1) == v % 128 + 128 * Low(v / 128, 0);
  }
}
