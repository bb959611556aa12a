/** The second codec: VarInts of 64 bits, and handshakes that write their own frame. */
module SrcCodec {
  import opened GoStrings
  import opened Leb128
  import opened M = McType
  import P = McPacket
  import H = McHandshake

  const MOD_64 := 0x1_0000_0000_0000_0000
  const TWO_63 := 0x8000_0000_0000_0000

  function ToI64(n: int): (v: int)
    requires 0 <= n < MOD_64
    ensures -TWO_63 <= v < TWO_63 && v % MOD_64 == n
  {
    if n < TWO_63 then n else n - MOD_64
  }

  // ------------------------------------------------- VarInt

  /** `v` after `k` rounds of the writing loop: an arithmetic shift by seven rounds down. */
  function Shifted(v: int, k: nat): int {
    if k == 0 then v else Shifted(v, k - 1) / 128
  }

  lemma {:induction false} ShiftedInner(v: int, k: nat)
    requires k >= 1
    ensures Shifted(v, k) == Shifted(v / 128, k - 1)
  {
    if k > 1 {
      ShiftedInner(v, k - 1);
    }
  }

  lemma {:induction false} ShiftedStaysNegative(v: int, k: nat)
    requires v < 0
    ensures Shifted(v, k) < 0
  {
    if k > 0 {
      ShiftedStaysNegative(v, k - 1);
    }
  }

  lemma {:induction false} ShiftedReachesZero(v: nat)
    ensures Shifted(v, |Encode(v)|) == 0
  {
    ShiftedInner(v, |Encode(v)|);
    if v >= 128 {
      ShiftedReachesZero(v / 128);
    }
  }

  /** The writing loop ends after some round exactly for the numbers that are not negative. */
  lemma {:induction false} WriteTerminatesExact(v: int)
    ensures (exists k: nat :: k >= 1 && Shifted(v, k) == 0) <==> v >= 0
  {
    if v >= 0 {
      ShiftedReachesZero(v);
      assert |Encode(v)| >= 1;
    } else {
      forall k: nat ensures Shifted(v, k) != 0 {
        ShiftedStaysNegative(v, k);
      }
    }
  }

  /** For a negative number the loop would not end (`WriteTerminatesExact`). */
  method WriteVarInt(varInt: int) returns (bb: Str)
    requires 0 <= varInt < TWO_63
    ensures bb == Encode(varInt)
  {
    var v := varInt;
    bb := [];
    while true
      invariant v >= 0 && bb + Encode(v) == Encode(varInt)
      decreases v
    {
      var b := v % 128;
      assert Encode(v) == if v / 128 == 0 then [b] else [b + 128] + Encode(v / 128);
      v := v / 128;
      if v != 0 {
        b := b + 128;
      }
      bb := bb + [b];
      if v == 0 {
        break;
      }
    }
  }

  /** The reader's ReadByte drops its error, so the end of the input reads as a zero byte and
      ends the number. There is no limit on the number of bytes. */
  function DecodeVarInt(s: Str): (r: (int, nat))
    ensures r.1 <= |s| && -TWO_63 <= r.0 < TWO_63
  {
    var k := FirstEnd(s);
    var used := if k < |s| then k + 1 else k;
    (ToI64(GroupSum(s, used) % MOD_64), used)
  }

  /** Groups or-ed into place overlap nothing below them, so on 64-bit words too the or is a
      sum. */
  lemma {:induction false} OrOfLowGroupIsSum(n: bv64, g: bv64)
    requires g < 128
    ensures n < 0x80 ==> n | (g << 7) == n + (g << 7)
    ensures n < 0x4000 ==> n | (g << 14) == n + (g << 14)
    ensures n < 0x200000 ==> n | (g << 21) == n + (g << 21)
    ensures n < 0x10000000 ==> n | (g << 28) == n + (g << 28)
    ensures n < 0x800000000 ==> n | (g << 35) == n + (g << 35)
  {
  }

  /** The tenth group keeps one bit of seven, later ones nothing. */
  lemma {:induction false} OrOfHighGroupIsSum(n: bv64, g: bv64)
    requires g < 128
    ensures n < 0x40000000000 ==> n | (g << 42) == n + (g << 42)
    ensures n < 0x2000000000000 ==> n | (g << 49) == n + (g << 49)
    ensures n < 0x100000000000000 ==> n | (g << 56) == n + (g << 56)
    ensures n < 0x8000000000000000 ==> n | (g << 63) == n + (g << 63)
  {
  }

  /** `v |= g << 7*i` on 64 bits, as a pattern; a shift by 64 or more leaves nothing of `g`. */
  function OrGroup(n: nat, g: nat, i: nat): nat {
    (n + g * Pow128(i)) % MOD_64
  }

  /** The or is a sum: `n` is below the shifted group. */
  lemma {:induction false} OrGroupIsSum(s: Str, i: nat)
    requires i < |s|
    ensures OrGroup(GroupSum(s, i) % MOD_64, s[i] % 128, i) == GroupSum(s, i + 1) % MOD_64
  {
    GroupSumNext(s, i);
    var a, b := GroupSum(s, i), s[i] % 128 * Pow128(i);
    assert (a % MOD_64 + b) % MOD_64 == (a + b) % MOD_64 by {
      var q := a / MOD_64;
      assert a == q * MOD_64 + a % MOD_64;
      ModPlusMultiple(a % MOD_64 + b, q);
    }
  }

  lemma {:induction false} ModPlusMultiple(x: int, q: int)
    ensures (x + q * MOD_64) % MOD_64 == x % MOD_64
  {
  }

  /** The end of the input reads as a zero byte. */
  method ReadByte(r: M.Reader) returns (b: byte)
    requires r.Valid()
    modifies r
    ensures r.Valid()
    ensures var s := r.bytes[old(r.pos)..];
      if s == [] then b == 0 && r.pos == old(r.pos) else b == s[0] && r.pos == old(r.pos) + 1
  {
    var sec := r.ReadByte();
    b := if sec.Ok? then sec.value else 0;
  }

  /** Ends on every input: each round but the last uses up a byte. */
  method ReadVarInt(r: M.Reader) returns (v: int)
    requires r.Valid()
    modifies r
    ensures r.Valid() && (v, r.pos - old(r.pos)) == DecodeVarInt(r.bytes[old(r.pos)..])
  {
    ghost var s := r.bytes[r.pos..];
    var n: nat := 0;
    var i: nat := 0;
    FirstEndIs(s);
    while true
      invariant r.Valid() && i <= FirstEnd(s) && r.pos == old(r.pos) + i && r.bytes[r.pos..] == s[i..]
      invariant n < MOD_64 && n == GroupSum(s, i) % MOD_64
      decreases |s| - i
    {
      var b := ReadByte(r);
      if i < |s| {
        OrGroupIsSum(s, i);
      } else {
        assert 0 * Pow128(i) == 0;
      }
      n := OrGroup(n, b % 128, i);
      if b < 128 {
        break;
      }
      i := i + 1;
    }
    v := ToI64(n);
  }

  /** Every nonnegative 63-bit integer comes back from its own writer. */
  lemma {:induction false} VarIntRoundTrip(v: int, suffix: Str)
    requires 0 <= v < TWO_63
    ensures DecodeVarInt(Encode(v) + suffix) == (v, |Encode(v)|)
  {
    var s := Encode(v);
    EncodeGroups(v);
    FirstEndLocal(s, suffix);
    GroupSumLocal(s, suffix, |s|);
  }

  /** Both writers emit the same bytes below 2^31, and each reader reads the other's. */
  lemma {:induction false} TwoCodecsOneFormat(v: int, suffix: Str)
    requires 0 <= v < 0x8000_0000
    ensures M.EncodeVarInt(v) == Encode(v)
    ensures DecodeVarInt(M.EncodeVarInt(v) + suffix) == (v, |Encode(v)|)
    ensures var r := M.DecodeVarInt(Encode(v) + suffix);
      r.Ok? && M.ToI32(r.value) == v && r.used == |Encode(v)|
  {
    VarIntRoundTrip(v, suffix);
    M.VarIntRoundTrip(v, suffix);
  }

  /** A signed VarInt of the first codec is read right exactly if it is not negative. */
  lemma {:induction false} ReadsSignedExact(v: int, suffix: Str)
    requires -0x8000_0000 <= v < 0x8000_0000
    ensures DecodeVarInt(M.EncodeVarInt(v) + suffix).0 == v <==> v >= 0
  {
    VarIntRoundTrip(v % M.MOD_32, suffix);
  }

  // ------------------------------------------------- strings and shorts

  /** One Read into a zeroed buffer of `n` bytes: an error only when nothing is left. */
  function ReadInto(s: Str, n: nat): (r: Read<Str>)
    ensures r.Ok? ==> |r.value| == n && r.used <= |s|
  {
    if s == [] then Err(EOF)
    else if n <= |s| then Ok(s[..n], n)
    else Ok(s + Zeros(n - |s|), |s|)
  }

  function Zeros(n: nat): (s: Str)
    ensures |s| == n
  {
    seq(n, _ => 0)
  }

  function DecodeString(s: Str): (r: Read<Str>)
    ensures r.Ok? ==> r.used <= |s|
  {
    var (length, n) := DecodeVarInt(s);
    if length < 0 then Err(NegativeLength)
    else
      match ReadInto(s[n..], length)
      case Err(e) => Err(e)
      case Ok(v, m) => Ok(v, n + m)
  }

  function EncodeString(s: Str): Str {
    Encode(|s|) + s
  }

  /** `Read` of a byte reader into a fresh buffer. */
  method ReadBuffer(r: M.Reader, n: nat) returns (res: Read<Str>)
    requires r.Valid()
    modifies r
    ensures r.Valid() && res == ReadInto(r.bytes[old(r.pos)..], n)
    ensures r.pos == old(r.pos) + if res.Ok? then res.used else 0
  {
    ghost var s := r.bytes[r.pos..];
    if r.pos == |r.bytes| {
      return Err(EOF);
    }
    var start := r.pos;
    var bb := new byte[n](_ => 0);
    var m := if n <= |r.bytes| - start then n else |r.bytes| - start;
    for i := 0 to m
      invariant r.Valid() && r.pos == start + i
      invariant bb[..i] == s[..i] && bb[i..] == Zeros(n - i)
    {
      bb[i] := r.bytes[r.pos];
      r.pos := r.pos + 1;
    }
    assert bb[..] == bb[..m] + bb[m..];
    assert bb[..] == if n <= |s| then s[..n] else s + Zeros(n - |s|) by {
      assert s[..|s|] == s && bb[..m] == s[..m] && bb[m..] == Zeros(n - m);
      assert bb[n..] == [];
    }
    return Ok(bb[..], m);
  }

  method ReadString(r: M.Reader) returns (res: Read<Str>)
    requires r.Valid()
    modifies r
    ensures r.Valid() && res == DecodeString(r.bytes[old(r.pos)..])
    ensures res.Ok? ==> r.pos == old(r.pos) + res.used
  {
    var start := r.pos;
    var length := ReadVarInt(r);
    if length < 0 {
      return Err(NegativeLength);
    }
    assert r.bytes[r.pos..] == r.bytes[start..][r.pos - start..];
    var bb := ReadBuffer(r, length);
    if bb.Err? {
      return Err(bb.error);
    }
    return Ok(bb.value, r.pos - start);
  }

  lemma {:induction false} StringRoundTrip(s: Str, suffix: Str)
    requires |s| < TWO_63
    ensures DecodeString(EncodeString(s) + suffix) == Ok(s, |EncodeString(s)|) <==> s != [] || suffix != []
  {
    var e := Encode(|s|);
    assert EncodeString(s) + suffix == e + (s + suffix);
    VarIntRoundTrip(|s|, s + suffix);
    assert (e + (s + suffix))[|e|..] == s + suffix;
    assert (s + suffix)[..|s|] == s;
  }

  // ------------------------------------------------- handshakes

  datatype Handshake = Handshake(
    packetId: byte, protocolVersion: int, serverAddress: Str, serverPort: int, nextState: int)
  {
    /** The numbers the writer can write. */
    predicate Fits() {
      && 0 <= protocolVersion < TWO_63 && 0 <= nextState < TWO_63
      && -0x8000 <= serverPort < 0x8000 && |Body(this)| < TWO_63
    }
  }

  function Tail(pk: Handshake): Str {
    M.BigEndian(pk.serverPort % M.MOD_16, 2) + (if pk.nextState >= 0 then Encode(pk.nextState) else [])
  }

  /** What goes into the buffer, for VarInt fields that are not negative. */
  function Body(pk: Handshake): Str {
    [pk.packetId] + (if pk.protocolVersion >= 0 then Encode(pk.protocolVersion) else []) +
      EncodeString(pk.serverAddress) + Tail(pk)
  }

  method WriteTo(pk: Handshake) returns (out: Str, n: int)
    requires pk.Fits()
    ensures out == Encode(|Body(pk)|) + Body(pk) && n == |out|
  {
    var buf := [pk.packetId];
    var l := 1;
    var version := WriteVarInt(pk.protocolVersion);
    buf := buf + version;
    var length := WriteVarInt(|pk.serverAddress|);
    buf := buf + (length + pk.serverAddress);
    buf := buf + M.BigEndian(pk.serverPort % M.MOD_16, 2);
    var o := 2;
    var state := WriteVarInt(pk.nextState);
    buf := buf + state;
    var pkLen := l + |version| + (|length| + |pk.serverAddress|) + o + |state|;
    assert buf == Body(pk);
    var prefix := WriteVarInt(pkLen);
    out := prefix + buf;
    n := pkLen + |prefix|;
  }

  function DecodePort(s: Str): (r: Read<nat>)
    ensures r.Ok? ==> r.used <= |s| && r.value < M.MOD_16
  {
    if |s| < 2 then Err(EOF) else Ok((s[0] as int) * 256 + s[1], 2)
  }

  function DecodeTail(s: Str, id: byte, version: int, address: Str): (r: Read<Handshake>)
    ensures r.Ok? ==> r.used <= |s|
  {
    match DecodePort(s)
    case Err(e) => Err(e)
    case Ok(port, n) =>
      var (state, m) := DecodeVarInt(s[n..]);
      Ok(Handshake(id, version, address, M.ToI16(port), state), n + m)
  }

  function DecodeAddressAndTail(s: Str, id: byte, version: int): (r: Read<Handshake>)
    ensures r.Ok? ==> r.used <= |s|
  {
    match DecodeString(s)
    case Err(e) => Err(e)
    case Ok(address, m) =>
      match DecodeTail(s[m..], id, version, address)
      case Err(e) => Err(e)
      case Ok(pk, k) => Ok(pk, m + k)
  }

  /** `ReadServerBoundHandshake` on a byte slice. */
  function DecodeHandshake(s: Str): Read<Handshake> {
    var (id, k) := if s == [] then (0, 0) else (s[0], 1);
    var (version, n) := DecodeVarInt(s[k..]);
    Shift(k + n, DecodeAddressAndTail(s[k..][n..], id, version))
  }

  /** The same after `n` more bytes. */
  function Shift(n: nat, r: Read<Handshake>): Read<Handshake> {
    if r.Ok? then Ok(r.value, n + r.used) else r
  }

  /** `ReadPacketData`: the length and that many bytes, in one Read. */
  function DecodePacketData(s: Str): Read<(int, Str)> {
    var (length, n) := DecodeVarInt(s);
    if length < 1 then Ok((length, []), n)
    else
      match ReadInto(s[n..], length)
      case Err(e) => Err(e)
      case Ok(data, m) => Ok((length, data), n + m)
  }

  /** Two bytes or an error; a single byte left is an error too. */
  method ReadShort(r: M.Reader) returns (res: Read<nat>)
    requires r.Valid()
    modifies r
    ensures r.Valid() && res == DecodePort(r.bytes[old(r.pos)..])
    ensures res.Ok? ==> r.pos == old(r.pos) + res.used
  {
    if |r.bytes| - r.pos < 2 {
      return Err(EOF);
    }
    var high := ReadByte(r);
    var low := ReadByte(r);
    return Ok((high as int) * 256 + low, 2);
  }

  /** The fields after the address. */
  method ReadTail(r: M.Reader, id: byte, version: int, address: Str) returns (res: Read<Handshake>)
    requires r.Valid()
    modifies r
    ensures r.Valid() && res == DecodeTail(r.bytes[old(r.pos)..], id, version, address)
    ensures res.Ok? ==> r.pos == old(r.pos) + res.used
  {
    var start := r.pos;
    var port := ReadShort(r);
    if port.Err? {
      return Err(port.error);
    }
    assert r.bytes[r.pos..] == r.bytes[start..][port.used..];
    var state := ReadVarInt(r);
    return Ok(Handshake(id, version, address, M.ToI16(port.value), state), r.pos - start);
  }

  /** The address and the fields after it. */
  method ReadAddressAndTail(r: M.Reader, id: byte, version: int) returns (res: Read<Handshake>)
    requires r.Valid()
    modifies r
    ensures r.Valid() && res == DecodeAddressAndTail(r.bytes[old(r.pos)..], id, version)
    ensures res.Ok? ==> r.pos == old(r.pos) + res.used
  {
    var start := r.pos;
    var address := ReadString(r);
    if address.Err? {
      return Err(address.error);
    }
    assert r.bytes[r.pos..] == r.bytes[start..][address.used..];
    var pk := ReadTail(r, id, version, address.value);
    if pk.Err? {
      return Err(pk.error);
    }
    return Ok(pk.value, address.used + pk.used);
  }

  method ReadServerBoundHandshake(r: M.Reader) returns (res: Read<Handshake>)
    requires r.Valid()
    modifies r
    ensures r.Valid() && res == DecodeHandshake(r.bytes[old(r.pos)..])
    ensures res.Ok? ==> r.pos == old(r.pos) + res.used
  {
    ghost var s := r.bytes[r.pos..];
    var start := r.pos;
    var id := ReadByte(r);
    var k := r.pos - start;
    assert r.bytes[r.pos..] == s[k..];
    var version := ReadVarInt(r);
    var n := r.pos - start - k;
    assert r.bytes[r.pos..] == s[k..][n..];
    res := ReadAddressAndTail(r, id, version);
    res := Shift(k + n, res);
  }

  method ReadPacketData(r: M.Reader) returns (res: Read<(int, Str)>)
    requires r.Valid()
    modifies r
    ensures r.Valid() && res == DecodePacketData(r.bytes[old(r.pos)..])
    ensures res.Ok? ==> r.pos == old(r.pos) + res.used
  {
    var start := r.pos;
    var packetLength := ReadVarInt(r);
    if packetLength < 1 {
      return Ok((packetLength, []), r.pos - start);
    }
    assert r.bytes[r.pos..] == r.bytes[start..][r.pos - start..];
    var data := ReadBuffer(r, packetLength);
    if data.Err? {
      return Err(data.error);
    }
    return Ok((packetLength, data.value), r.pos - start);
  }

  /** The port is the only field that fails for a lack of bytes alone; all of it has to be there. */
  lemma {:induction false} TailNeedsPort(s: Str, id: byte, version: int, address: Str)
    ensures DecodeTail(s, id, version, address).Ok? <==> |s| >= 2
  {
  }

  lemma {:induction false} TailRoundTrip(pk: Handshake, address: Str, version: int, id: byte)
    requires -0x8000 <= pk.serverPort < 0x8000 && 0 <= pk.nextState < TWO_63
    ensures DecodeTail(Tail(pk), id, version, address)
         == Ok(Handshake(id, version, address, pk.serverPort, pk.nextState), |Tail(pk)|)
  {
    var p, e, port := M.BigEndian(pk.serverPort % M.MOD_16, 2), Encode(pk.nextState), pk.serverPort % M.MOD_16;
    assert p == [port / 256 % 256, port % 256] by {
      assert M.BigEndian(port, 2) == M.BigEndian(port / 256, 1) + [port % 256];
      assert M.BigEndian(port / 256, 1) == M.BigEndian(port / 256 / 256, 0) + [port / 256 % 256];
    }
    assert Tail(pk)[0] == p[0] && Tail(pk)[1] == p[1];
    assert Tail(pk)[2..] == e + [];
    VarIntRoundTrip(pk.nextState, []);
  }

  /** A handshake is decoded part by part. */
  lemma {:induction false} DecodeParts(pk: Handshake, s: Str, v: Str, a: Str, t: Str)
    requires s == [pk.packetId] + (v + (a + t))
    requires DecodeVarInt(v + (a + t)) == (pk.protocolVersion, |v|)
    requires DecodeString(a + t) == Ok(pk.serverAddress, |a|)
    requires DecodeTail(t, pk.packetId, pk.protocolVersion, pk.serverAddress) == Ok(pk, |t|)
    ensures DecodeHandshake(s) == Ok(pk, |s|)
  {
    var rest := v + (a + t);
    assert s[1..] == rest;
    assert rest[|v|..] == a + t;
    assert (a + t)[|a|..] == t;
  }

  lemma {:induction false} BodyParts(pk: Handshake, v: Str, a: Str, t: Str)
    requires pk.Fits() && v == Encode(pk.protocolVersion) && a == EncodeString(pk.serverAddress) && t == Tail(pk)
    ensures Body(pk) == [pk.packetId] + (v + (a + t)) && |t| >= 2 && |pk.serverAddress| < TWO_63
  {
  }

  lemma {:induction false} PartsRoundTrip(pk: Handshake, v: Str, a: Str, t: Str)
    requires 0 <= pk.protocolVersion < TWO_63 && v == Encode(pk.protocolVersion)
    requires |pk.serverAddress| < TWO_63 && a == EncodeString(pk.serverAddress)
    requires -0x8000 <= pk.serverPort < 0x8000 && 0 <= pk.nextState < TWO_63 && t == Tail(pk) && |t| >= 2
    ensures DecodeVarInt(v + (a + t)) == (pk.protocolVersion, |v|)
    ensures DecodeString(a + t) == Ok(pk.serverAddress, |a|)
    ensures DecodeTail(t, pk.packetId, pk.protocolVersion, pk.serverAddress) == Ok(pk, |t|)
  {
    VarIntRoundTrip(pk.protocolVersion, a + t);
    StringRoundTrip(pk.serverAddress, t);
    TailRoundTrip(pk, pk.serverAddress, pk.protocolVersion, pk.packetId);
  }

  lemma {:induction false} BodyRoundTrip(pk: Handshake)
    requires pk.Fits()
    ensures DecodeHandshake(Body(pk)) == Ok(pk, |Body(pk)|)
  {
    var v, a, t := Encode(pk.protocolVersion), EncodeString(pk.serverAddress), Tail(pk);
    BodyParts(pk, v, a, t);
    PartsRoundTrip(pk, v, a, t);
    DecodeParts(pk, Body(pk), v, a, t);
  }

  /** A written handshake is a frame with the length of its body, and reading the frame and
      then its data recovers the handshake. */
  lemma {:induction false} FrameRoundTrip(pk: Handshake)
    requires pk.Fits()
    ensures var out := Encode(|Body(pk)|) + Body(pk);
      && DecodePacketData(out) == Ok((|Body(pk)|, Body(pk)), |out|)
      && DecodeHandshake(Body(pk)) == Ok(pk, |Body(pk)|)
  {
    FrameData(Body(pk));
    BodyRoundTrip(pk);
  }

  lemma {:induction false} FrameData(body: Str)
    requires 1 <= |body| < TWO_63
    ensures DecodePacketData(Encode(|body|) + body) == Ok((|body|, body), |Encode(|body|)| + |body|)
  {
    var e := Encode(|body|);
    VarIntRoundTrip(|body|, body);
    assert (e + body)[|e|..] == body && body[..|body|] == body;
  }

  /** A frame that is cut short is still accepted: its data is what the stream holds, filled up
      with zeros, and it is all from the stream exactly when the stream holds enough. */
  lemma {:induction false} CutFrameExact(s: Str)
    requires DecodePacketData(s).Ok? && DecodeVarInt(s).0 >= 1
    ensures var (length, n) := DecodeVarInt(s); var r := DecodePacketData(s);
      && |r.value.1| == length && n < r.used <= n + length
      && r.value.1 == Fill(r.value.1, r.used - n) && r.value.1[..r.used - n] == s[n..r.used]
      && (r.used == n + length <==> |s| - n >= length)
  {
  }

  /** `s` with everything from `k` on set to zero. */
  function Fill(s: Str, k: nat): (t: Str)
    requires k <= |s|
    ensures |t| == |s|
  {
    s[..k] + Zeros(|s| - k)
  }

  lemma {:induction false} FieldsInARow(vs: seq<M.Value>)
    requires |vs| == 4
    ensures P.EncodeFields(vs) ==
            M.EncodeField(vs[0]) + (M.EncodeField(vs[1]) + (M.EncodeField(vs[2]) + M.EncodeField(vs[3])))
  {
    var v3 := vs[1..][1..][1..];
    assert v3 == [vs[3]] && v3[1..] == [];
    assert P.EncodeFields(v3) == M.EncodeField(vs[3]) + P.EncodeFields([]);
    assert P.EncodeFields(vs[1..][1..]) == M.EncodeField(vs[2]) + P.EncodeFields(v3);
    assert P.EncodeFields(vs[1..]) == M.EncodeField(vs[1]) + P.EncodeFields(vs[1..][1..]);
  }

  /** The same handshake as the first codec holds it. */
  ghost predicate Same(pk: Handshake, hs: H.Handshake) {
    && pk == Handshake(H.HANDSHAKE_ID, hs.protocolVersion, hs.serverAddress, hs.serverPort, hs.nextState)
    && 0 <= hs.protocolVersion < 0x8000_0000 && |hs.serverAddress| < 0x8000_0000
  }

  lemma {:induction false} SameFields(pk: Handshake, hs: H.Handshake, vs: seq<M.Value>)
    requires Same(pk, hs) && vs == H.HandshakeValues(hs)
    ensures M.EncodeField(vs[0]) == Encode(pk.protocolVersion)
    ensures M.EncodeField(vs[1]) == EncodeString(pk.serverAddress)
    ensures M.EncodeField(vs[2]) + M.EncodeField(vs[3]) == Tail(pk)
  {
    assert vs[0] == M.VarIntValue(pk.protocolVersion) && vs[1] == M.StringValue(pk.serverAddress);
    assert vs[2] == M.ShortValue(pk.serverPort % M.MOD_16) && vs[3] == M.VarIntValue(pk.nextState);
  }

  lemma {:induction false} SameBody(pk: Handshake, hs: H.Handshake)
    requires Same(pk, hs)
    ensures Body(pk) == [pk.packetId] + P.EncodeFields(H.HandshakeValues(hs))
  {
    var vs := H.HandshakeValues(hs);
    FieldsInARow(vs);
    SameFields(pk, hs, vs);
    Regroup([pk.packetId], M.EncodeField(vs[0]), M.EncodeField(vs[1]), M.EncodeField(vs[2]), M.EncodeField(vs[3]));
  }

  lemma {:induction false} Regroup(i: Str, v: Str, a: Str, p: Str, n: Str)
    ensures i + v + a + (p + n) == i + (v + (a + (p + n)))
  {
  }

  /** Both codecs write the same frame for the same handshake. */
  lemma {:induction false} SameHandshakeFrame(pk: Handshake, hs: H.Handshake)
    requires Same(pk, hs) && hs.Fits()
    ensures Encode(|Body(pk)|) + Body(pk) == P.Marshal(H.MarshalHandshake(hs))
  {
    SameBody(pk, hs);
    MarshalledBody(pk.packetId, P.EncodeFields(H.HandshakeValues(hs)), Body(pk));
  }

  lemma {:induction false} MarshalledBody(id: byte, fields: Str, body: Str)
    requires body == [id] + fields && |body| < 0x8000_0000
    ensures P.Marshal(P.Packet(id, fields)) == Encode(|body|) + body
  {
    assert (1 + |fields|) % M.MOD_32 == |body|;
    assert Encode(|body|) + [id] + fields == Encode(|body|) + ([id] + fields);
  }
}
