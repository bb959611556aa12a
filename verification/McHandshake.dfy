/** Handshakes: written as a packet, read from a packet or straight from the stream. */
module McHandshake {
  import opened GoStrings
  import opened Leb128
  import opened McType
  import opened McPacket

  const HANDSHAKE_ID: byte := 0

  /** `serverPort` is a signed 16-bit integer, `nextState` a byte. */
  datatype Handshake = Handshake(protocolVersion: int, serverAddress: Str, serverPort: int, nextState: byte)
  {
    /** What the wire can carry: a 32-bit version, a 16-bit port, an address that keeps the
        whole frame within the signed range. */
    predicate Fits() {
      && -0x8000_0000 <= protocolVersion < 0x8000_0000 && -0x8000 <= serverPort < 0x8000
      && 1 + |EncodeFields(HandshakeValues(this))| < 0x8000_0000
    }
  }

  const HANDSHAKE_KINDS := [VarIntField, StringField, ShortField, VarIntField]

  function HandshakeValues(hs: Handshake): seq<Value> {
    [VarIntValue(hs.protocolVersion % MOD_32), StringValue(hs.serverAddress),
     ShortValue(hs.serverPort % MOD_16), VarIntValue(hs.nextState)]
  }

  /** The fields as a handshake; with `signed` the version is a signed 32-bit integer. */
  function FromValues(vs: seq<Value>, signed: bool): (hs: Handshake)
    requires |vs| == 4
  {
    match (vs[0], vs[1], vs[2], vs[3])
    case (VarIntValue(version), StringValue(address), ShortValue(port), VarIntValue(state)) =>
      Handshake(
        if signed then ToI32(version % MOD_32) else version, address, ToI16(port % MOD_16), state % 256)
    case _ => Handshake(0, [], 0, 0)
  }

  function ToHandshake(r: Read<seq<Value>>, signed: bool): Read<Handshake>
    requires r.Ok? ==> |r.value| == 4
  {
    if r.Ok? then Ok(FromValues(r.value, signed), r.used) else Err(r.error)
  }

  function MarshalHandshake(hs: Handshake): Packet {
    Packet(HANDSHAKE_ID, EncodeFields(HandshakeValues(hs)))
  }

  /** From a packet: `UnmarshalServerBoundHandshake` (signed) and its second version (unsigned). */
  function Unmarshal(p: Packet, signed: bool): Read<Handshake> {
    if p.id != HANDSHAKE_ID then Err(InvalidPacketID)
    else ToHandshake(ScanFields(p.data, HANDSHAKE_KINDS, signed), signed)
  }

  function DecodeHandshake(s: Str): Read<Handshake> {
    match DecodeVarInt(s)
    case Err(e) => Err(e)
    case Ok(length, n) =>
      if length < 1 then Err(PacketTooShort)
      else
        match DecodeVarInt(s[n..])
        case Err(e) => Err(e)
        case Ok(id, m) =>
          if id != HANDSHAKE_ID then Err(InvalidPacketID)
          else
            match ScanFields(s[n..][m..], HANDSHAKE_KINDS, false)
            case Err(e) => Err(e)
            case Ok(vs, k) => Ok(FromValues(vs, false), n + m + k)
  }

  /** `UnmarshalServerBoundHandshake_ByteReader`: the id and the fields, without a length. */
  function DecodeUnframed(s: Str): Read<Handshake> {
    if s == [] then Err(EOF)
    else if s[0] != HANDSHAKE_ID then Err(InvalidPacketID)
    else
      match ScanFields(s[1..], HANDSHAKE_KINDS, false)
      case Err(e) => Err(e)
      case Ok(vs, k) => Ok(FromValues(vs, false), 1 + k)
  }

  method HandshakeMarshal(hs: Handshake) returns (p: Packet)
    ensures p == MarshalHandshake(hs)
  {
    var data := MarshalFields(HandshakeValues(hs));
    return Packet(HANDSHAKE_ID, data);
  }

  method UnmarshalHandshake(p: Packet, signed: bool) returns (res: Read<Handshake>)
    ensures res == Unmarshal(p, signed)
  {
    if p.id != HANDSHAKE_ID {
      return Err(InvalidPacketID);
    }
    var r := new Reader(p.data);
    assert r.bytes[0..] == p.data;
    var vs := Scan(r, HANDSHAKE_KINDS, signed);
    return ToHandshake(vs, signed);
  }

  method UnmarshalByteReader(r: Reader) returns (res: Read<Handshake>)
    requires r.Valid()
    modifies r
    ensures r.Valid() && res == DecodeUnframed(r.bytes[old(r.pos)..])
    ensures res.Ok? ==> r.pos == old(r.pos) + res.used
  {
    ghost var s := r.bytes[r.pos..];
    var id := r.ReadByte();
    if id.Err? {
      return Err(id.error);
    }
    if id.value != HANDSHAKE_ID {
      return Err(InvalidPacketID);
    }
    assert r.bytes[r.pos..] == s[1..];
    var vs := Scan(r, HANDSHAKE_KINDS, false);
    if vs.Err? {
      return Err(vs.error);
    }
    return Ok(FromValues(vs.value, false), 1 + vs.used);
  }

  method ReadPacket3Handshake(r: Reader) returns (res: Read<Handshake>)
    requires r.Valid()
    modifies r
    ensures r.Valid() && res == DecodeHandshake(r.bytes[old(r.pos)..])
    ensures res.Ok? ==> r.pos == old(r.pos) + res.used
  {
    ghost var s := r.bytes[r.pos..];
    var length := ReadVarIntUnsigned(r);
    if length.Err? {
      return Err(length.error);
    }
    if length.value < 1 {
      return Err(PacketTooShort);
    }
    assert r.bytes[r.pos..] == s[length.used..];
    var id := ReadVarIntUnsigned(r);
    if id.Err? {
      return Err(id.error);
    }
    if id.value != HANDSHAKE_ID {
      return Err(InvalidPacketID);
    }
    assert r.bytes[r.pos..] == s[length.used..][id.used..];
    var vs := Scan(r, HANDSHAKE_KINDS, false);
    if vs.Err? {
      return Err(vs.error);
    }
    return Ok(FromValues(vs.value, false), length.used + id.used + vs.used);
  }

  // ------------------------------------------------- the decoders agree

  /** Equal but for the protocol version, which is the same 32-bit pattern. */
  predicate SamePattern(a: Handshake, b: Handshake) {
    && a.serverAddress == b.serverAddress && a.serverPort == b.serverPort && a.nextState == b.nextState
    && a.protocolVersion % MOD_32 == b.protocolVersion % MOD_32
  }

  lemma {:induction false} SameValuesSamePattern(vs: seq<Value>)
    requires |vs| == 4
    ensures SamePattern(FromValues(vs, false), FromValues(vs, true))
  {
    match (vs[0], vs[1], vs[2], vs[3])
    case (VarIntValue(version), StringValue(_), ShortValue(_), VarIntValue(_)) =>
      assert ToI32(version % MOD_32) % MOD_32 == version % MOD_32;
    case _ =>
  }

  /** The second way to read a packet accepts whatever the first one accepts, alike. */
  lemma {:induction false} UnmarshalsAgree(p: Packet)
    requires Unmarshal(p, true).Ok?
    ensures Unmarshal(p, false).Ok? && Unmarshal(p, false).used == Unmarshal(p, true).used
    ensures SamePattern(Unmarshal(p, false).value, Unmarshal(p, true).value)
  {
    ScanSignedUnsigned(p.data, HANDSHAKE_KINDS);
    SameValuesSamePattern(ScanFields(p.data, HANDSHAKE_KINDS, true).value);
  }

  lemma {:induction false} UnframedIs(id: byte, data: Str)
    ensures DecodeUnframed([id] + data) ==
      if id != HANDSHAKE_ID then Err(InvalidPacketID)
      else
        var r := ScanFields(data, HANDSHAKE_KINDS, false);
        if r.Ok? then Ok(FromValues(r.value, false), 1 + r.used) else Err(r.error)
  {
    assert ([id] + data)[1..] == data;
  }

  /** The third way reads the same from the bare bytes of a packet, whatever follows them. */
  lemma {:induction false} UnframedAgrees(p: Packet, suffix: Str)
    ensures Unmarshal(p, false).Ok? ==>
      DecodeUnframed([p.id] + (p.data + suffix)) == Ok(Unmarshal(p, false).value, 1 + Unmarshal(p, false).used)
    ensures Unmarshal(p, false).Err? ==> DecodeUnframed([p.id] + p.data) == Unmarshal(p, false)
  {
    if Unmarshal(p, false).Ok? {
      UnframedIs(p.id, p.data + suffix);
      ScanLocal(p.data, suffix, HANDSHAKE_KINDS, false);
    } else {
      UnframedIs(p.id, p.data);
    }
  }

  lemma {:induction false} ZeroByteIsId(s: Str)
    requires s != [] && s[0] == 0
    ensures DecodeVarInt(s) == Ok(0, 1)
  {
    assert GroupSum(s, 1) == s[0] % 128 + 128 * GroupSum(s[1..], 0);
  }

  /** A frame in the stream: its length prefix, the id, the payload, and what follows. */
  lemma {:induction false} FrameSplits(s: Str, signed: bool)
    requires DecodePacket(s, signed).Ok?
    ensures var frame, n := DecodePacket(s, signed), DecodeVarInt(s).used;
      && DecodeVarInt(s).Ok? && DecodeVarInt(s).value >= 1
      && frame.used == n + 1 + |frame.value.data|
      && s[n..] == [frame.value.id] + (frame.value.data + s[frame.used..])
  {
  }

  /** The streaming parser refines the buffered one: on a frame the buffered pair accepts it
      returns the same fields, and it stops where the buffered pair does exactly when the
      payload was used up. */
  lemma {:induction false} StreamingRefinesBuffered(s: Str)
    ensures var frame := DecodePacket(s, false); frame.Ok? && Unmarshal(frame.value, true).Ok? ==>
      var buffered, streamed := Unmarshal(frame.value, true), DecodeHandshake(s);
      && streamed.Ok? && SamePattern(streamed.value, buffered.value)
      && streamed.used <= frame.used
      && (streamed.used == frame.used <==> buffered.used == |frame.value.data|)
  {
    var frame := DecodePacket(s, false);
    if frame.Ok? && Unmarshal(frame.value, true).Ok? {
      FrameSplits(s, false);
      var n, data, after := DecodeVarInt(s).used, frame.value.data, s[frame.used..];
      UnmarshalsAgree(frame.value);
      ScanLocal(data, after, HANDSHAKE_KINDS, false);
      ZeroByteIsId(s[n..]);
      assert s[n..][1..] == data + after;
    }
  }

  /** And the other way round: of a whole frame, the buffered pair accepts what the streaming parser
      accepts without going beyond the frame, and whose id is a single zero byte. */
  lemma {:induction false} StreamingExact(s: Str)
    requires DecodePacket(s, false).Ok?
    ensures var frame, streamed := DecodePacket(s, false), DecodeHandshake(s);
      && (Unmarshal(frame.value, false).Ok? <==>
            streamed.Ok? && streamed.used <= frame.used && frame.value.id == HANDSHAKE_ID)
      && (Unmarshal(frame.value, false).Ok? ==> streamed.value == Unmarshal(frame.value, false).value)
  {
    var frame := DecodePacket(s, false);
    FrameSplits(s, false);
    var n, data, after := DecodeVarInt(s).used, frame.value.data, s[frame.used..];
    if frame.value.id == HANDSHAKE_ID {
      ZeroByteIsId(s[n..]);
      assert s[n..][1..] == data + after;
      if Unmarshal(frame.value, false).Ok? {
        ScanLocal(data, after, HANDSHAKE_KINDS, false);
      } else if DecodeHandshake(s).Ok? && DecodeHandshake(s).used <= frame.used {
        ScanPrefix(data, after, HANDSHAKE_KINDS, false);
      }
    }
  }

  /** The streaming parser refuses a length of zero, and after it any id but the handshake's. */
  lemma {:induction false} StreamingErrors(s: Str)
    ensures var length, r := DecodeVarInt(s), DecodeHandshake(s);
      && (r == Err(PacketTooShort) <==> length.Ok? && length.value == 0)
      && (r == Err(InvalidPacketID) <==>
            && length.Ok? && length.value >= 1 && DecodeVarInt(s[length.used..]).Ok?
            && DecodeVarInt(s[length.used..]).value != HANDSHAKE_ID)
      && (r.Ok? ==> length.Ok? && length.value >= 1 && DecodeVarInt(s[length.used..]).Ok?
                    && DecodeVarInt(s[length.used..]).value == HANDSHAKE_ID)
  {
    VarIntErrors(s);
    if DecodeVarInt(s).Ok? {
      var t := s[DecodeVarInt(s).used..];
      VarIntErrors(t);
      if DecodeVarInt(t).Ok? {
        ScanErrors(t[DecodeVarInt(t).used..], HANDSHAKE_KINDS, false);
      }
    }
  }

  /** The other decoders refuse exactly any other id with that error; without an id the input is over. */
  lemma {:induction false} BufferedErrors(p: Packet, signed: bool, s: Str)
    ensures Unmarshal(p, signed) == Err(InvalidPacketID) <==> p.id != HANDSHAKE_ID
    ensures DecodeUnframed(s) == Err(InvalidPacketID) <==> s != [] && s[0] != HANDSHAKE_ID
    ensures DecodeUnframed([]) == Err(EOF)
  {
    ScanErrors(p.data, HANDSHAKE_KINDS, signed);
    if s != [] {
      ScanErrors(s[1..], HANDSHAKE_KINDS, false);
    }
  }

  lemma {:induction false} ValuesFit(hs: Handshake)
    requires hs.Fits()
    ensures forall i :: 0 <= i < 4 ==> HandshakeValues(hs)[i].Fits()
  {
    assert Pow256(2) == 256 * Pow256(1) == MOD_16;
    var vs := HandshakeValues(hs);
    SecondFieldInside(vs);
    assert vs[1] == StringValue(hs.serverAddress);
    assert |hs.serverAddress| <= |EncodeField(vs[1])|;
  }

  lemma {:induction false} ValuesOfHandshake(hs: Handshake)
    requires -0x8000_0000 <= hs.protocolVersion < 0x8000_0000 && -0x8000 <= hs.serverPort < 0x8000
    ensures KindsOf(HandshakeValues(hs)) == HANDSHAKE_KINDS
    ensures FromValues(HandshakeValues(hs), true) == hs
  {
  }

  lemma {:induction false} SecondFieldInside(vs: seq<Value>)
    requires |vs| >= 2
    ensures |EncodeField(vs[1])| <= |EncodeFields(vs)|
  {
    assert EncodeFields(vs) == EncodeField(vs[0]) + EncodeFields(vs[1..]);
    assert EncodeFields(vs[1..]) == EncodeField(vs[1]) + EncodeFields(vs[1..][1..]);
  }

  /** A marshalled handshake comes back from the buffered decoders and, framed, from the
      stream, for every version, port, state and address that fit the wire. */
  lemma {:induction false} HandshakeRoundTrip(hs: Handshake, suffix: Str)
    requires hs.Fits()
    ensures Unmarshal(MarshalHandshake(hs), true) == Ok(hs, |MarshalHandshake(hs).data|)
    ensures var streamed := DecodeHandshake(Marshal(MarshalHandshake(hs)) + suffix);
      && streamed.Ok? && SamePattern(streamed.value, hs)
      && streamed.used == |Marshal(MarshalHandshake(hs))|
  {
    var p := MarshalHandshake(hs);
    ValuesFit(hs);
    ValuesOfHandshake(hs);
    ScanOfMarshal(HandshakeValues(hs), [], true);
    assert p.data + [] == p.data;
    PacketRoundTrip(p, suffix, false);
    StreamingRefinesBuffered(Marshal(p) + suffix);
  }
}
