/** Length-prefixed packets, and handshakes read from a packet or straight from a stream. */
module McPacket {
  import opened GoStrings
  import opened Leb128
  import opened McType

  datatype Packet = Packet(id: byte, data: Str)

  function Marshal(p: Packet): Str {
    EncodeVarInt(1 + |p.data|) + [p.id] + p.data
  }

  /** A packet whose length prefix is read as signed (`ReadPacket`, `ReadPacketOld`) or as
      unsigned (`ReadPacket3`). */
  function DecodePacket(s: Str, signed: bool): (r: Read<Packet>)
    ensures r.Ok? ==> 1 <= r.used <= |s|
  {
    match DecodeVarInt(s)
    case Err(e) => Err(e)
    case Ok(n, used) =>
      var length := if signed then ToI32(n) else n;
      if length < 1 then Err(PacketTooShort)
      else
        match DecodeBytes(s[used..], length)
        case Err(e) => Err(e)
        case Ok(data, m) => Ok(Packet(data[0], data[1..]), used + m)
  }

  method PacketMarshal(p: Packet) returns (bb: Str)
    ensures bb == Marshal(p)
  {
    var data := [p.id];
    data := data + p.data;
    var length := VarIntEncode(ToI32(|data| % MOD_32));
    assert EncodeVarInt(ToI32(|data| % MOD_32)) == EncodeVarInt(|data|);
    bb := length + data;
    assert length + data == length + [p.id] + p.data;
  }

  method ReadPacket(r: Reader) returns (res: Read<Packet>)
    requires r.Valid()
    modifies r
    ensures r.Valid() && res == DecodePacket(r.bytes[old(r.pos)..], true)
    ensures res.Ok? ==> r.pos == old(r.pos) + res.used
  {
    var length := ReadVarInt(r);
    if length.Err? {
      return Err(length.error);
    }
    if length.value < 1 {
      return Err(PacketTooShort);
    }
    var data := ReadNBytes(r, length.value);
    if data.Err? {
      return Err(data.error);
    }
    return Ok(Packet(data.value[0], data.value[1..]), length.used + data.used);
  }

  method ReadPacket3(r: Reader) returns (res: Read<Packet>)
    requires r.Valid()
    modifies r
    ensures r.Valid() && res == DecodePacket(r.bytes[old(r.pos)..], false)
    ensures res.Ok? ==> r.pos == old(r.pos) + res.used
  {
    var length := ReadVarIntUnsigned(r);
    if length.Err? {
      return Err(length.error);
    }
    if length.value < 1 {
      return Err(PacketTooShort);
    }
    var data := ReadNBytes(r, length.value);
    if data.Err? {
      return Err(data.error);
    }
    return Ok(Packet(data.value[0], data.value[1..]), length.used + data.used);
  }

  // ------------------------------------------------- framing

  lemma {:induction false} PacketRoundTrip(p: Packet, suffix: Str, signed: bool)
    requires 1 + |p.data| < 0x8000_0000
    ensures DecodePacket(Marshal(p) + suffix, signed) == Ok(p, |Marshal(p)|)
  {
    var e, body := Encode(1 + |p.data|), [p.id] + p.data;
    assert Marshal(p) + suffix == e + (body + suffix);
    DecodeOfEncode(1 + |p.data|, body + suffix);
    assert (e + (body + suffix))[|e|..] == body + suffix;
    assert (body + suffix)[..|body|] == body;
    assert DecodeBytes(body + suffix, |body|) == Ok(body, |body|);
    assert body[1..] == p.data;
  }

  /** A packet comes back from its bytes exactly when its length fits a signed VarInt. */
  lemma {:induction false} PacketRoundTripExact(p: Packet, suffix: Str)
    ensures DecodePacket(Marshal(p) + suffix, true) == Ok(p, |Marshal(p)|) <==> 1 + |p.data| < 0x8000_0000
  {
    if 1 + |p.data| < 0x8000_0000 {
      PacketRoundTrip(p, suffix, true);
    } else {
      var n := (1 + |p.data|) % MOD_32;
      var s := Marshal(p) + suffix;
      assert s == Encode(n) + ([p.id] + p.data + suffix);
      DecodeOfEncode(n, [p.id] + p.data + suffix);
    }
  }

  /** What a packet is refused for: a length below one, more bytes announced than there are, or a
      length that is none. */
  lemma {:induction false} PacketErrors(s: Str, signed: bool)
    ensures var length, r := DecodeVarInt(s), DecodePacket(s, signed);
      var n := if length.Err? then 0 else if signed then ToI32(length.value) else length.value;
      && (r == Err(PacketTooShort) <==> length.Ok? && n < 1)
      && (r == Err(VarIntTooBig) <==> length == Err(VarIntTooBig))
      && (r == Err(EOF) <==> length == Err(EOF) || (length.Ok? && n >= 1 && |s| - length.used < n))
      && (r.Ok? <==> length.Ok? && n >= 1 && |s| - length.used >= n)
  {
    VarIntErrors(s);
  }

  function MarshalAll(ps: seq<Packet>): Str {
    if ps == [] then [] else Marshal(ps[0]) + MarshalAll(ps[1..])
  }

  /** Reads packets until one fails or nothing is left; the second part is what is left. */
  function ReadStream(s: Str, signed: bool): (seq<Packet>, Str)
    decreases |s|
  {
    match DecodePacket(s, signed)
    case Err(_) => ([], s)
    case Ok(p, used) =>
      var (ps, rest) := ReadStream(s[used..], signed);
      ([p] + ps, rest)
  }

  lemma {:induction false} ReadStreamNext(s: Str, ps: seq<Packet>)
    requires DecodePacket(s, true).Ok?
    ensures var p := DecodePacket(s, true);
      ps + ReadStream(s, true).0 == ps + [p.value] + ReadStream(s[p.used..], true).0
  {
    var p := DecodePacket(s, true);
    assert ReadStream(s, true).0 == [p.value] + ReadStream(s[p.used..], true).0;
  }

  method ReadPackets(r: Reader) returns (ps: seq<Packet>)
    requires r.Valid()
    modifies r
    ensures r.Valid() && ps == ReadStream(r.bytes[old(r.pos)..], true).0
  {
    ps := [];
    ghost var all := ReadStream(r.bytes[r.pos..], true).0;
    while true
      invariant r.Valid() && all == ps + ReadStream(r.bytes[r.pos..], true).0
      decreases |r.bytes| - r.pos
    {
      ghost var at := r.pos;
      var p := ReadPacket(r);
      if p.Err? {
        break;
      }
      ReadStreamNext(r.bytes[at..], ps);
      assert r.bytes[r.pos..] == r.bytes[at..][p.used..];
      ps := ps + [p.value];
    }
  }

  /** A stream of packets comes back packet by packet and is consumed entirely, whichever way
      the lengths are read. */
  lemma {:induction false} StreamRoundTrip(ps: seq<Packet>, signed: bool)
    requires forall i :: 0 <= i < |ps| ==> 1 + |ps[i].data| < 0x8000_0000
    ensures ReadStream(MarshalAll(ps), signed) == (ps, [])
    decreases |ps|
  {
    if ps != [] {
      var rest := MarshalAll(ps[1..]);
      PacketRoundTrip(ps[0], rest, signed);
      assert (Marshal(ps[0]) + rest)[|Marshal(ps[0])|..] == rest;
      StreamRoundTrip(ps[1..], signed);
      assert ps == [ps[0]] + ps[1..];
    } else {
      assert FirstEnd([]) == 0;
    }
  }

  /** The readers agree on what they accept, exactly unless the length prefix is at least 2^31
      and the stream really has that many bytes. */
  lemma {:induction false} ReadersAgreeExact(s: Str)
    ensures (DecodePacket(s, true).Ok? || DecodePacket(s, false).Ok? ==>
               DecodePacket(s, true) == DecodePacket(s, false))
       <==> !(DecodeVarInt(s).Ok? && DecodeVarInt(s).value >= 0x8000_0000
              && |s| - DecodeVarInt(s).used >= DecodeVarInt(s).value)
  {
  }

  // ------------------------------------------------- packets made of fields

  function EncodeFields(vs: seq<Value>): Str {
    if vs == [] then [] else EncodeField(vs[0]) + EncodeFields(vs[1..])
  }

  function KindsOf(vs: seq<Value>): (ks: seq<Kind>)
    ensures |ks| == |vs|
  {
    seq(|vs|, i requires 0 <= i < |vs| => vs[i].Kind())
  }

  /** Puts what was read before in front of what is read next. */
  function Prepend(vs: seq<Value>, n: nat, r: Read<seq<Value>>): Read<seq<Value>> {
    if r.Ok? then Ok(vs + r.value, n + r.used) else r
  }

  function ScanFields(s: Str, kinds: seq<Kind>, signed: bool): (r: Read<seq<Value>>)
    ensures r.Ok? ==> r.used <= |s| && |r.value| == |kinds|
    decreases |kinds|
  {
    if kinds == [] then Ok([], 0)
    else
      match DecodeField(s, kinds[0], signed)
      case Err(e) => Err(e)
      case Ok(v, n) => Prepend([v], n, ScanFields(s[n..], kinds[1..], signed))
  }

  method MarshalFields(vs: seq<Value>) returns (data: Str)
    ensures data == EncodeFields(vs)
  {
    data := [];
    for i := 0 to |vs|
      invariant data + EncodeFields(vs[i..]) == EncodeFields(vs)
    {
      assert vs[i..][1..] == vs[i + 1..];
      assert data + (EncodeField(vs[i]) + EncodeFields(vs[i + 1..]))
          == (data + EncodeField(vs[i])) + EncodeFields(vs[i + 1..]);
      data := data + EncodeField(vs[i]);
    }
  }

  method Scan(r: Reader, kinds: seq<Kind>, signed: bool) returns (res: Read<seq<Value>>)
    requires r.Valid()
    modifies r
    ensures r.Valid() && res == ScanFields(r.bytes[old(r.pos)..], kinds, signed)
    ensures res.Ok? ==> r.pos == old(r.pos) + res.used
  {
    ghost var all := ScanFields(r.bytes[r.pos..], kinds, signed);
    var vs: seq<Value> := [];
    var start := r.pos;
    ScanStarts(r.bytes, start, kinds, signed);
    for i := 0 to |kinds|
      invariant r.Valid() && start <= r.pos
      invariant Scanned(all, vs, start, r.bytes, r.pos, kinds, i, signed)
    {
      ghost var at := r.pos;
      var v := ReadField(r, kinds[i], signed);
      ScanNext(all, vs, start, r.bytes, at, kinds, i, signed, v);
      if v.Err? {
        return Err(v.error);
      }
      vs := vs + [v.value];
    }
    ScanEnds(all, vs, start, r.bytes, r.pos, kinds, signed);
    return Ok(vs, r.pos - start);
  }

  lemma {:induction false} Later(s: Str, m: nat, n: nat)
    requires m + n <= |s|
    ensures s[m..][n..] == s[m + n..]
  {
  }

  /** At `pos`, after `i` of the fields: `all` is `vs` and what is read from there. */
  ghost predicate Scanned(
    all: Read<seq<Value>>, vs: seq<Value>, start: nat, s: Str, pos: nat, kinds: seq<Kind>, i: nat, signed: bool)
  {
    && start <= pos <= |s| && i <= |kinds|
    && all == Prepend(vs, pos - start, ScanFields(s[pos..], kinds[i..], signed))
  }

  lemma {:induction false} ScanStarts(s: Str, start: nat, kinds: seq<Kind>, signed: bool)
    requires start <= |s|
    ensures Scanned(ScanFields(s[start..], kinds, signed), [], start, s, start, kinds, 0, signed)
  {
    assert kinds[0..] == kinds;
    PrependNothing(ScanFields(s[start..], kinds, signed));
  }

  lemma {:induction false} ScanEnds(
    all: Read<seq<Value>>, vs: seq<Value>, start: nat, s: Str, pos: nat, kinds: seq<Kind>, signed: bool)
    requires Scanned(all, vs, start, s, pos, kinds, |kinds|, signed)
    ensures all == Ok(vs, pos - start)
  {
    assert kinds[|kinds|..] == [] && vs + [] == vs;
  }

  lemma {:induction false} PrependNothing(r: Read<seq<Value>>)
    ensures Prepend([], 0, r) == r
  {
    if r.Ok? {
      assert [] + r.value == r.value;
    }
  }

  lemma {:induction false} PrependTwice(us: seq<Value>, m: nat, vs: seq<Value>, n: nat, r: Read<seq<Value>>)
    ensures Prepend(us, m, Prepend(vs, n, r)) == Prepend(us + vs, m + n, r)
  {
    if r.Ok? {
      assert us + (vs + r.value) == (us + vs) + r.value;
    }
  }

  lemma {:induction false} ScanNext(
    all: Read<seq<Value>>, vs: seq<Value>, start: nat, s: Str, pos: nat, kinds: seq<Kind>, i: nat, signed: bool,
    v: Read<Value>)
    requires i < |kinds| && Scanned(all, vs, start, s, pos, kinds, i, signed)
    requires v == DecodeField(s[pos..], kinds[i], signed)
    ensures v.Err? ==> all == Err(v.error)
    ensures v.Ok? ==> Scanned(all, vs + [v.value], start, s, pos + v.used, kinds, i + 1, signed)
  {
    assert kinds[i..][0] == kinds[i] && kinds[i..][1..] == kinds[i + 1..];
    if v.Ok? {
      Later(s, pos, v.used);
      PrependTwice(vs, pos - start, [v.value], v.used, ScanFields(s[pos + v.used..], kinds[i + 1..], signed));
    }
  }

  lemma {:induction false} DropOfAppend(s: Str, t: Str, n: nat)
    requires n <= |s|
    ensures (s + t)[n..] == s[n..] + t
  {
  }

  lemma {:induction false} ScanFirst(v: Value, vs: seq<Value>, kinds: seq<Kind>, s: Str, n: nat, signed: bool)
    requires v.Fits() && ScanFields(s, kinds, signed) == Ok(vs, n)
    ensures ScanFields(EncodeField(v) + s, [v.Kind()] + kinds, signed) == Ok([v] + vs, |EncodeField(v)| + n)
  {
    var e := EncodeField(v);
    FieldRoundTrip(v, s, signed);
    assert (e + s)[|e|..] == s && ([v.Kind()] + kinds)[1..] == kinds;
  }

  /** Scanning inverts marshalling for every list of fields, before any suffix. */
  lemma {:induction false} ScanOfMarshal(vs: seq<Value>, suffix: Str, signed: bool)
    requires forall i :: 0 <= i < |vs| ==> vs[i].Fits()
    ensures ScanFields(EncodeFields(vs) + suffix, KindsOf(vs), signed) == Ok(vs, |EncodeFields(vs)|)
    decreases |vs|
  {
    if vs != [] {
      var e, rest := EncodeField(vs[0]), EncodeFields(vs[1..]);
      ScanOfMarshal(vs[1..], suffix, signed);
      ScanFirst(vs[0], vs[1..], KindsOf(vs[1..]), rest + suffix, |rest|, signed);
      FirstOfFields(vs, suffix);
    }
  }

  lemma {:induction false} FirstOfFields(vs: seq<Value>, suffix: Str)
    requires vs != []
    ensures vs == [vs[0]] + vs[1..] && KindsOf(vs) == [vs[0].Kind()] + KindsOf(vs[1..])
    ensures EncodeFields(vs) + suffix == EncodeField(vs[0]) + (EncodeFields(vs[1..]) + suffix)
  {
  }

  /** Scanning does not depend on what comes after the fields. */
  lemma {:induction false} ScanLocal(s: Str, t: Str, kinds: seq<Kind>, signed: bool)
    requires ScanFields(s, kinds, signed).Ok?
    ensures ScanFields(s + t, kinds, signed) == ScanFields(s, kinds, signed)
    decreases |kinds|
  {
    if kinds != [] {
      FieldLocal(s, t, kinds[0], signed);
      var n := DecodeField(s, kinds[0], signed).used;
      DropOfAppend(s, t, n);
      ScanLocal(s[n..], t, kinds[1..], signed);
    }
  }

  /** What is accepted with signed string lengths is accepted alike with unsigned ones. */
  lemma {:induction false} ScanSignedUnsigned(s: Str, kinds: seq<Kind>)
    requires ScanFields(s, kinds, true).Ok?
    ensures ScanFields(s, kinds, false) == ScanFields(s, kinds, true)
    decreases |kinds|
  {
    if kinds != [] {
      FieldSignedUnsigned(s, kinds[0]);
      ScanSignedUnsigned(s[DecodeField(s, kinds[0], true).used..], kinds[1..]);
    }
  }

  /** Fields that were read without going beyond the front are in the front. */
  lemma {:induction false} ScanPrefix(s: Str, t: Str, kinds: seq<Kind>, signed: bool)
    requires ScanFields(s + t, kinds, signed).Ok? && ScanFields(s + t, kinds, signed).used <= |s|
    ensures ScanFields(s, kinds, signed) == ScanFields(s + t, kinds, signed)
    decreases |kinds|
  {
    if kinds != [] {
      FieldPrefix(s, t, kinds[0], signed);
      var n := DecodeField(s, kinds[0], signed).used;
      DropOfAppend(s, t, n);
      ScanPrefix(s[n..], t, kinds[1..], signed);
    }
  }

  lemma {:induction false} ScanErrors(s: Str, kinds: seq<Kind>, signed: bool)
    ensures ScanFields(s, kinds, signed).Err? ==>
      var e := ScanFields(s, kinds, signed).error;
      e.EOF? || e.VarIntTooBig? || (signed && e.NegativeLength?)
    decreases |kinds|
  {
    if kinds != [] {
      FieldErrors(s, kinds[0], signed);
      var v := DecodeField(s, kinds[0], signed);
      if v.Ok? {
        ScanErrors(s[v.used..], kinds[1..], signed);
      }
    }
  }
}
