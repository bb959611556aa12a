/** The field types of the Minecraft protocol: VarInt, String, UnsignedShort. */
module McType {
  import opened GoStrings
  import opened Leb128

  const MOD_16 := 0x1_0000
  const MOD_32 := 0x1_0000_0000

  /** The value of a two's complement pattern. */
  function ToI32(n: int): (v: int)
    requires 0 <= n < MOD_32
    ensures -0x8000_0000 <= v < 0x8000_0000 && v % MOD_32 == n
  {
    if n < 0x8000_0000 then n else n - MOD_32
  }

  function ToI16(n: int): (v: int)
    requires 0 <= n < MOD_16
    ensures -0x8000 <= v < 0x8000 && v % MOD_16 == n
  {
    if n < 0x8000 then n else n - MOD_16
  }

  /** A negative length makes the allocation of the buffer panic. */
  datatype Error = EOF | VarIntTooBig | NegativeLength | PacketTooShort | InvalidPacketID

  /** What reading from the front of some bytes gives, and how many of them it used. */
  datatype Read<+T> = Ok(value: T, used: nat) | Err(error: Error)

  // ------------------------------------------------- the formats

  function EncodeVarInt(v: int): Str {
    Encode(v % MOD_32)
  }

  /** The unsigned pattern of a VarInt. */
  function DecodeVarInt(s: Str): (r: Read<nat>)
    ensures r.Ok? ==> 0 <= r.value < MOD_32 && 1 <= r.used <= |s| && r.used <= 5
  {
    var k := FirstEnd(s);
    if k < |s| && k <= 4 then Ok(GroupSum(s, k + 1) % MOD_32, k + 1)
    else if |s| >= 6 then Err(VarIntTooBig)
    else Err(EOF)
  }

  function EncodeString(s: Str): Str {
    EncodeVarInt(|s|) + s
  }

  function DecodeBytes(s: Str, n: int): (r: Read<Str>)
    ensures r.Ok? ==> r.used <= |s| && |r.value| == r.used
  {
    if n < 0 then Err(NegativeLength) else if n > |s| then Err(EOF) else Ok(s[..n], n)
  }

  /** A string whose length is read as a signed VarInt (`signed`) or as an unsigned one. */
  function DecodeString(s: Str, signed: bool): (r: Read<Str>)
    ensures r.Ok? ==> r.used <= |s|
  {
    match DecodeVarInt(s)
    case Err(e) => Err(e)
    case Ok(n, used) =>
      match DecodeBytes(s[used..], if signed then ToI32(n) else n)
      case Err(e) => Err(e)
      case Ok(v, m) => Ok(v, used + m)
  }

  /** The low `k` bytes of a number, highest first. */
  function BigEndian(n: nat, k: nat): (s: Str)
    ensures |s| == k
  {
    if k == 0 then [] else BigEndian(n / 256, k - 1) + [n % 256]
  }

  function FromBigEndian(s: Str): nat {
    if s == [] then 0 else FromBigEndian(s[..|s| - 1]) * 256 + s[|s| - 1]
  }

  function Pow256(k: nat): (p: nat)
    ensures p >= 1
  {
    if k == 0 then 1 else 256 * Pow256(k - 1)
  }

  // ------------------------------------------------- fields

  /** A field of a packet: what a decoder is asked for, and what it gives. Integers are kept
      as two's complement patterns. */
  datatype Kind = VarIntField | StringField | ByteField | ShortField | LongField

  datatype Value =
    | VarIntValue(n: nat)
    | StringValue(s: Str)
    | ByteValue(b: byte)
    | ShortValue(n: nat)
    | LongValue(n: nat)
  {
    function Kind(): Kind {
      match this
      case VarIntValue(_) => VarIntField
      case StringValue(_) => StringField
      case ByteValue(_) => ByteField
      case ShortValue(_) => ShortField
      case LongValue(_) => LongField
    }

    /** The pattern fits the field, and a string's length fits a signed VarInt. */
    predicate Fits() {
      match this
      case VarIntValue(n) => n < MOD_32
      case StringValue(s) => |s| < 0x8000_0000
      case ByteValue(_) => true
      case ShortValue(n) => n < Pow256(2)
      case LongValue(n) => n < Pow256(8)
    }
  }

  function EncodeField(v: Value): Str {
    match v
    case VarIntValue(n) => Encode(n % MOD_32)
    case StringValue(s) => EncodeString(s)
    case ByteValue(b) => [b]
    case ShortValue(n) => BigEndian(n, 2)
    case LongValue(n) => BigEndian(n, 8)
  }

  function DecodeNumber(s: Str, k: nat): (r: Read<nat>)
    ensures r.Ok? ==> r.used <= |s|
  {
    if k > |s| then Err(EOF) else Ok(FromBigEndian(s[..k]), k)
  }

  function DecodeField(s: Str, kind: Kind, signed: bool): (r: Read<Value>)
    ensures r.Ok? ==> r.used <= |s| && r.value.Kind() == kind
  {
    match kind
    case VarIntField =>
      (match DecodeVarInt(s) case Ok(n, used) => Ok(VarIntValue(n), used) case Err(e) => Err(e))
    case StringField =>
      (match DecodeString(s, signed) case Ok(t, used) => Ok(StringValue(t), used) case Err(e) => Err(e))
    case ByteField =>
      (match DecodeNumber(s, 1) case Ok(_, used) => Ok(ByteValue(s[0]), used) case Err(e) => Err(e))
    case ShortField =>
      (match DecodeNumber(s, 2) case Ok(n, used) => Ok(ShortValue(n), used) case Err(e) => Err(e))
    case LongField =>
      (match DecodeNumber(s, 8) case Ok(n, used) => Ok(LongValue(n), used) case Err(e) => Err(e))
  }

  // ------------------------------------------------- properties of VarInt

  /** Decoding an encoding followed by anything gives the number back and stops at its end. */
  lemma {:induction false} DecodeOfEncode(n: nat, suffix: Str)
    requires n < MOD_32
    ensures DecodeVarInt(Encode(n) + suffix) == Ok(n, |Encode(n)|)
  {
    var s := Encode(n);
    EncodeGroups(n);
    EncodeAtMostFive(n);
    FirstEndLocal(s, suffix);
    GroupSumLocal(s, suffix, |s|);
  }

  lemma {:induction false} Powers()
    ensures Pow128(1) == 0x80 && Pow128(2) == 0x4000 && Pow128(3) == 0x20_0000
    ensures Pow128(4) == 0x1000_0000 && Pow128(5) == 0x8_0000_0000
  {
    assert Pow128(3) == 128 * Pow128(2) && Pow128(4) == 128 * Pow128(3) && Pow128(5) == 128 * Pow128(4);
  }

  lemma {:induction false} EncodeAtMostFive(n: nat)
    requires n < MOD_32
    ensures 1 <= |Encode(n)| <= 5
  {
    Powers();
    EncodeLength(n, 5);
  }

  /** Every 32-bit integer comes back with its sign, before any suffix. */
  lemma {:induction false} VarIntRoundTrip(v: int, suffix: Str)
    requires -0x8000_0000 <= v < 0x8000_0000
    ensures var r := DecodeVarInt(EncodeVarInt(v) + suffix);
      r.Ok? && ToI32(r.value) == v && r.used == |EncodeVarInt(v)| <= 5
  {
    DecodeOfEncode(v % MOD_32, suffix);
    EncodeAtMostFive(v % MOD_32);
  }

  /** Nothing shorter decodes to the same number. */
  lemma {:induction false} VarIntShortest(s: Str, n: nat)
    requires DecodeVarInt(s) == Ok(n, |s|)
    ensures |Encode(n)| <= |s|
  {
    GroupSumBound(s, |s|);
    Powers();
    if |s| <= 4 {
      assert Pow128(|s|) <= Pow128(4);
      EncodeShortest(s, n);
    } else {
      EncodeAtMostFive(n);
    }
  }

  /** The size error means exactly five continuation bytes with a sixth byte after them, and
      the end of the input exactly that it ends within the first five or right after them. */
  lemma {:induction false} VarIntErrors(s: Str)
    ensures DecodeVarInt(s) == Err(VarIntTooBig) <==>
            |s| >= 6 && forall i :: 0 <= i < 5 ==> s[i] >= 128
    ensures DecodeVarInt(s) == Err(EOF) <==>
            |s| <= 5 && forall i :: 0 <= i < |s| ==> s[i] >= 128
    ensures DecodeVarInt(s).Err? ==> DecodeVarInt(s).error.VarIntTooBig? || DecodeVarInt(s).error.EOF?
  {
    FirstEndIs(s);
  }

  /** What comes after a decoded field does not matter. */
  lemma {:induction false} VarIntLocal(s: Str, t: Str)
    requires DecodeVarInt(s).Ok?
    ensures DecodeVarInt(s + t) == DecodeVarInt(s)
  {
    FirstEndLocal(s, t);
    GroupSumLocal(s, t, FirstEnd(s) + 1);
  }

  lemma {:induction false} StringLocal(s: Str, t: Str, signed: bool)
    requires DecodeString(s, signed).Ok?
    ensures DecodeString(s + t, signed) == DecodeString(s, signed)
  {
    VarIntLocal(s, t);
    var r := DecodeVarInt(s);
    var rest := s[r.used..];
    assert (s + t)[r.used..] == rest + t;
    var n := if signed then ToI32(r.value) else r.value;
    assert (rest + t)[..n] == rest[..n];
  }

  lemma {:induction false} DecodeBody(e: Str, s: Str, suffix: Str, signed: bool)
    requires |s| < 0x8000_0000 && DecodeVarInt(e + (s + suffix)) == Ok(|s|, |e|)
    ensures DecodeString(e + (s + suffix), signed) == Ok(s, |e| + |s|)
  {
    assert (e + (s + suffix))[|e|..] == s + suffix;
    assert (s + suffix)[..|s|] == s;
    assert DecodeBytes(s + suffix, |s|) == Ok(s, |s|);
  }

  lemma {:induction false} StringRoundTrip(s: Str, suffix: Str, signed: bool)
    requires |s| < 0x8000_0000
    ensures DecodeString(EncodeString(s) + suffix, signed) == Ok(s, |EncodeString(s)|)
  {
    var e, rest := Encode(|s|), s + suffix;
    assert EncodeString(s) + suffix == e + rest;
    DecodeOfEncode(|s|, rest);
    DecodeBody(e, s, suffix, signed);
  }

  lemma {:induction false} BigEndianRoundTrip(n: nat, k: nat)
    requires n < Pow256(k)
    ensures FromBigEndian(BigEndian(n, k)) == n
  {
    if k > 0 {
      BigEndianRoundTrip(n / 256, k - 1);
      assert BigEndian(n, k)[..k - 1] == BigEndian(n / 256, k - 1);
    }
  }

  /** The bytes of a number: the last one is the lowest. */
  lemma {:induction false} BigEndianAt(n: nat, k: nat, i: nat)
    requires i < k
    ensures BigEndian(n, k)[k - 1 - i] == n / Pow256(i) % 256
  {
    if i > 0 {
      BigEndianAt(n / 256, k - 1, i - 1);
      DivDiv(n, 256, Pow256(i - 1));
    }
  }

  lemma {:induction false} NumberRoundTrip(n: nat, k: nat, suffix: Str)
    requires n < Pow256(k)
    ensures DecodeNumber(BigEndian(n, k) + suffix, k) == Ok(n, k)
  {
    BigEndianRoundTrip(n, k);
    assert (BigEndian(n, k) + suffix)[..k] == BigEndian(n, k);
  }

  lemma {:induction false} LongRoundTrip(n: nat, suffix: Str, signed: bool)
    requires n < Pow256(8)
    ensures DecodeField(EncodeField(LongValue(n)) + suffix, LongField, signed) == Ok(LongValue(n), 8)
  {
    NumberRoundTrip(n, 8, suffix);
  }

  /** Every field comes back from its encoding, before any suffix. */
  lemma {:induction false} FieldRoundTrip(v: Value, suffix: Str, signed: bool)
    requires v.Fits()
    ensures DecodeField(EncodeField(v) + suffix, v.Kind(), signed) == Ok(v, |EncodeField(v)|)
  {
    match v
    case VarIntValue(n) => DecodeOfEncode(n, suffix);
    case StringValue(s) => StringRoundTrip(s, suffix, signed);
    case ByteValue(b) =>
    case ShortValue(n) => NumberRoundTrip(n, 2, suffix);
    case LongValue(n) => LongRoundTrip(n, suffix, signed);
  }

  lemma {:induction false} NumberLocal(s: Str, t: Str, k: nat)
    requires DecodeNumber(s, k).Ok?
    ensures DecodeNumber(s + t, k) == DecodeNumber(s, k)
  {
    assert (s + t)[..k] == s[..k];
  }

  /** What comes after a field does not matter to it. */
  lemma {:induction false} FieldLocal(s: Str, t: Str, kind: Kind, signed: bool)
    requires DecodeField(s, kind, signed).Ok?
    ensures DecodeField(s + t, kind, signed) == DecodeField(s, kind, signed)
  {
    match kind
    case VarIntField => VarIntLocal(s, t);
    case StringField => StringLocal(s, t, signed);
    case ByteField => NumberLocal(s, t, 1);
    case ShortField => NumberLocal(s, t, 2);
    case LongField => NumberLocal(s, t, 8);
  }

  lemma {:induction false} VarIntPrefix(s: Str, t: Str)
    requires DecodeVarInt(s + t).Ok? && DecodeVarInt(s + t).used <= |s|
    ensures DecodeVarInt(s) == DecodeVarInt(s + t)
  {
    var k := FirstEnd(s + t);
    FirstEndIs(s + t);
    assert forall i :: 0 <= i <= k ==> (s + t)[i] == s[i];
    FirstEndAt(s, k);
    GroupSumLocal(s, t, k + 1);
  }

  lemma {:induction false} StringPrefix(s: Str, t: Str, signed: bool)
    requires DecodeString(s + t, signed).Ok? && DecodeString(s + t, signed).used <= |s|
    ensures DecodeString(s, signed) == DecodeString(s + t, signed)
  {
    VarIntPrefix(s, t);
    var r := DecodeVarInt(s);
    var rest := s[r.used..];
    assert (s + t)[r.used..] == rest + t;
    var n := if signed then ToI32(r.value) else r.value;
    assert (rest + t)[..n] == rest[..n];
  }

  lemma {:induction false} NumberPrefix(s: Str, t: Str, k: nat)
    requires DecodeNumber(s + t, k).Ok? && k <= |s|
    ensures DecodeNumber(s, k) == DecodeNumber(s + t, k)
  {
    assert (s + t)[..k] == s[..k];
  }

  /** A field that was read without going beyond the front is in the front. */
  lemma {:induction false} FieldPrefix(s: Str, t: Str, kind: Kind, signed: bool)
    requires DecodeField(s + t, kind, signed).Ok? && DecodeField(s + t, kind, signed).used <= |s|
    ensures DecodeField(s, kind, signed) == DecodeField(s + t, kind, signed)
  {
    match kind
    case VarIntField => VarIntPrefix(s, t);
    case StringField => StringPrefix(s, t, signed);
    case ByteField => NumberPrefix(s, t, 1);
    case ShortField => NumberPrefix(s, t, 2);
    case LongField => NumberPrefix(s, t, 8);
  }

  /** A field fails for no other reasons than its bytes. */
  lemma {:induction false} FieldErrors(s: Str, kind: Kind, signed: bool)
    ensures DecodeField(s, kind, signed).Err? ==>
      var e := DecodeField(s, kind, signed).error;
      e.EOF? || e.VarIntTooBig? || (signed && e.NegativeLength?)
  {
  }

  /** A field that is accepted with signed lengths is accepted alike with unsigned ones. */
  lemma {:induction false} FieldSignedUnsigned(s: Str, kind: Kind)
    requires DecodeField(s, kind, true).Ok?
    ensures DecodeField(s, kind, false) == DecodeField(s, kind, true)
  {
  }

  // ------------------------------------------------- the loops

  /** A reader over a byte slice. */
  class Reader {
    const bytes: Str
    var pos: nat

    predicate Valid()
      reads this
    {
      pos <= |bytes|
    }

    constructor (bytes: Str)
      ensures Valid() && this.bytes == bytes && pos == 0
    {
      this.bytes := bytes;
      pos := 0;
    }

    method ReadByte() returns (r: Read<byte>)
      requires Valid()
      modifies this
      ensures Valid()
      ensures r == if bytes[old(pos)..] == [] then Err(EOF) else Ok(bytes[old(pos)..][0], 1)
      ensures pos == old(pos) + if r.Ok? then 1 else 0
    {
      if pos == |bytes| {
        return Err(EOF);
      }
      r := Ok(bytes[pos], 1);
      pos := pos + 1;
    }
  }

  /** Groups or-ed into place overlap nothing below them, so the or is a sum; a sum that does
      not fit 32 bits loses what is above. */
  lemma {:induction false} OrOfGroupIsSum(n: bv32, g: bv32)
    requires g < 128
    ensures n < 0x80 ==> n | (g << 7) == n + (g << 7)
    ensures n < 0x4000 ==> n | (g << 14) == n + (g << 14)
    ensures n < 0x20_0000 ==> n | (g << 21) == n + (g << 21)
    ensures n < 0x1000_0000 ==> n | (g << 28) == n + (g << 28)
  {
  }

  /** `n |= g << 7*i` on 32 bits, for an `n` below the shifted group (`OrOfGroupIsSum`);
      a shift by 32 or more leaves nothing of `g`. */
  function OrGroup(n: nat, g: nat, i: nat): nat {
    if i <= 4 then (n + g * Pow128(i)) % MOD_32 else n
  }

  lemma {:induction false} OrGroupIsSum(s: Str, i: nat)
    requires i <= 4 && i < |s|
    ensures OrGroup(GroupSum(s, i), s[i] % 128, i) == GroupSum(s, i + 1) % MOD_32
    ensures i < 4 ==> GroupSum(s, i + 1) % MOD_32 == GroupSum(s, i + 1)
  {
    GroupSumNext(s, i);
    GroupSumBound(s, i + 1);
    Powers();
  }

  /** The decoding loop, as an unsigned number. `ReadVarInt` reads the result as signed. */
  method ReadVarIntUnsigned(r: Reader) returns (res: Read<nat>)
    requires r.Valid()
    modifies r
    ensures r.Valid() && res == DecodeVarInt(r.bytes[old(r.pos)..])
    ensures res.Ok? ==> r.pos == old(r.pos) + res.used
  {
    ghost var s := r.bytes[r.pos..];
    FirstEndIs(s);
    var n: nat := 0;
    var i: nat := 0;
    while true
      invariant r.Valid() && r.pos == old(r.pos) + i && i <= 5 && i <= |s| && r.bytes[r.pos..] == s[i..]
      invariant forall j :: 0 <= j < i ==> s[j] >= 128
      invariant i <= 4 ==> n == GroupSum(s, i)
      decreases 6 - i
    {
      var sec := r.ReadByte();
      if sec.Err? {
        return Err(sec.error);
      }
      n := OrGroup(n, sec.value % 128, i);
      if i >= 5 {
        return Err(VarIntTooBig);
      }
      OrGroupIsSum(s, i);
      if sec.value < 128 {
        return Ok(n, i + 1);
      }
      i := i + 1;
    }
  }

  /** The same number read as a signed VarInt. */
  method ReadVarInt(r: Reader) returns (v: Read<int>)
    requires r.Valid()
    modifies r
    ensures r.Valid()
    ensures match DecodeVarInt(r.bytes[old(r.pos)..])
            case Ok(n, used) => v == Ok(ToI32(n), used) && r.pos == old(r.pos) + used
            case Err(e) => v == Err(e)
  {
    var u := ReadVarIntUnsigned(r);
    match u
    case Ok(n, used) => v := Ok(ToI32(n), used);
    case Err(e) => v := Err(e);
  }

  /** Reads into a buffer byte by byte. */
  method ReadNBytes(r: Reader, n: int) returns (res: Read<Str>)
    requires r.Valid()
    modifies r
    ensures r.Valid() && res == DecodeBytes(r.bytes[old(r.pos)..], n)
    ensures res.Ok? ==> r.pos == old(r.pos) + res.used
  {
    if n < 0 {
      return Err(NegativeLength);
    }
    ghost var s := r.bytes[r.pos..];
    var bb := new byte[n](_ => 0);
    for i := 0 to n
      invariant r.Valid() && r.pos == old(r.pos) + i && i <= |s| && r.bytes[r.pos..] == s[i..]
      invariant bb[..i] == s[..i]
    {
      var b := r.ReadByte();
      if b.Err? {
        return Err(b.error);
      }
      bb[i] := b.value;
      assert s[..i + 1] == s[..i] + [s[i]];
    }
    assert bb[..] == bb[..n];
    return Ok(bb[..], n);
  }

  method ReadString(r: Reader, signed: bool) returns (res: Read<Str>)
    requires r.Valid()
    modifies r
    ensures r.Valid() && res == DecodeString(r.bytes[old(r.pos)..], signed)
    ensures res.Ok? ==> r.pos == old(r.pos) + res.used
  {
    var length := ReadVarIntUnsigned(r);
    if length.Err? {
      return Err(length.error);
    }
    var bb := ReadNBytes(r, if signed then ToI32(length.value) else length.value);
    if bb.Err? {
      return Err(bb.error);
    }
    return Ok(bb.value, length.used + bb.used);
  }

  method ReadNumber(r: Reader, k: nat) returns (res: Read<nat>)
    requires r.Valid()
    modifies r
    ensures r.Valid() && res == DecodeNumber(r.bytes[old(r.pos)..], k)
    ensures res.Ok? ==> r.pos == old(r.pos) + res.used
  {
    var bb := ReadNBytes(r, k);
    if bb.Err? {
      return Err(bb.error);
    }
    var n: nat := 0;
    for i := 0 to k
      invariant n == FromBigEndian(bb.value[..i])
    {
      assert bb.value[..i + 1][..i] == bb.value[..i];
      n := n * 256 + bb.value[i];
    }
    assert bb.value[..k] == bb.value;
    return Ok(n, k);
  }

  method ReadField(r: Reader, kind: Kind, signed: bool) returns (res: Read<Value>)
    requires r.Valid()
    modifies r
    ensures r.Valid() && res == DecodeField(r.bytes[old(r.pos)..], kind, signed)
    ensures res.Ok? ==> r.pos == old(r.pos) + res.used
  {
    match kind
    case VarIntField =>
      var v := ReadVarIntUnsigned(r);
      res := if v.Ok? then Ok(VarIntValue(v.value), v.used) else Err(v.error);
    case StringField =>
      var v := ReadString(r, signed);
      res := if v.Ok? then Ok(StringValue(v.value), v.used) else Err(v.error);
    case ByteField =>
      var v := r.ReadByte();
      res := if v.Ok? then Ok(ByteValue(v.value), v.used) else Err(v.error);
    case ShortField =>
      var v := ReadNumber(r, 2);
      res := if v.Ok? then Ok(ShortValue(v.value), v.used) else Err(v.error);
    case LongField =>
      var v := ReadNumber(r, 8);
      res := if v.Ok? then Ok(LongValue(v.value), v.used) else Err(v.error);
  }

  /** The encoding loop. */
  method VarIntEncode(v: int) returns (bb: Str)
    requires -0x8000_0000 <= v < 0x8000_0000
    ensures bb == EncodeVarInt(v)
  {
    var num := v % MOD_32;
    bb := [];
    while true
      invariant num >= 0 && bb + Encode(num) == EncodeVarInt(v)
      decreases num
    {
      var b := num % 128;
      var last := num / 128 == 0;
      assert Encode(num) == if last then [b] else [b + 128] + Encode(num / 128);
      num := num / 128;
      if num != 0 {
        b := b + 128;
      }
      bb := bb + [b];
      if num == 0 {
        break;
      }
    }
  }
}
