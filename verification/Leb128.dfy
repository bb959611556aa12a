/** Unsigned LEB128 over natural numbers of any size (DWARF 5, section 7.6). Both codecs of
    the repository write this form; they differ in the width they read it at. */
module Leb128 {
  import opened GoStrings

  function Encode(n: nat): (s: Str)
    ensures |s| >= 1
  {
    if n < 128 then [n] else [n % 128 + 128] + Encode(n / 128)
  }

  /** The position of the first byte without the continuation bit, or the length. */
  function FirstEnd(s: Str): (k: nat)
    ensures k <= |s|
  {
    if s == [] || s[0] < 128 then 0 else FirstEnd(s[1..]) + 1
  }

  lemma {:induction false} FirstEndIs(s: Str)
    ensures FirstEnd(s) < |s| ==> s[FirstEnd(s)] < 128
    ensures forall i :: 0 <= i < FirstEnd(s) ==> s[i] >= 128
  {
    if s != [] && s[0] >= 128 {
      FirstEndIs(s[1..]);
      assert forall i :: 0 < i < |s| ==> s[i] == s[1..][i - 1];
    }
  }

  /** The number the seven-bit groups of the first `k` bytes stand for, lowest group first. */
  function GroupSum(s: Str, k: nat): nat
    requires k <= |s|
  {
    if k == 0 then 0 else s[0] % 128 + 128 * GroupSum(s[1..], k - 1)
  }

  function Pow128(k: nat): (p: nat)
    ensures p >= 1
  {
    if k == 0 then 1 else 128 * Pow128(k - 1)
  }

  lemma {:induction false} MulShift(a: int, g: int, p: int)
    ensures 128 * (a + g * p) == 128 * a + g * (128 * p)
  {
  }

  /** One more group adds itself, shifted by seven bits per group before it. */
  lemma {:induction false} GroupSumNext(s: Str, k: nat)
    requires k < |s|
    ensures GroupSum(s, k + 1) == GroupSum(s, k) + s[k] % 128 * Pow128(k)
  {
    if k > 0 {
      var t, g, p := s[1..], s[k] % 128, Pow128(k - 1);
      GroupSumNext(t, k - 1);
      assert GroupSum(t, k) == GroupSum(t, k - 1) + g * p;
      MulShift(GroupSum(t, k - 1), g, p);
    }
  }

  lemma {:induction false} GroupSumZero(s: Str, k: nat)
    requires k < |s| && s[k] % 128 == 0
    ensures GroupSum(s, k + 1) == GroupSum(s, k)
  {
    GroupSumNext(s, k);
    var p := Pow128(k);
    assert 0 * p == 0;
  }

  lemma {:induction false} GroupSumBound(s: Str, k: nat)
    requires k <= |s|
    ensures GroupSum(s, k) < Pow128(k)
  {
    if k > 0 {
      GroupSumBound(s[1..], k - 1);
    }
  }

  /** Only the bytes up to `k` matter. */
  lemma {:induction false} GroupSumLocal(s: Str, t: Str, k: nat)
    requires k <= |s|
    ensures GroupSum(s + t, k) == GroupSum(s, k)
  {
    if k > 0 {
      assert (s + t)[1..] == s[1..] + t;
      GroupSumLocal(s[1..], t, k - 1);
    }
  }

  lemma {:induction false} FirstEndLocal(s: Str, t: Str)
    requires FirstEnd(s) < |s|
    ensures FirstEnd(s + t) == FirstEnd(s)
  {
    if s[0] >= 128 {
      assert (s + t)[1..] == s[1..] + t;
      FirstEndLocal(s[1..], t);
    }
  }

  /** An encoding ends exactly at its end, and its groups are the number. */
  lemma {:induction false} EncodeGroups(n: nat)
    ensures FirstEnd(Encode(n)) == |Encode(n)| - 1
    ensures GroupSum(Encode(n), |Encode(n)|) == n
  {
    var s := Encode(n);
    if n < 128 {
      assert GroupSum(s[1..], 0) == 0;
    } else {
      var t := Encode(n / 128);
      EncodeGroups(n / 128);
      assert s[0] % 128 == n % 128 && s[1..] == t;
      assert GroupSum(s, |s|) == n % 128 + 128 * GroupSum(t, |t|);
    }
  }

  /** Encodings grow with the power of 128 that the number reaches. */
  lemma {:induction false} EncodeLength(n: nat, k: nat)
    requires k >= 1
    ensures |Encode(n)| <= k <==> n < Pow128(k)
  {
    if n >= 128 {
      if k > 1 {
        EncodeLength(n / 128, k - 1);
      } else {
        assert Pow128(1) == 128 * Pow128(0);
      }
    }
  }

  /** The lowest `k` groups of a number: what is left of it below the power of 128. */
  function Low(n: nat, k: nat): nat {
    if k == 0 then 0 else n % 128 + 128 * Low(n / 128, k - 1)
  }

  lemma {:induction false} LowGroups(n: nat, k: nat)
    requires k <= |Encode(n)|
    ensures GroupSum(Encode(n), k) == Low(n, k)
  {
    var s := Encode(n);
    if k > 0 {
      assert s[0] % 128 == n % 128;
      if n < 128 {
        assert k == 1 && GroupSum(s[1..], 0) == 0 && Low(n / 128, 0) == 0;
      } else {
        assert s[1..] == Encode(n / 128);
        LowGroups(n / 128, k - 1);
      }
    }
  }

  /** The lowest groups are the number exactly if there are no others. */
  lemma {:induction false} LowExact(n: nat, k: nat)
    ensures Low(n, k) <= n
    ensures Low(n, k) == n <==> n == 0 || (k >= 1 && |Encode(n)| <= k)
  {
    if k > 0 {
      LowExact(n / 128, k - 1);
    }
  }

  /** Continuation bytes and then a last one: that is where it ends. */
  lemma {:induction false} FirstEndAt(s: Str, k: nat)
    requires k <= |s| && (forall i :: 0 <= i < k ==> s[i] >= 128) && (k < |s| ==> s[k] < 128)
    ensures FirstEnd(s) == k
  {
    FirstEndIs(s);
  }

  /** No encoding begins another one. */
  lemma {:induction false} PrefixFree(m: nat, n: nat)
    requires Encode(m) <= Encode(n)
    ensures m == n
  {
    EncodeGroups(m);
    EncodeGroups(n);
    var s, t := Encode(m), Encode(n)[|Encode(m)|..];
    assert Encode(n) == s + t;
    FirstEndLocal(s, t);
    assert t == [] && Encode(n) == s;
  }

  /** No byte string whose groups make up `n` is shorter than the encoding of `n`. */
  lemma {:induction false} EncodeShortest(s: Str, n: nat)
    requires s != [] && GroupSum(s, |s|) == n
    ensures |Encode(n)| <= |s|
  {
    GroupSumBound(s, |s|);
    EncodeLength(n, |s|);
  }

  /** The bytes of an encoding: the k-th one holds the k-th group of seven bits, lowest first, and
      all but the last have the continuation bit. */
  lemma {:induction false} EncodeAt(n: nat, k: nat)
    requires k < |Encode(n)|
    ensures Encode(n)[k] == n / Pow128(k) % 128 + if k + 1 < |Encode(n)| then 128 else 0
  {
    if k > 0 {
      EncodeAt(n / 128, k - 1);
      DivDiv(n, 128, Pow128(k - 1));
    }
  }
}
