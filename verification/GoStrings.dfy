/** Byte strings: splitting, joining and decimal numbers, as the Go library does them. */
module GoStrings {

  type byte = b: int | 0 <= b < 256

  type Str = seq<byte>

  const SEMICOLON: byte := 59
  const SLASH: byte := 47
  const NUL: byte := 0
  const MINUS: byte := 45
  const PLUS: byte := 43
  const DIGIT_0: byte := 48

  // ------------------------------------------------- splitting

  predicate OccursAt(s: Str, sep: Str, p: int) {
    0 <= p && p + |sep| <= |s| && s[p..p + |sep|] == sep
  }

  predicate Contains(s: Str, sep: Str) {
    Index(s, sep, 0) >= 0
  }

  /** The first occurrence of `sep` at `from` or later, or -1. */
  function Index(s: Str, sep: Str, from: nat): (p: int)
    requires from <= |s|
    ensures p == -1 || (from <= p && OccursAt(s, sep, p))
    ensures forall q :: from <= q && OccursAt(s, sep, q) ==> p != -1 && p <= q
    decreases |s| - from
  {
    if from + |sep| > |s| then -1
    else if s[from..from + |sep|] == sep then from
    else if from == |s| then -1
    else Index(s, sep, from + 1)
  }

  function Split(s: Str, sep: Str): (parts: seq<Str>)
    requires sep != []
    ensures |parts| >= 1
    decreases |s|
  {
    var p := Index(s, sep, 0);
    if p == -1 then [s] else [s[..p]] + Split(s[p + |sep|..], sep)
  }

  /** At most `n` parts; the last one is whatever is left. */
  function SplitN(s: Str, sep: Str, n: nat): (parts: seq<Str>)
    requires sep != [] && n >= 1
    ensures 1 <= |parts| <= n
    decreases n
  {
    var p := Index(s, sep, 0);
    if p == -1 || n == 1 then [s] else [s[..p]] + SplitN(s[p + |sep|..], sep, n - 1)
  }

  function Join(parts: seq<Str>, sep: Str): Str
    requires |parts| >= 1
    decreases |parts|
  {
    if |parts| == 1 then parts[0] else parts[0] + sep + Join(parts[1..], sep)
  }

  /** The first two parts are the same whether the splitting stops after three or not. */
  lemma {:induction false} SplitInThree(s: Str, sep: Str)
    requires sep != []
    ensures SplitN(s, sep, 3)[0] == Split(s, sep)[0]
    ensures |SplitN(s, sep, 3)| > 1 <==> |Split(s, sep)| > 1
    ensures |Split(s, sep)| > 1 ==> SplitN(s, sep, 3)[1] == Split(s, sep)[1]
  {
    var p, three := Index(s, sep, 0), 3;
    assert SplitN(s, sep, three) == if p == -1 then [s] else [s[..p]] + SplitN(s[p + |sep|..], sep, three - 1);
    if p != -1 {
      FirstOfSplitN(s[p + |sep|..], sep, three - 1);
    }
  }

  lemma {:induction false} FirstOfSplitN(s: Str, sep: Str, n: nat)
    requires sep != [] && n >= 2
    ensures SplitN(s, sep, n)[0] == Split(s, sep)[0]
  {
  }

  /** The first occurrence of a byte right after a part that lacks it. */
  lemma {:induction false} IndexAfter(a: Str, c: byte, rest: Str)
    requires c !in a
    ensures Index(a + [c] + rest, [c], 0) == |a|
  {
    var s := a + [c] + rest;
    assert OccursAt(s, [c], |a|);
    var p := Index(s, [c], 0);
    assert s[p..p + 1] == [s[p]];
  }

  lemma {:induction false} IndexNone(a: Str, c: byte)
    ensures Index(a, [c], 0) == -1 <==> c !in a
  {
    var p := Index(a, [c], 0);
    if p != -1 {
      assert a[p..p + 1] == [a[p]];
    } else if c in a {
      var q :| 0 <= q < |a| && a[q] == c;
      assert OccursAt(a, [c], q);
    }
  }

  /** Parts without the separator byte come back from joining and splitting. */
  lemma {:induction false} SplitOfJoin(parts: seq<Str>, c: byte)
    requires |parts| >= 1 && forall i :: 0 <= i < |parts| ==> c !in parts[i]
    ensures Split(Join(parts, [c]), [c]) == parts
    decreases |parts|
  {
    var s := Join(parts, [c]);
    if |parts| == 1 {
      IndexNone(parts[0], c);
    } else {
      var rest := Join(parts[1..], [c]);
      IndexAfter(parts[0], c, rest);
      SplitOfJoin(parts[1..], c);
      assert s[..|parts[0]|] == parts[0] && s[|parts[0]| + 1..] == rest;
      assert parts == [parts[0]] + parts[1..];
    }
  }

  /** No part of a split contains the separator byte. */
  lemma {:induction false} PartsLackSeparator(s: Str, c: byte)
    ensures forall i :: 0 <= i < |Split(s, [c])| ==> c !in Split(s, [c])[i]
    decreases |s|
  {
    var p := Index(s, [c], 0);
    if p == -1 {
      IndexNone(s, c);
    } else {
      PartsLackSeparator(s[p + 1..], c);
      forall q | 0 <= q < p ensures s[q] != c {
        assert !OccursAt(s, [c], q);
        assert s[q..q + 1] == [s[q]];
      }
    }
  }

  // ------------------------------------------------- decimal numbers

  predicate IsDigit(c: byte) {
    DIGIT_0 <= c < DIGIT_0 + 10
  }

  predicate AllDigits(s: Str) {
    forall i :: 0 <= i < |s| ==> IsDigit(s[i])
  }

  function Digits(n: nat): (s: Str)
    ensures |s| >= 1 && AllDigits(s)
  {
    if n < 10 then [DIGIT_0 + n] else Digits(n / 10) + [DIGIT_0 + n % 10]
  }

  /** What "%d" prints. */
  function FormatInt(n: int): Str {
    if n < 0 then [MINUS] + Digits(-n) else Digits(n)
  }

  function Value(s: Str): nat
    requires AllDigits(s)
  {
    if s == [] then 0
    else
      assert IsDigit(s[|s| - 1]);
      Value(s[..|s| - 1]) * 10 + (s[|s| - 1] - DIGIT_0)
  }

  const MAX_INT := 0x7fff_ffff_ffff_ffff
  const MIN_INT := -0x8000_0000_0000_0000

  /** strconv.Atoi with its error ignored: a malformed number gives 0 and one out of range
      the nearest 64-bit integer. */
  function Atoi(s: Str): int {
    var signed := |s| >= 1 && (s[0] == MINUS || s[0] == PLUS);
    var digits := if signed then s[1..] else s;
    if digits == [] || !AllDigits(digits) then 0
    else
      var n: int := Value(digits);
      if signed && s[0] == MINUS then (if -n < MIN_INT then MIN_INT else -n)
      else if n > MAX_INT then MAX_INT else n
  }

  lemma {:induction false} ValueOfDigits(n: nat)
    ensures Value(Digits(n)) == n
  {
    if n >= 10 {
      ValueOfDigits(n / 10);
      assert Digits(n)[..|Digits(n)| - 1] == Digits(n / 10);
    }
  }

  lemma {:induction false} FormatHasNo(n: int, c: byte)
    requires !IsDigit(c) && c != MINUS
    ensures c !in FormatInt(n)
  {
  }

  lemma {:induction false} MulMonotone(d: nat, x: int, y: int)
    requires x <= y
    ensures d * x <= d * y
  {
  }

  lemma {:induction false} QuotientIs(n: nat, d: int, q: int, r: int)
    requires n == d * q + r && 0 <= r < d
    ensures n / d == q
  {
    var p := n / d;
    assert d * (q + 1) == d * q + d && d * (p + 1) == d * p + d;
    if p > q {
      MulMonotone(d, q + 1, p);
    } else if p < q {
      MulMonotone(d, p + 1, q);
    }
  }

  /** Dividing twice is dividing by the product. */
  lemma {:induction false} DivDiv(n: nat, a: int, b: int)
    requires a > 0 && b > 0
    ensures a * b > 0 && n / a / b == n / (a * b)
  {
    MulMonotone(a, 1, b);
    var m := n / a;
    var q, r := m / b, m % b;
    MulMonotone(a, 0, r);
    MulMonotone(a, r, b - 1);
    Distribute(a, b, q, r);
    QuotientIs(n, a * b, q, a * r + n % a);
  }

  lemma {:induction false} Distribute(a: int, b: int, q: int, r: int)
    ensures a * (b * q + r) == a * b * q + a * r && a * (b - 1) == a * b - a
  {
  }

  function Pow10(k: nat): (p: nat)
    ensures p >= 1
  {
    if k == 0 then 1 else 10 * Pow10(k - 1)
  }

  /** The place of every digit: the k-th from the right is the one of the k-th power of ten. */
  lemma {:induction false} DigitAt(n: nat, k: nat)
    requires k < |Digits(n)|
    ensures Digits(n)[|Digits(n)| - 1 - k] == DIGIT_0 + n / Pow10(k) % 10
  {
    if k > 0 {
      DigitAt(n / 10, k - 1);
      DivDiv(n, 10, Pow10(k - 1));
    }
  }

  /** There are as many digits as needed, so no leading zero. */
  lemma {:induction false} DigitsLength(n: nat, k: nat)
    requires k >= 1
    ensures |Digits(n)| <= k <==> n < Pow10(k)
  {
    if k > 1 && n >= 10 {
      DigitsLength(n / 10, k - 1);
    } else {
      assert Pow10(1) == 10 * Pow10(0) && Pow10(k) == 10 * Pow10(k - 1);
    }
  }

  lemma {:induction false} AtoiOfDigits(s: Str)
    requires s != [] && AllDigits(s)
    ensures Atoi(s) == Atoi([PLUS] + s) == if Value(s) > MAX_INT then MAX_INT else Value(s)
    ensures Atoi([MINUS] + s) == if 0 - Value(s) < MIN_INT then MIN_INT else 0 - Value(s)
  {
    assert IsDigit(s[0]);
    assert ([MINUS] + s)[1..] == s && ([PLUS] + s)[1..] == s;
  }

  /** A number comes back from printing; one that is out of range as the nearest 64-bit integer. */
  lemma {:induction false} AtoiClamps(n: int)
    ensures Atoi(FormatInt(n)) == if n > MAX_INT then MAX_INT else if n < MIN_INT then MIN_INT else n
  {
    var m := if n < 0 then -n else n;
    ValueOfDigits(m);
    AtoiOfDigits(Digits(m));
  }

  /** Every 64-bit integer, negative ones included, comes back from printing. */
  lemma {:induction false} AtoiOfFormat(n: int)
    requires MIN_INT <= n <= MAX_INT
    ensures Atoi(FormatInt(n)) == n
  {
    AtoiClamps(n);
  }

  /** Whatever is not digits behind at most one sign is read as zero. */
  lemma {:induction false} AtoiMalformed(s: Str, i: nat)
    requires i < |s| && !IsDigit(s[i]) && (i == 0 ==> s[0] != MINUS && s[0] != PLUS)
    ensures Atoi(s) == 0
  {
    var signed := s[0] == MINUS || s[0] == PLUS;
    var digits, k := if signed then s[1..] else s, if signed then i - 1 else i;
    assert digits[k] == s[i];
    assert !AllDigits(digits);
  }
}
