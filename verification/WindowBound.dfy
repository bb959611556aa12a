/** How much a counter that restarts every `cooldown` can let through in any interval. */
module WindowBound {

  datatype Window = NoWindow | Window(start: int, counter: int)

  /** One call: when it came, whether it looked at the counter, whether it was let through
      at the counter's expense, and the window after it. */
  datatype Entry = Entry(time: int, touched: bool, counted: bool, win: Window)

  predicate Restarts(w: Window, time: int, cooldown: int) {
    w.NoWindow? || time - w.start >= cooldown
  }

  /** `e` follows the window `w`: the counter restarts after a cooldown, grows with every
      call it lets through, and lets none through beyond `limit`. */
  predicate Follows(w: Window, e: Entry, cooldown: int, limit: int) {
    if !e.touched then e.win == w && !e.counted
    else
      && e.win.Window?
      && (if Restarts(w, e.time, cooldown)
          then e.win.start == e.time && e.win.counter >= (if e.counted then 1 else 0)
          else e.win.start == w.start && e.win.counter >= w.counter + (if e.counted then 1 else 0))
      && (e.counted ==> e.win.counter <= limit)
  }

  function WindowAt(tr: seq<Entry>, n: nat): Window
    requires n <= |tr|
  {
    if n == 0 then NoWindow else tr[n - 1].win
  }

  ghost predicate FitsAt(tr: seq<Entry>, i: nat, cooldown: int, limit: int)
    requires i < |tr|
  {
    && Follows(WindowAt(tr, i), tr[i], cooldown, limit)
    && (i > 0 ==> tr[i - 1].time <= tr[i].time)
  }

  /** A run of calls in the order of their times. */
  ghost predicate Windowed(tr: seq<Entry>, cooldown: int, limit: int) {
    forall i :: 0 <= i < |tr| ==> FitsAt(tr, i, cooldown, limit)
  }

  /** How many of the first `n` calls were counted at a time in [a, b]. */
  function Counted(tr: seq<Entry>, n: nat, a: int, b: int): nat
    requires n <= |tr|
  {
    if n == 0 then 0
    else Counted(tr, n - 1, a, b) + if tr[n - 1].counted && a <= tr[n - 1].time <= b then 1 else 0
  }

  /** How many windows the calls in [a, b] among the first `n` fall into. */
  function Touched(tr: seq<Entry>, n: nat, a: int, b: int, cooldown: int): nat
    requires n <= |tr|
  {
    if n == 0 then 0
    else
      var k, e := Touched(tr, n - 1, a, b, cooldown), tr[n - 1];
      if e.touched && a <= e.time <= b && (k == 0 || Restarts(WindowAt(tr, n - 1), e.time, cooldown)) then k + 1 else k
  }

  function Min(x: int, y: int): int {
    if x < y then x else y
  }

  /** While the interval lasts: full windows let `limit` through, the current one its counter;
      and consecutive windows start at least a cooldown apart. */
  ghost predicate Progress(w: Window, count: int, k: int, a: int, b: int, cooldown: int, limit: int) {
    && (k == 0 ==> count == 0)
    && (k >= 1 ==>
          && w.Window? && a < w.start + cooldown && w.start <= b
          && count <= limit * (k - 1) + Min(w.counter, limit))
    && (k >= 2 ==> w.start > a + (k - 2) * cooldown)
  }

  /** What remains true after the interval. */
  ghost predicate Settled(count: int, k: int, a: int, b: int, cooldown: int, limit: int) {
    && count <= limit * k
    && (k >= 2 ==> (k - 2) * cooldown < b - a)
  }

  lemma {:induction false} ProgressSettles(w: Window, count: int, k: nat, a: int, b: int, cooldown: int, limit: nat)
    requires Progress(w, count, k, a, b, cooldown, limit)
    ensures Settled(count, k, a, b, cooldown, limit)
  {
    if k >= 1 {
      assert limit * k == limit * (k - 1) + limit;
    }
  }

  /** A window after the calls up to `time` started by then and has not counted below zero. */
  predicate Started(w: Window, time: int) {
    w.Window? ==> w.start <= time && w.counter >= 0
  }

  lemma {:induction false} OpensWindow(
    w: Window, e: Entry, count: nat, k: nat, a: int, b: int, cooldown: int, limit: nat)
    requires cooldown > 0 && e.touched && Follows(w, e, cooldown, limit) && a <= e.time <= b
    requires Progress(w, count, k, a, b, cooldown, limit) && Started(w, e.time)
    requires k == 0 || Restarts(w, e.time, cooldown)
    ensures Progress(e.win, count + (if e.counted then 1 else 0), k + 1, a, b, cooldown, limit)
  {
    if k >= 1 {
      assert limit * k == limit * (k - 1) + limit;
      assert (k + 1 - 2) * cooldown == (k - 2) * cooldown + cooldown;
      assert k == 1 ==> (k - 2) * cooldown == -cooldown;
    }
  }

  lemma {:induction false} StaysInWindow(
    w: Window, e: Entry, count: nat, k: nat, a: int, b: int, cooldown: int, limit: nat)
    requires cooldown > 0 && e.touched && Follows(w, e, cooldown, limit) && a <= e.time <= b
    requires Progress(w, count, k, a, b, cooldown, limit) && Started(w, e.time)
    requires k >= 1 && !Restarts(w, e.time, cooldown)
    ensures Progress(e.win, count + (if e.counted then 1 else 0), k, a, b, cooldown, limit)
  {
  }

  ghost predicate RunOk(tr: seq<Entry>, n: nat, a: int, b: int, cooldown: int, limit: nat)
    requires n <= |tr|
  {
    var count, k := Counted(tr, n, a, b), Touched(tr, n, a, b, cooldown);
    && Settled(count, k, a, b, cooldown, limit)
    && (n == 0 || tr[n - 1].time <= b ==> Progress(WindowAt(tr, n), count, k, a, b, cooldown, limit))
    && (n > 0 ==> Started(WindowAt(tr, n), tr[n - 1].time))
  }

  lemma {:induction false} NextRunOk(tr: seq<Entry>, n: nat, a: int, b: int, cooldown: int, limit: nat)
    requires n < |tr| && cooldown > 0 && FitsAt(tr, n, cooldown, limit)
    requires RunOk(tr, n, a, b, cooldown, limit)
    ensures RunOk(tr, n + 1, a, b, cooldown, limit)
  {
    var e, w := tr[n], WindowAt(tr, n);
    var count, k := Counted(tr, n, a, b), Touched(tr, n, a, b, cooldown);
    if e.touched && a <= e.time <= b {
      if k == 0 || Restarts(w, e.time, cooldown) {
        OpensWindow(w, e, count, k, a, b, cooldown, limit);
      } else {
        StaysInWindow(w, e, count, k, a, b, cooldown, limit);
      }
      ProgressSettles(e.win, Counted(tr, n + 1, a, b), Touched(tr, n + 1, a, b, cooldown), a, b, cooldown, limit);
    }
  }

  lemma {:induction false} RunProgress(tr: seq<Entry>, n: nat, a: int, b: int, cooldown: int, limit: nat)
    requires n <= |tr| && cooldown > 0 && Windowed(tr, cooldown, limit)
    ensures RunOk(tr, n, a, b, cooldown, limit)
  {
    if n == 0 {
      assert Counted(tr, 0, a, b) == Touched(tr, 0, a, b, cooldown) == 0;
      ProgressSettles(NoWindow, 0, 0, a, b, cooldown, limit);
    } else {
      RunProgress(tr, n - 1, a, b, cooldown, limit);
      NextRunOk(tr, n - 1, a, b, cooldown, limit);
    }
  }

  /** The quotient of a nonnegative length by the cooldown, rounded up. */
  function CeilDiv(length: nat, cooldown: int): nat
    requires cooldown > 0
  {
    (length + cooldown - 1) / cooldown
  }

  lemma {:induction false} MulMonotone(x: int, y: int, m: nat)
    requires x <= y
    ensures m * x <= m * y
  {
  }

  lemma {:induction false} BelowCeil(k: int, length: nat, cooldown: int)
    requires cooldown > 0 && k * cooldown < length
    ensures k < CeilDiv(length, cooldown)
  {
    var c := CeilDiv(length, cooldown);
    assert c * cooldown >= length;
    if k >= c {
      MulMonotone(c, k, cooldown);
      assert false;
    }
  }

  /** In any closed interval of any length, at most `limit` calls per window, and one window
      more than the length has cooldowns. */
  lemma {:induction false} SlidingBound(tr: seq<Entry>, a: int, length: nat, cooldown: int, limit: nat)
    requires cooldown > 0 && Windowed(tr, cooldown, limit)
    ensures Counted(tr, |tr|, a, a + length) <= limit * (CeilDiv(length, cooldown) + 1)
  {
    RunProgress(tr, |tr|, a, a + length, cooldown, limit);
    var k := Touched(tr, |tr|, a, a + length, cooldown);
    if k >= 2 {
      BelowCeil(k - 2, length, cooldown);
    }
    MulMonotone(k, CeilDiv(length, cooldown) + 1, limit);
  }
}
