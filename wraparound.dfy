/**
 * Ring arithmetic for the replay buffer: Python's slice semantics on
 * sequences, the two-slice read `ReplayBuffer.get_window` (dqn.py:167-175),
 * and the facts about `%` that the cursor and the window rely on.
 *
 * Dafny's `%` is Euclidean; for the positive moduli used here (the buffer
 * capacity) it agrees with Python's flooring `%`.
 */
module Wraparound {

  // ---------------------------------------------------------------------
  // Modular arithmetic
  // ---------------------------------------------------------------------

  /** `x % n` is the unique remainder `r` with `x == q * n + r`, `0 <= r < n`. */
  lemma ModUnique(x: int, n: int, q: int, r: int)
    requires n > 0 && x == q * n + r && 0 <= r < n
    ensures x % n == r
  {
    var q' := x / n;
    assert x == q' * n + x % n;
    assert (q - q') * n == x % n - r;
    if q - q' >= 1 {
      MulAtLeast(q - q', n);
    } else if q - q' <= -1 {
      MulAtLeast(q' - q, n);
    }
  }

  lemma MulAtLeast(k: int, n: int)
    requires k >= 1 && n > 0
    ensures k * n >= n
  {
  }

  lemma ModOfSmall(x: int, n: int)
    requires -n <= x < 2 * n
    ensures n > 0 ==> x % n == (if x < 0 then x + n else if x < n then x else x - n)
  {
    if n > 0 {
      if x < 0 {
        ModUnique(x, n, -1, x + n);
      } else if x < n {
        ModUnique(x, n, 0, x);
      } else {
        ModUnique(x, n, 1, x - n);
      }
    }
  }

  /** Advancing by one and reducing commutes with reducing first. */
  lemma ModSucc(x: int, n: int)
    requires n > 0
    ensures (x % n + 1) % n == (x + 1) % n
  {
    var q, r := x / n, x % n;
    assert x == q * n + r;
    if r + 1 < n {
      ModUnique(r + 1, n, 0, r + 1);
      ModUnique(x + 1, n, q, r + 1);
    } else {
      ModUnique(r + 1, n, 1, 0);
      assert x + 1 == (q + 1) * n;
      ModUnique(x + 1, n, q + 1, 0);
    }
  }

  /** Two positions less than `n` apart land in different slots. */
  lemma ModDistinct(x: int, d: int, n: int)
    requires 0 < d < n
    ensures (x + d) % n != x % n
  {
    var q, r := x / n, x % n;
    assert x == q * n + r;
    if r + d < n {
      ModUnique(x + d, n, q, r + d);
    } else {
      assert x + d == (q + 1) * n + (r + d - n);
      ModUnique(x + d, n, q + 1, r + d - n);
    }
  }

  // ---------------------------------------------------------------------
  // Python slicing
  // ---------------------------------------------------------------------

  /** One bound of a Python slice over a sequence of length `n`: a negative
      bound counts back from the end, and the result is clamped to [0, n]. */
  function SliceBound(i: int, n: nat): (b: nat)
    ensures b <= n
  {
    if i < 0 then (if i + n < 0 then 0 else i + n)
    else if i > n then n
    else i
  }

  /** `a[lo:hi]` as Python evaluates it; an empty slice when the normalised
      bounds cross. */
  function Slice<T>(a: seq<T>, lo: int, hi: int): (s: seq<T>)
    ensures |s| <= |a|
    ensures 0 <= lo <= hi <= |a| ==> s == a[lo..hi]
    ensures -|a| <= lo < 0 && hi == |a| ==> s == a[|a| + lo..]
  {
    var l := SliceBound(lo, |a|);
    var h := SliceBound(hi, |a|);
    if l <= h then a[l..h] else []
  }

  // ---------------------------------------------------------------------
  // get_window
  // ---------------------------------------------------------------------

  /** `ReplayBuffer.get_window(array, start, end)` (dqn.py:167-175), with the
      capacity being the array's length: a start before slot 0 takes the
      tail first, an end past the last slot continues at the head. */
  function Window<T>(a: seq<T>, start: int, end: int): seq<T>
  {
    if start < 0 then Slice(a, start, |a|) + Slice(a, 0, end)
    else if end > |a| then Slice(a, start, |a|) + Slice(a, 0, end - |a|)
    else Slice(a, start, end)
  }

  /** The logical ranges `[start, end)` that `Window` reads exactly: at most
      one lap either side of the array, and not running off both ends at
      once (the case the comment at dqn.py:168-169 warns about). */
  predicate InRange(n: nat, start: int, end: int)
  {
    && -(n as int) <= start <= end
    && start <= n
    && 0 <= end <= 2 * n
    && !(start < 0 && end > n)
  }

  /** On such a range the window has exactly `end - start` elements. */
  lemma WindowLength<T>(a: seq<T>, start: int, end: int)
    requires InRange(|a|, start, end)
    ensures |Window(a, start, end)| == end - start
  {
  }

  /** On such a range the window is the ring read in logical order: exactly
      `end - start` elements, element `j` taken from slot `(start + j) mod n`. */
  lemma WindowIndexing<T>(a: seq<T>, start: int, end: int)
    requires InRange(|a|, start, end)
    ensures |Window(a, start, end)| == end - start
    ensures forall j :: 0 <= j < end - start ==> Window(a, start, end)[j] == a[(start + j) % |a|]
  {
    if start < 0 {
      StartWraps(a, start, end);
    } else if end > |a| {
      EndWraps(a, start, end);
    } else {
      NoWrap(a, start, end);
    }
  }

  lemma StartWraps<T>(a: seq<T>, start: int, end: int)
    requires -|a| <= start < 0 <= end <= |a|
    ensures |Window(a, start, end)| == end - start
    ensures forall j :: 0 <= j < end - start ==> Window(a, start, end)[j] == a[(start + j) % |a|]
  {
    var n := |a|;
    var tail, head := Slice(a, start, n), Slice(a, 0, end);
    assert tail == a[n + start..] && head == a[0..end];
    var w := Window(a, start, end);
    assert w == tail + head;
    forall j | 0 <= j < end - start
      ensures w[j] == a[(start + j) % n]
    {
      ModOfSmall(start + j, n);
      if j < -start {
        assert (start + j) % n == n + start + j;
        assert w[j] == tail[j];
      } else {
        assert (start + j) % n == start + j;
        assert w[j] == head[start + j];
      }
    }
  }

  lemma EndWraps<T>(a: seq<T>, start: int, end: int)
    requires 0 <= start <= |a| < end <= 2 * |a| && start <= end
    ensures |Window(a, start, end)| == end - start
    ensures forall j :: 0 <= j < end - start ==> Window(a, start, end)[j] == a[(start + j) % |a|]
  {
    var n := |a|;
    var tail, head := Slice(a, start, n), Slice(a, 0, end - n);
    assert tail == a[start..n] && head == a[0..end - n];
    var w := Window(a, start, end);
    assert w == tail + head;
    forall j | 0 <= j < end - start
      ensures w[j] == a[(start + j) % n]
    {
      ModOfSmall(start + j, n);
      if j < n - start {
        assert (start + j) % n == start + j;
        assert w[j] == tail[j];
      } else {
        assert (start + j) % n == start + j - n;
        assert w[j] == head[start + j - n];
      }
    }
  }

  lemma NoWrap<T>(a: seq<T>, start: int, end: int)
    requires 0 <= start <= end <= |a|
    ensures |Window(a, start, end)| == end - start
    ensures forall j :: 0 <= j < end - start ==> Window(a, start, end)[j] == a[(start + j) % |a|]
  {
    var w := Window(a, start, end);
    assert w == a[start..end];
    forall j | 0 <= j < end - start
      ensures w[j] == a[(start + j) % |a|]
    {
      ModOfSmall(start + j, |a|);
    }
  }

  /** Without that exclusion the two branches overlap and the window comes
      out short: with three slots, `[-1, 4)` has five logical positions but
      the first branch returns four elements. */
  lemma WindowShortWhenBothEndsWrap<T>(a: seq<T>)
    requires |a| == 3
    ensures !InRange(|a|, -1, 4)
    ensures Window(a, -1, 4) == [a[2], a[0], a[1], a[2]]
    ensures |Window(a, -1, 4)| == 4 < 4 - (-1)
  {
    assert Slice(a, -1, 3) == [a[2]];
    assert Slice(a, 0, 4) == a;
  }
}
