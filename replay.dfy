/**
 * The experience-replay ring buffer `ReplayBuffer` (dqn.py:143-228).
 *
 * One frame, action, reward and terminal flag are stored per step in four
 * parallel fixed-size arrays. A write cursor `t` and a `filled` flag say
 * where the next write goes and whether the ring has wrapped. A sample at
 * slot `index` rebuilds the stack of `frameHistory` frames before and
 * after the transition, and a mask that blanks frames from an earlier
 * episode. Frames are opaque (`F`); the random draws of `sample` are
 * inputs.
 */
module Replay {
  import opened Wraparound

  /** numpy `uint8`, the element type of the action array (dqn.py:153). */
  type Byte = x: int | 0 <= x < 256

  // ---------------------------------------------------------------------
  // Cursor
  // ---------------------------------------------------------------------

  /** The write cursor `t` and the `filled` flag (dqn.py:146-147). */
  datatype Cursor = Cursor(t: nat, filled: bool)

  /** The cursor update at the end of `append` (dqn.py:162-165). */
  function Advance(c: Cursor, capacity: nat): (r: Cursor)
    requires c.t < capacity
    ensures r.t < capacity
    ensures r.t == (c.t + 1) % capacity
    ensures r.filled == (c.filled || c.t + 1 == capacity)
  {
    ModOfSmall(c.t + 1, capacity);
    if c.t + 1 >= capacity then Cursor(0, true) else Cursor(c.t + 1, c.filled)
  }

  /** The cursor after `n` appends to a fresh buffer. */
  function CursorAfter(n: nat, capacity: nat): (c: Cursor)
    requires capacity > 0
    ensures c.t < capacity
  {
    if n == 0 then Cursor(0, false) else Advance(CursorAfter(n - 1, capacity), capacity)
  }

  /** After `n` appends the cursor is `n mod capacity`, and the buffer is
      filled exactly when at least `capacity` appends have happened. */
  lemma {:induction false} CursorAfterCount(n: nat, capacity: nat)
    requires capacity > 0
    ensures CursorAfter(n, capacity) == Cursor(n % capacity, n >= capacity)
  {
    if n > 0 {
      CursorAfterCount(n - 1, capacity);
      ModSucc(n - 1, capacity);
      var c := CursorAfter(n - 1, capacity);
      if n - 1 < capacity {
        ModOfSmall(n - 1, capacity);
      }
    }
  }

  /** `filled` never goes back to false. */
  lemma FilledStaysFilled(m: nat, n: nat, capacity: nat)
    requires capacity > 0 && m <= n
    ensures CursorAfter(m, capacity).filled ==> CursorAfter(n, capacity).filled
  {
    CursorAfterCount(m, capacity);
    CursorAfterCount(n, capacity);
  }

  /** `size()` (dqn.py:224-228) on a cursor. */
  function SizeOf(c: Cursor, capacity: nat): nat
  {
    if c.filled then capacity else c.t
  }

  /** The number of appends, capped at the capacity: what `size()` reports
      after `appends` appends to a fresh buffer. */
  function SizeAfterAppends(appends: nat, capacity: nat): nat
  {
    if appends < capacity then appends else capacity
  }

  /** `size()` of the cursor after `n` appends is that capped count. */
  lemma SizeAfter(n: nat, capacity: nat)
    requires capacity > 0
    ensures SizeOf(CursorAfter(n, capacity), capacity) == SizeAfterAppends(n, capacity)
  {
    CursorAfterCount(n, capacity);
    if n < capacity {
      ModOfSmall(n, capacity);
    }
  }

  // ---------------------------------------------------------------------
  // Stored slots and repeated writes
  // ---------------------------------------------------------------------

  /** The contents of the four parallel arrays (dqn.py:152-155). */
  datatype Slots<F> = Slots(screens: seq<F>, actions: seq<Byte>, rewards: seq<real>, terminated: seq<bool>)
  {
    predicate Parallel()
    {
      |actions| == |screens| && |rewards| == |screens| && |terminated| == |screens|
    }

    function Capacity(): nat
    {
      |screens|
    }

    /** The four arrays after one record is written at `slot`. */
    function Store(slot: nat, s: F, a: Byte, r: real, term: bool): (u: Slots<F>)
      requires Parallel() && slot < Capacity()
      ensures u.Parallel() && u.Capacity() == Capacity()
    {
      Slots(screens[slot := s], actions[slot := a], rewards[slot := r], terminated[slot := term])
    }
  }

  /** A store changes the four arrays at its slot only. */
  lemma StoreOnlyAtSlot<F>(c: Slots<F>, slot: nat, s: F, a: Byte, r: real, term: bool, j: nat)
    requires c.Parallel() && slot < c.Capacity() && j < c.Capacity()
    ensures var u := c.Store(slot, s, a, r, term);
      && (j == slot ==> u.screens[j] == s && u.actions[j] == a && u.rewards[j] == r && u.terminated[j] == term)
      && (j != slot ==> u.screens[j] == c.screens[j] && u.actions[j] == c.actions[j]
                        && u.rewards[j] == c.rewards[j] && u.terminated[j] == c.terminated[j])
  {
  }

  /** The ring `a` after writing `xs[k]` at slot `(start + k) mod |a|`, in
      order: what a run of appends starting at cursor `start` leaves. */
  function Written<T>(a: seq<T>, start: nat, xs: seq<T>): (r: seq<T>)
    requires |a| > 0
    ensures |r| == |a|
  {
    if xs == [] then a
    else Written(a, start, xs[..|xs| - 1])[(start + |xs| - 1) % |a| := xs[|xs| - 1]]
  }

  /** One more append writes its value at the slot after the run's end. */
  lemma WrittenSnoc<T>(a: seq<T>, start: nat, xs: seq<T>, x: T)
    requires |a| > 0
    ensures Written(a, start, xs + [x]) == Written(a, start, xs)[(start + |xs|) % |a| := x]
  {
    assert (xs + [x])[..|xs|] == xs;
  }

  /** The same, for a run that grows one element at a time. */
  lemma WrittenPrefix<T>(a: seq<T>, start: nat, xs: seq<T>, n: nat)
    requires |a| > 0 && 0 < n <= |xs|
    ensures Written(a, start, xs[..n]) == Written(a, start, xs[..n - 1])[(start + n - 1) % |a| := xs[n - 1]]
  {
    assert xs[..n] == xs[..n - 1] + [xs[n - 1]];
    WrittenSnoc(a, start, xs[..n - 1], xs[n - 1]);
  }

  /** Of a run of appends, the last `|a|` values survive, each at its slot. */
  lemma {:induction false} WrittenKeepsNewest<T>(a: seq<T>, start: nat, xs: seq<T>, k: nat)
    requires |a| > 0 && k < |xs| && |xs| - |a| <= k
    ensures Written(a, start, xs)[(start + k) % |a|] == xs[k]
  {
    var n := |xs|;
    if k < n - 1 {
      WrittenKeepsNewest(a, start, xs[..n - 1], k);
      ModDistinct(start + k, n - 1 - k, |a|);
    }
  }

  /** A slot at offset `d` past the starting cursor, with `d` at least the
      number of appends, is never reached and keeps its old value. */
  lemma {:induction false} WrittenLeavesOthers<T>(a: seq<T>, start: nat, xs: seq<T>, j: nat)
    requires |a| > 0 && j < |a| && (j - start) % |a| >= |xs|
    ensures Written(a, start, xs)[j] == a[j]
  {
    if xs != [] {
      var n, k := |a|, |xs| - 1;
      WrittenLeavesOthers(a, start, xs[..k], j);
      var d := (j - start) % n;
      OffsetSlot(start, j, n);
      ModDistinct(start + k, d - k, n);
    }
  }

  /** Slot `j` lies `(j - start) mod n` slots past `start`. */
  lemma OffsetSlot(start: int, j: int, n: int)
    requires n > 0 && 0 <= j < n
    ensures (start + (j - start) % n) % n == j
  {
    var d, q := (j - start) % n, (j - start) / n;
    assert j - start == q * n + d;
    ModUnique(start + d, n, -q, j);
  }

  // ---------------------------------------------------------------------
  // get_sample
  // ---------------------------------------------------------------------

  /** What `get_sample` returns (dqn.py:194): the pre- and post-transition
      frame stacks, the transition's action, reward and terminal flag, and
      the two episode masks. */
  datatype Experience<F> = Experience(
    pre: seq<F>, action: Byte, reward: real, post: seq<F>,
    terminal: bool, preMask: seq<real>, postMask: seq<real>)

  /** The episode mask over `h` frames whose terminal flags are `terms`:
      frame `k` is blanked exactly when a terminal flag lies at some
      position from `k` to `h - 2` (the flag of the last frame, the
      transition's own, is not looked at). */
  function BoundaryMask(terms: seq<bool>, h: nat): (m: seq<real>)
    requires h <= |terms| + 1
    ensures |m| == h
  {
    seq(h, k requires 0 <= k < h => if exists i | k <= i < h - 1 :: terms[i] then 0.0 else 1.0)
  }

  /** The mask is 0/1 with its last entry 1. When `i` is the latest terminal
      among the first `h - 1` flags, positions `0..i` are 0 and the rest 1;
      with no terminal there, the mask is all ones. */
  lemma MaskShape(terms: seq<bool>, h: nat)
    requires 1 <= h <= |terms| + 1
    ensures forall k :: 0 <= k < h ==> BoundaryMask(terms, h)[k] == 0.0 || BoundaryMask(terms, h)[k] == 1.0
    ensures BoundaryMask(terms, h)[h - 1] == 1.0
    ensures forall i :: 0 <= i < h - 1 && terms[i] && (forall j :: i < j < h - 1 ==> !terms[j]) ==>
              forall k :: 0 <= k < h ==> (BoundaryMask(terms, h)[k] == 0.0 <==> k <= i)
    ensures (forall i :: 0 <= i < h - 1 ==> !terms[i]) ==> BoundaryMask(terms, h) == seq(h, _ => 1.0)
  {
  }

  /** The mask loop of `get_sample` (dqn.py:183-188): scan the flags from
      position `h - 2` down; at the first terminal, zero it and everything
      before it, and stop. */
  method BuildMask(terminations: seq<bool>, h: nat) returns (mask: seq<real>)
    requires 1 <= h <= |terminations| + 1
    ensures mask == BoundaryMask(terminations, h)
  {
    var m := new real[h](_ => 1.0);
    var i: int := h - 2;
    while i >= 0
      invariant -1 <= i <= h - 2
      invariant forall j :: i < j < h - 1 ==> !terminations[j]
      invariant forall q :: 0 <= q < h ==> m[q] == 1.0
    {
      if terminations[i] {
        var k := i;
        while k >= 0
          invariant -1 <= k <= i
          invariant forall q :: 0 <= q < h ==> m[q] == (if k < q <= i then 0.0 else 1.0)
        {
          m[k] := 0.0;
          k := k - 1;
        }
        assert forall q :: 0 <= q < h ==> m[q] == BoundaryMask(terminations, h)[q];
        break;
      }
      i := i - 1;
    }
    mask := m[..];
  }

  /** Both windows that `get_sample` reads at a valid slot lie in the range
      where `Window` is exact, once the history fits in the ring. */
  lemma SampleWindowsInRange(capacity: nat, h: nat, index: int)
    requires 1 <= h <= capacity && 0 <= index < capacity
    ensures InRange(capacity, index - (h - 1), index + 2)
    ensures InRange(capacity, index - (h - 1), index + 1)
  {
  }

  /** `get_sample(index)` as a function of the stored slots (dqn.py:177-194). */
  function Reconstruct<F>(s: Slots<F>, h: nat, index: int): Experience<F>
    requires s.Parallel() && 1 <= h <= s.Capacity() && 0 <= index < s.Capacity()
  {
    var start := index - (h - 1);
    SampleWindowsInRange(s.Capacity(), h, index);
    WindowLength(s.screens, start, index + 2);
    WindowLength(s.terminated, start, index + 1);
    var frames := Window(s.screens, start, index + 2);
    var terminations := Window(s.terminated, start, index + 1);
    var mask := BoundaryMask(terminations, h);
    Experience(frames[..|frames| - 1], s.actions[index], s.rewards[index], frames[1..],
               s.terminated[index], mask, mask[1..] + [1.0])
  }

  /** The ring's terminal flags for the `h` slots ending at `index`. */
  function FlagsBefore<F>(s: Slots<F>, h: nat, index: int): (terms: seq<bool>)
    requires s.Parallel() && s.Capacity() > 0
    ensures |terms| == h
  {
    seq(h, j requires 0 <= j < h => s.terminated[(index - (h - 1) + j) % s.Capacity()])
  }

  /** The frame layout of a reconstructed transition: the pre-stack is the
      `h` slots ending at `index`, the post-stack the `h` slots ending at
      `index + 1`, both read round the ring, so they share `h - 1` frames;
      action, reward and terminal flag are those stored at `index`. */
  lemma ReconstructFrames<F>(s: Slots<F>, h: nat, index: int)
    requires s.Parallel() && 1 <= h <= s.Capacity() && 0 <= index < s.Capacity()
    ensures var e := Reconstruct(s, h, index);
      && |e.pre| == h && |e.post| == h
      && (forall j :: 0 <= j < h ==> e.pre[j] == s.screens[(index - (h - 1) + j) % |s.screens|])
      && (forall j :: 0 <= j < h ==> e.post[j] == s.screens[(index - (h - 1) + (j + 1)) % |s.screens|])
      && e.pre[1..] == e.post[..h - 1]
      && e.action == s.actions[index] && e.reward == s.rewards[index] && e.terminal == s.terminated[index]
  {
    ReconstructPre(s, h, index);
    ReconstructPost(s, h, index);
    ReconstructOverlap(s, h, index);
  }

  lemma ReconstructPre<F>(s: Slots<F>, h: nat, index: int)
    requires s.Parallel() && 1 <= h <= s.Capacity() && 0 <= index < s.Capacity()
    ensures var e := Reconstruct(s, h, index);
      && |e.pre| == h
      && forall j :: 0 <= j < h ==> e.pre[j] == s.screens[(index - (h - 1) + j) % |s.screens|]
  {
    SampleWindowsInRange(s.Capacity(), h, index);
    WindowIndexing(s.screens, index - (h - 1), index + 2);
    ReconstructStacks(s, h, index);
    var e, frames := Reconstruct(s, h, index), Window(s.screens, index - (h - 1), index + 2);
    forall j | 0 <= j < h
      ensures e.pre[j] == s.screens[(index - (h - 1) + j) % |s.screens|]
    {
      assert e.pre[j] == frames[j];
    }
  }

  lemma ReconstructPost<F>(s: Slots<F>, h: nat, index: int)
    requires s.Parallel() && 1 <= h <= s.Capacity() && 0 <= index < s.Capacity()
    ensures var e := Reconstruct(s, h, index);
      && |e.post| == h
      && forall j :: 0 <= j < h ==> e.post[j] == s.screens[(index - (h - 1) + (j + 1)) % |s.screens|]
  {
    SampleWindowsInRange(s.Capacity(), h, index);
    WindowIndexing(s.screens, index - (h - 1), index + 2);
    ReconstructStacks(s, h, index);
    var e, frames := Reconstruct(s, h, index), Window(s.screens, index - (h - 1), index + 2);
    forall j | 0 <= j < h
      ensures e.post[j] == s.screens[(index - (h - 1) + (j + 1)) % |s.screens|]
    {
      assert e.post[j] == frames[j + 1];
    }
  }

  lemma ReconstructOverlap<F>(s: Slots<F>, h: nat, index: int)
    requires s.Parallel() && 1 <= h <= s.Capacity() && 0 <= index < s.Capacity()
    ensures var e := Reconstruct(s, h, index);
      |e.pre| == |e.post| == h && e.pre[1..] == e.post[..h - 1]
  {
    ReconstructStacks(s, h, index);
    var frames := Window(s.screens, index - (h - 1), index + 2);
    SlicesOverlap(frames, h);
  }

  /** Dropping the first of the first `h` elements leaves what taking the
      first `h - 1` after the first leaves. */
  lemma SlicesOverlap<T>(xs: seq<T>, h: nat)
    requires 1 <= h < |xs|
    ensures xs[..h][1..] == xs[1..][..h - 1]
  {
    assert forall j :: 0 <= j < h - 1 ==> xs[..h][1..][j] == xs[j + 1] == xs[1..][..h - 1][j];
  }

  /** The fields of a reconstructed transition, read off its definition. */
  lemma ReconstructStacks<F>(s: Slots<F>, h: nat, index: int)
    requires s.Parallel() && 1 <= h <= s.Capacity() && 0 <= index < s.Capacity()
    ensures var e, frames := Reconstruct(s, h, index), Window(s.screens, index - (h - 1), index + 2);
      && |frames| == h + 1
      && e.pre == frames[..h] && e.post == frames[1..]
  {
    SampleWindowsInRange(s.Capacity(), h, index);
    WindowLength(s.screens, index - (h - 1), index + 2);
  }

  /** The masks of a reconstructed transition: the pre-mask is the boundary
      mask of the terminal flags of the pre-stack's slots, and the post-mask
      is the pre-mask shifted left by one with a trailing 1. */
  lemma ReconstructMasks<F>(s: Slots<F>, h: nat, index: int)
    requires s.Parallel() && 1 <= h <= s.Capacity() && 0 <= index < s.Capacity()
    ensures var e := Reconstruct(s, h, index);
      && e.preMask == BoundaryMask(FlagsBefore(s, h, index), h)
      && e.postMask == e.preMask[1..] + [1.0]
      && |e.postMask| == h && e.postMask[h - 1] == 1.0
  {
    FlagsWindow(s, h, index);
  }

  lemma FlagsWindow<F>(s: Slots<F>, h: nat, index: int)
    requires s.Parallel() && 1 <= h <= s.Capacity() && 0 <= index < s.Capacity()
    ensures Window(s.terminated, index - (h - 1), index + 1) == FlagsBefore(s, h, index)
  {
    SampleWindowsInRange(s.Capacity(), h, index);
    var w, f := Window(s.terminated, index - (h - 1), index + 1), FlagsBefore(s, h, index);
    WindowIndexing(s.terminated, index - (h - 1), index + 1);
    assert |s.terminated| == s.Capacity();
    forall j | 0 <= j < h
      ensures w[j] == f[j]
    {
      assert w[j] == s.terminated[(index - (h - 1) + j) % |s.terminated|];
    }
  }

  // ---------------------------------------------------------------------
  // sample
  // ---------------------------------------------------------------------

  /** A batch as `sample` returns it (dqn.py:222): seven parallel sequences. */
  datatype Batch<F> = Batch(
    pre: seq<seq<F>>, actions: seq<Byte>, rewards: seq<real>, post: seq<seq<F>>,
    terminals: seq<bool>, preMasks: seq<seq<real>>, postMasks: seq<seq<real>>)
  {
    predicate HasLength(n: nat)
    {
      && |pre| == n && |actions| == n && |rewards| == n && |post| == n
      && |terminals| == n && |preMasks| == n && |postMasks| == n
    }

    /** The `k`-th transition of the batch. */
    function At(k: nat): Experience<F>
      requires k < |pre| && HasLength(|pre|)
    {
      Experience(pre[k], actions[k], rewards[k], post[k], terminals[k], preMasks[k], postMasks[k])
    }

    /** The seven `append`s of one loop pass of `sample` (dqn.py:213-219). */
    function Push(e: Experience<F>): Batch<F>
    {
      Batch(pre + [e.pre], actions + [e.action], rewards + [e.reward], post + [e.post],
            terminals + [e.terminal], preMasks + [e.preMask], postMasks + [e.postMask])
    }
  }

  /** Pushing the `n`-th expected transition onto a batch that holds the
      first `n` keeps it matching, one transition longer. */
  lemma PushKeepsPrefix<F>(b: Batch<F>, e: Experience<F>, expected: seq<Experience<F>>, n: nat)
    requires n < |expected| && b.HasLength(n) && e == expected[n]
    requires forall k :: 0 <= k < n ==> b.At(k) == expected[k]
    ensures b.Push(e).HasLength(n + 1)
    ensures forall k :: 0 <= k < n + 1 ==> b.Push(e).At(k) == expected[k]
  {
    var p := b.Push(e);
    forall k | 0 <= k < n + 1
      ensures p.At(k) == expected[k]
    {
      if k < n {
        assert p.At(k) == b.At(k);
      }
    }
  }

  /** The exclusive upper bound `randint` is given at dqn.py:198 and 200. */
  function DrawBound(c: Cursor, capacity: nat, h: nat): int
  {
    if c.filled then capacity - (h + 1) else c.t
  }

  /** The slot selected by one raw draw (dqn.py:197-202): the draw itself
      before the ring has wrapped; afterwards shifted by `-(t + h + 1)` and
      reduced modulo the capacity. */
  function DrawnIndex(draw: int, c: Cursor, capacity: nat, h: nat): (index: int)
    requires capacity > 0 && 0 <= draw < DrawBound(c, capacity, h)
    ensures !c.filled ==> index == draw && 0 <= index < c.t
    ensures c.filled ==> 0 <= index < capacity
    ensures c.filled ==> (index + c.t + h + 1 - draw) % capacity == 0
  {
    if !c.filled then draw
    else
      var index := (draw - (c.t + h + 1)) % capacity;
      assert (index + c.t + h + 1 - draw) % capacity == 0 by {
        var q := (draw - (c.t + h + 1)) / capacity;
        assert draw - (c.t + h + 1) == q * capacity + index;
        ModUnique(index + c.t + h + 1 - draw, capacity, -q, 0);
      }
      index
  }

  /** The shift subtracts `t`, so the band of indices that cannot be drawn
      moves opposite to the cursor. With capacity 10, history 4 and `t == 0`
      on a filled buffer, draw 4 gives slot 9, whose post-stack ends at slot
      0: the slot the next append overwrites, holding the oldest frame. */
  lemma DrawCanReachCursor<F>(s: Slots<F>)
    requires s.Parallel() && s.Capacity() == 10
    ensures DrawnIndex(4, Cursor(0, true), 10, 4) == 9
    ensures |Reconstruct(s, 4, 9).post| == 4 && Reconstruct(s, 4, 9).post[3] == s.screens[0]
  {
    ReconstructPost(s, 4, 9);
  }

  // ---------------------------------------------------------------------
  // The buffer
  // ---------------------------------------------------------------------

  class ReplayBuffer<F(0)> {
    var t: nat
    var filled: bool
    /** The number of appends so far; the cursor is a function of it. */
    ghost var appends: nat
    const capacity: nat
    const frameHistory: nat
    const screens: array<F>
    const action: array<Byte>
    const reward: array<real>
    const terminated: array<bool>
    ghost const Repr: set<object>

    ghost predicate Valid()
      reads this
    {
      && Repr == {this, screens, action, reward, terminated}
      && screens as object != action && screens as object != reward && screens as object != terminated
      && capacity > 0
      && screens.Length == capacity && action.Length == capacity
      && reward.Length == capacity && terminated.Length == capacity
      && Cursor(t, filled) == CursorAfter(appends, capacity)
    }

    /** The contents of the four arrays. */
    ghost function Contents(): (s: Slots<F>)
      reads this, screens, action, reward, terminated
      ensures Valid() ==> s.Parallel() && s.Capacity() == capacity
    {
      Slots(screens[..], action[..], reward[..], terminated[..])
    }

    /** Whether the history fits in the ring, which `get_sample` relies on. */
    predicate HistoryFits()
    {
      1 <= frameHistory <= capacity
    }

    /** `__init__` (dqn.py:145-155): an empty ring of zeroed slots; `blank`
        is the all-zero frame. */
    constructor (capacity: nat, frameHistory: nat, blank: F)
      requires capacity > 0
      ensures Valid() && fresh(Repr)
      ensures this.capacity == capacity && this.frameHistory == frameHistory
      ensures t == 0 && !filled && appends == 0
      ensures Contents() == Slots(seq(capacity, _ => blank), seq(capacity, _ => 0), seq(capacity, _ => 0.0), seq(capacity, _ => false))
    {
      this.capacity := capacity;
      this.frameHistory := frameHistory;
      t := 0;
      filled := false;
      appends := 0;
      var s := new F[capacity](_ => blank);
      var a := new Byte[capacity](_ => 0);
      var r := new real[capacity](_ => 0.0);
      var d := new bool[capacity](_ => false);
      screens, action, reward, terminated := s, a, r, d;
      Repr := {this, s, a, r, d};
    }

    /** `size()` (dqn.py:224-228): the number of appends so far, capped at
        the capacity. */
    function Size(): (n: nat)
      reads this
      requires Valid()
      ensures n <= capacity
      ensures n == SizeAfterAppends(appends, capacity)
    {
      SizeAfter(appends, capacity);
      SizeOf(Cursor(t, filled), capacity)
    }

    /** `append(S1, A, R, S2, T)` (dqn.py:157-165): write the four values at
        the cursor and advance it. The next-state frame `s2` is not stored. */
    method Append(s1: F, a: Byte, r: real, s2: F, term: bool)
      requires Valid()
      modifies Repr
      ensures Valid()
      ensures Contents() == old(Contents()).Store(old(t), s1, a, r, term)
      ensures Cursor(t, filled) == Advance(old(Cursor(t, filled)), capacity)
      ensures appends == old(appends) + 1
      ensures old(t) == old(appends) % capacity
    {
      CursorAfterCount(appends, capacity);
      screens[t] := s1;
      action[t] := a;
      reward[t] := r;
      terminated[t] := term;
      t := t + 1;
      if t >= capacity {
        t := 0;
        filled := true;
      }
      appends := appends + 1;
    }

    /** `get_sample(index)` (dqn.py:177-194). */
    method GetSample(index: int) returns (s0: seq<F>, a: Byte, r: real, s1: seq<F>, term: bool, mask: seq<real>, mask2: seq<real>)
      requires Valid() && HistoryFits() && 0 <= index < capacity
      ensures Experience(s0, a, r, s1, term, mask, mask2) == Reconstruct(Contents(), frameHistory, index)
    {
      SampleWindowsInRange(capacity, frameHistory, index);
      WindowLength(screens[..], index - (frameHistory - 1), index + 2);
      WindowLength(terminated[..], index - (frameHistory - 1), index + 1);
      var frames := Window(screens[..], index - (frameHistory - 1), index + 2);
      var terminations := Window(terminated[..], index - (frameHistory - 1), index + 1);
      mask := BuildMask(terminations, frameHistory);
      mask2 := mask[1..] + [1.0];
      s0 := frames[..|frames| - 1];
      s1 := frames[1..];
      a, r, term := action[index], reward[index], terminated[index];
    }

    /** `sample(num_samples)` (dqn.py:196-222), with the `randint` draws
        given: one reconstructed transition per draw, in draw order. */
    method Sample(draws: seq<int>) returns (batch: Batch<F>)
      requires Valid() && HistoryFits()
      requires forall k :: 0 <= k < |draws| ==> 0 <= draws[k] < DrawBound(Cursor(t, filled), capacity, frameHistory)
      ensures batch.HasLength(|draws|)
      ensures forall k :: 0 <= k < |draws| ==>
        batch.At(k) == Reconstruct(Contents(), frameHistory, DrawnIndex(draws[k], Cursor(t, filled), capacity, frameHistory))
    {
      var c := Cursor(t, filled);
      var idx := seq(|draws|, k requires 0 <= k < |draws| => DrawnIndex(draws[k], c, capacity, frameHistory));
      ghost var contents := Contents();
      ghost var expected := seq(|idx|, k requires 0 <= k < |idx| => Reconstruct(contents, frameHistory, idx[k]));
      batch := Batch([], [], [], [], [], [], []);
      var i := 0;
      while i < |idx|
        invariant 0 <= i <= |idx|
        invariant batch.HasLength(i)
        invariant forall k :: 0 <= k < i ==> batch.At(k) == expected[k]
      {
        var s0, a, r, s1, term, mask, mask2 := GetSample(idx[i]);
        var e := Experience(s0, a, r, s1, term, mask, mask2);
        assert e == expected[i];
        PushKeepsPrefix(batch, e, expected, i);
        batch := batch.Push(e);
        i := i + 1;
      }
    }
  }
}
