/**
 * The discrete bookkeeping of `DQN_Agent` (dqn.py:54-132): epsilon
 * annealing, the gates that decide when to train and when to copy the
 * target network, the one-hot action encoding and the reward's sign, and
 * the learning episode loop that feeds the replay buffer.
 *
 * The networks, the loss, the optimiser and the session are not modelled:
 * a training step and a target copy are opaque events, and the
 * environment's responses over one episode are an input script.
 */
module Agent {
  import opened Wraparound
  import opened Replay

  /** The constants fixed by `DQN_Agent.__init__` (dqn.py:86-95, 126-128). */
  const REPLAY_CAPACITY: nat := 1000000
  const FRAME_HISTORY: nat := 4
  const EPSILON_START: real := 1.0
  const EPSILON_MIN: real := 0.1
  const EPSILON_STEPS: nat := 1000000
  const EPSILON_DELTA: real := (EPSILON_START - EPSILON_MIN) / EPSILON_STEPS as real
  const TRAIN_INTERVAL: nat := 4
  const COPY_INTERVAL: nat := 4 * 10000
  const BATCH_SIZE: nat := 32

  // ---------------------------------------------------------------------
  // Epsilon annealing
  // ---------------------------------------------------------------------

  /** One annealing step, `max(epsilon_min, epsilon - epsilon_delta)`
      (dqn.py:121): never below the floor, never above its input once that
      is at or above the floor, and either the floor or one delta lower. */
  function Anneal(epsilon: real): (r: real)
    ensures r >= EPSILON_MIN
    ensures epsilon >= EPSILON_MIN ==> r <= epsilon
    ensures r == EPSILON_MIN || r == epsilon - EPSILON_DELTA
    ensures r >= epsilon - EPSILON_DELTA
  {
    if EPSILON_MIN >= epsilon - EPSILON_DELTA then EPSILON_MIN else epsilon - EPSILON_DELTA
  }

  /** Epsilon after `n` action steps, starting from 1.0 (dqn.py:88). */
  function EpsilonAfter(n: nat): real
  {
    if n == 0 then EPSILON_START else Anneal(EpsilonAfter(n - 1))
  }

  /** Epsilon falls linearly by one delta per step until it meets the floor. */
  lemma {:induction false} EpsilonClosedForm(n: nat)
    ensures EpsilonAfter(n) ==
      if EPSILON_START - n as real * EPSILON_DELTA > EPSILON_MIN
      then EPSILON_START - n as real * EPSILON_DELTA else EPSILON_MIN
  {
    if n > 0 {
      EpsilonClosedForm(n - 1);
    }
  }

  /** Epsilon always lies between the floor and its starting value. */
  lemma EpsilonBounds(n: nat)
    ensures EPSILON_MIN <= EpsilonAfter(n) <= EPSILON_START
  {
    EpsilonClosedForm(n);
  }

  /** Epsilon never increases. */
  lemma EpsilonNonIncreasing(m: nat, n: nat)
    requires m <= n
    ensures EpsilonAfter(n) <= EpsilonAfter(m)
  {
    EpsilonClosedForm(m);
    EpsilonClosedForm(n);
    assert m as real * EPSILON_DELTA <= n as real * EPSILON_DELTA;
  }

  /** Epsilon is at the floor exactly once `epsilon_steps` steps have passed. */
  lemma EpsilonReachesFloor(n: nat)
    ensures EpsilonAfter(n) == EPSILON_MIN <==> n >= EPSILON_STEPS
  {
    EpsilonClosedForm(n);
    assert EPSILON_DELTA == 0.9 / 1000000.0;
    var x := n as real;
    if n >= EPSILON_STEPS {
      assert x >= 1000000.0;
      assert x * (0.9 / 1000000.0) >= 0.9;
    } else {
      assert x <= 999999.0;
      assert x * (0.9 / 1000000.0) <= 999999.0 * (0.9 / 1000000.0);
    }
  }

  // ---------------------------------------------------------------------
  // Training and target-copy gates
  // ---------------------------------------------------------------------

  /** The training gate (dqn.py:126). */
  predicate TrainsAt(size: nat, replayStartSize: nat, ticker: int)
  {
    size > replayStartSize && ticker % TRAIN_INTERVAL == 0
  }

  /** The target-copy gate (dqn.py:128). */
  predicate CopiesAt(ticker: int)
  {
    ticker % COPY_INTERVAL == 0
  }

  /** The opaque effects of one step on the networks: a Q-value update
      (`update_q_values`) or a copy of the live network onto the target
      (`sess.run(self.copy_op)`), tagged with the action ticker. */
  datatype Event = Train(ticker: int) | CopyTarget(ticker: int)

  /** The events of one step, in the order the source runs them. */
  function StepEvents(size: nat, replayStartSize: nat, ticker: int): seq<Event>
  {
    (if TrainsAt(size, replayStartSize, ticker) then [Train(ticker)] else [])
      + (if CopiesAt(ticker) then [CopyTarget(ticker)] else [])
  }

  /** The events of `n` consecutive steps, the first with ticker `ticker`
      and `appends` appends before it; each step's gate sees the buffer's
      size after its own append. */
  function Schedule(ticker: int, appends: nat, n: nat, replayStartSize: nat): seq<Event>
  {
    if n == 0 then []
    else Schedule(ticker, appends, n - 1, replayStartSize)
           + StepEvents(SizeAfterAppends(appends + n, REPLAY_CAPACITY), replayStartSize, ticker + n - 1)
  }

  /** A training event is scheduled at a tick exactly when that tick is one
      of the run's and the buffer is past warm-up with the ticker a multiple
      of 4. */
  lemma {:induction false} ScheduleTrains(ticker: int, appends: nat, n: nat, replayStartSize: nat, tick: int)
    ensures Train(tick) in Schedule(ticker, appends, n, replayStartSize) <==>
      ticker <= tick < ticker + n
      && TrainsAt(SizeAfterAppends(appends + (tick - ticker) + 1, REPLAY_CAPACITY), replayStartSize, tick)
  {
    if n > 0 {
      var prefix := Schedule(ticker, appends, n - 1, replayStartSize);
      var last := StepEvents(SizeAfterAppends(appends + n, REPLAY_CAPACITY), replayStartSize, ticker + n - 1);
      ScheduleTrains(ticker, appends, n - 1, replayStartSize, tick);
      assert Schedule(ticker, appends, n, replayStartSize) == prefix + last;
      assert Train(tick) in prefix + last <==> Train(tick) in prefix || Train(tick) in last;
      assert Train(tick) in last <==>
        tick == ticker + n - 1 && TrainsAt(SizeAfterAppends(appends + n, REPLAY_CAPACITY), replayStartSize, tick);
    }
  }

  /** A target copy is scheduled at a tick exactly when that tick is one of
      the run's and a multiple of 40000, whatever the buffer's size. */
  lemma {:induction false} ScheduleCopies(ticker: int, appends: nat, n: nat, replayStartSize: nat, tick: int)
    ensures CopyTarget(tick) in Schedule(ticker, appends, n, replayStartSize) <==>
      ticker <= tick < ticker + n && CopiesAt(tick)
  {
    if n > 0 {
      var prefix := Schedule(ticker, appends, n - 1, replayStartSize);
      var last := StepEvents(SizeAfterAppends(appends + n, REPLAY_CAPACITY), replayStartSize, ticker + n - 1);
      ScheduleCopies(ticker, appends, n - 1, replayStartSize, tick);
      assert Schedule(ticker, appends, n, replayStartSize) == prefix + last;
      assert CopyTarget(tick) in prefix + last <==> CopyTarget(tick) in prefix || CopyTarget(tick) in last;
      assert CopyTarget(tick) in last <==> tick == ticker + n - 1 && CopiesAt(tick);
    }
  }

  /** The number of training events in a log. */
  function CountTrains(events: seq<Event>): nat
  {
    if events == [] then 0
    else CountTrains(events[..|events| - 1]) + (if events[|events| - 1].Train? then 1 else 0)
  }

  lemma {:induction false} CountTrainsAppend(a: seq<Event>, b: seq<Event>)
    ensures CountTrains(a + b) == CountTrains(a) + CountTrains(b)
  {
    if b == [] {
      assert a + b == a;
    } else {
      var ab := a + b;
      assert ab[..|ab| - 1] == a + b[..|b| - 1];
      assert ab[|ab| - 1] == b[|b| - 1];
      CountTrainsAppend(a, b[..|b| - 1]);
    }
  }

  /** A run of steps splits into its first `m` steps and the rest. */
  lemma {:induction false} ScheduleSplit(ticker: int, appends: nat, n: nat, replayStartSize: nat, m: nat)
    requires m <= n
    ensures Schedule(ticker, appends, n, replayStartSize)
      == Schedule(ticker, appends, m, replayStartSize) + Schedule(ticker + m, appends + m, n - m, replayStartSize)
  {
    if m < n {
      ScheduleSplit(ticker, appends, n - 1, replayStartSize, m);
      assert appends + m + (n - m) == appends + n;
      assert ticker + m + (n - m) - 1 == ticker + n - 1;
    }
  }

  /** The number of steps of a run whose training gate opens, counted
      directly from the gate. */
  function TrainSteps(ticker: int, appends: nat, n: nat, replayStartSize: nat): nat
  {
    if n == 0 then 0
    else TrainSteps(ticker, appends, n - 1, replayStartSize)
           + (if TrainsAt(SizeAfterAppends(appends + n, REPLAY_CAPACITY), replayStartSize, ticker + n - 1) then 1 else 0)
  }

  /** The training events of a schedule are exactly its open gates. */
  lemma {:induction false} CountTrainsSchedule(ticker: int, appends: nat, n: nat, replayStartSize: nat)
    ensures CountTrains(Schedule(ticker, appends, n, replayStartSize)) == TrainSteps(ticker, appends, n, replayStartSize)
  {
    if n > 0 {
      CountTrainsSchedule(ticker, appends, n - 1, replayStartSize);
      CountScheduleLast(ticker, appends, n, replayStartSize);
    }
  }

  /** The last step of a run adds one training event when its gate is open. */
  lemma CountScheduleLast(ticker: int, appends: nat, n: nat, replayStartSize: nat)
    requires n > 0
    ensures CountTrains(Schedule(ticker, appends, n, replayStartSize))
      == CountTrains(Schedule(ticker, appends, n - 1, replayStartSize))
         + (if TrainsAt(SizeAfterAppends(appends + n, REPLAY_CAPACITY), replayStartSize, ticker + n - 1) then 1 else 0)
  {
    var prefix := Schedule(ticker, appends, n - 1, replayStartSize);
    var last := StepEvents(SizeAfterAppends(appends + n, REPLAY_CAPACITY), replayStartSize, ticker + n - 1);
    CountTrainsAppend(prefix, last);
    StepTrainsOnce(SizeAfterAppends(appends + n, REPLAY_CAPACITY), replayStartSize, ticker + n - 1);
  }

  /** The open gates of a run are those of its first `m` steps plus those
      of the rest. */
  lemma {:induction false} TrainStepsSplit(ticker: int, appends: nat, n: nat, replayStartSize: nat, m: nat)
    requires m <= n
    ensures TrainSteps(ticker, appends, n, replayStartSize)
      == TrainSteps(ticker, appends, m, replayStartSize) + TrainSteps(ticker + m, appends + m, n - m, replayStartSize)
  {
    if m < n {
      TrainStepsSplit(ticker, appends, n - 1, replayStartSize, m);
      assert appends + m + (n - m) == appends + n;
      assert ticker + m + (n - m) - 1 == ticker + n - 1;
    }
  }

  /** Once the buffer is past warm-up, every stretch of `4 * k` steps trains
      exactly `k` times. */
  lemma TrainsOncePerInterval(ticker: int, appends: nat, k: nat, replayStartSize: nat)
    requires SizeAfterAppends(appends + 1, REPLAY_CAPACITY) > replayStartSize
    ensures CountTrains(Schedule(ticker, appends, 4 * k, replayStartSize)) == k
  {
    CountTrainsSchedule(ticker, appends, 4 * k, replayStartSize);
    GatesOncePerInterval(ticker, appends, k, replayStartSize);
  }

  lemma {:induction false} GatesOncePerInterval(ticker: int, appends: nat, k: nat, replayStartSize: nat)
    requires SizeAfterAppends(appends + 1, REPLAY_CAPACITY) > replayStartSize
    ensures TrainSteps(ticker, appends, 4 * k, replayStartSize) == k
  {
    if k > 0 {
      var m := 4 * (k - 1);
      GatesOncePerInterval(ticker, appends, k - 1, replayStartSize);
      assert SizeAfterAppends(appends + m + 1, REPLAY_CAPACITY) >= SizeAfterAppends(appends + 1, REPLAY_CAPACITY);
      FourStepsTrainOnce(ticker + m, appends + m, replayStartSize);
      TrainStepsSplit(ticker, appends, 4 * k, replayStartSize, m);
    }
  }

  /** Four consecutive steps past warm-up open the training gate once. */
  lemma FourStepsTrainOnce(ticker: int, appends: nat, replayStartSize: nat)
    requires SizeAfterAppends(appends + 1, REPLAY_CAPACITY) > replayStartSize
    ensures TrainSteps(ticker, appends, 4, replayStartSize) == 1
  {
    var rss := replayStartSize;
    assert SizeAfterAppends(appends + 2, REPLAY_CAPACITY) > rss && SizeAfterAppends(appends + 3, REPLAY_CAPACITY) > rss && SizeAfterAppends(appends + 4, REPLAY_CAPACITY) > rss;
    assert TrainSteps(ticker, appends, 1, rss) == (if ticker % 4 == 0 then 1 else 0);
    assert TrainSteps(ticker, appends, 2, rss) == TrainSteps(ticker, appends, 1, rss) + (if (ticker + 1) % 4 == 0 then 1 else 0);
    assert TrainSteps(ticker, appends, 3, rss) == TrainSteps(ticker, appends, 2, rss) + (if (ticker + 2) % 4 == 0 then 1 else 0);
    assert TrainSteps(ticker, appends, 4, rss) == TrainSteps(ticker, appends, 3, rss) + (if (ticker + 3) % 4 == 0 then 1 else 0);
    OneOfFourTicks(ticker);
  }

  /** Of four consecutive tickers exactly one is a multiple of four. */
  lemma OneOfFourTicks(ticker: int)
    ensures (if ticker % 4 == 0 then 1 else 0) + (if (ticker + 1) % 4 == 0 then 1 else 0)
      + (if (ticker + 2) % 4 == 0 then 1 else 0) + (if (ticker + 3) % 4 == 0 then 1 else 0) == 1
  {
    var q, r := ticker / 4, ticker % 4;
    assert ticker == q * 4 + r;
    if r == 0 {
      ModUnique(ticker + 1, 4, q, 1); ModUnique(ticker + 2, 4, q, 2); ModUnique(ticker + 3, 4, q, 3);
    } else if r == 1 {
      ModUnique(ticker + 1, 4, q, 2); ModUnique(ticker + 2, 4, q, 3); ModUnique(ticker + 3, 4, q + 1, 0);
    } else if r == 2 {
      ModUnique(ticker + 1, 4, q, 3); ModUnique(ticker + 2, 4, q + 1, 0); ModUnique(ticker + 3, 4, q + 1, 1);
    } else {
      ModUnique(ticker + 1, 4, q + 1, 0); ModUnique(ticker + 2, 4, q + 1, 1); ModUnique(ticker + 3, 4, q + 1, 2);
    }
  }

  lemma StepTrainsOnce(size: nat, replayStartSize: nat, ticker: int)
    ensures CountTrains(StepEvents(size, replayStartSize, ticker)) == if TrainsAt(size, replayStartSize, ticker) then 1 else 0
  {
    var train, copy := Train(ticker), CopyTarget(ticker);
    assert [train][..0] == [] && [copy][..0] == [];
    assert CountTrains([train]) == 1 && CountTrains([copy]) == 0;
    assert [train, copy][..1] == [train];
  }

  /** Every copy tick falls on a training tick once the buffer is warm. */
  lemma CopyTicksTrain(size: nat, replayStartSize: nat, ticker: int)
    requires size > replayStartSize && CopiesAt(ticker)
    ensures TrainsAt(size, replayStartSize, ticker)
  {
    var q := ticker / COPY_INTERVAL;
    assert ticker == (q * 10000) * 4;
    ModUnique(ticker, 4, q * 10000, 0);
  }

  // ---------------------------------------------------------------------
  // Batch helpers
  // ---------------------------------------------------------------------

  function Abs(x: real): real
  {
    if x < 0.0 then -x else x
  }

  /** `tf.sign` on the reward (dqn.py:77): the clipped reward is -1, 0 or 1
      and carries the reward's sign, so multiplied back by the magnitude it
      gives the reward. */
  function Sign(x: real): (s: real)
    ensures s == -1.0 || s == 0.0 || s == 1.0
    ensures s * Abs(x) == x
    ensures s == 0.0 <==> x == 0.0
  {
    if x > 0.0 then 1.0 else if x < 0.0 then -1.0 else 0.0
  }

  /** Clipping keeps only the sign: -5, 0, 0.3 and 7 become -1, 0, 1, 1. */
  lemma SignExamples()
    ensures Sign(-5.0) == -1.0 && Sign(0.0) == 0.0 && Sign(0.3) == 1.0 && Sign(7.0) == 1.0
  {
  }

  /** Clipping twice is clipping once. */
  lemma SignIdempotent(x: real)
    ensures Sign(Sign(x)) == Sign(x)
  {
  }

  /** Row `a` of the one-hot matrix over `n` actions. */
  function OneHotRow(a: int, n: nat): (row: seq<real>)
    ensures |row| == n
  {
    seq(n, j => if j == a then 1.0 else 0.0)
  }

  function Dot(u: seq<real>, v: seq<real>): real
    requires |u| == |v|
  {
    if u == [] then 0.0 else Dot(u[..|u| - 1], v[..|v| - 1]) + u[|u| - 1] * v[|v| - 1]
  }

  /** What the loss does with a one-hot row (dqn.py:80): summing it times
      the Q-values picks out the Q-value of the taken action (and 0 for an
      action outside the row). */
  lemma {:induction false} OneHotSelects(a: int, q: seq<real>)
    ensures Dot(OneHotRow(a, |q|), q) == if 0 <= a < |q| then q[a] else 0.0
  {
    var n := |q|;
    if n > 0 {
      assert OneHotRow(a, n)[..n - 1] == OneHotRow(a, n - 1);
      OneHotSelects(a, q[..n - 1]);
    }
  }

  /** `Aonehot = zeros(...); Aonehot[range(len(A)), A] = 1` (dqn.py:102-103):
      row `i` is the one-hot encoding of `actions[i]`, rows past the
      actions are zero. */
  method OneHot(actions: seq<Byte>, rows: nat, numActions: nat) returns (m: array2<real>)
    requires |actions| <= rows
    requires forall i :: 0 <= i < |actions| ==> actions[i] < numActions
    ensures fresh(m) && m.Length0 == rows && m.Length1 == numActions
    ensures forall i, j :: 0 <= i < |actions| && 0 <= j < numActions ==> m[i, j] == OneHotRow(actions[i], numActions)[j]
    ensures forall i, j :: |actions| <= i < rows && 0 <= j < numActions ==> m[i, j] == 0.0
  {
    m := new real[rows, numActions]((i, j) => 0.0);
    for i := 0 to |actions|
      invariant forall r, j :: 0 <= r < rows && 0 <= j < numActions ==>
        m[r, j] == (if r < i && j == actions[r] then 1.0 else 0.0)
    {
      m[i, actions[i]] := 1.0;
    }
  }

  // ---------------------------------------------------------------------
  // The learning episode
  // ---------------------------------------------------------------------

  /** One `environment.perform_action` result (dqn.py:123): the stacked
      state, the action taken, the reward, the next stacked state and
      whether the episode ended. */
  datatype StepOutcome<F> = StepOutcome(state: seq<F>, action: Byte, reward: real, nextState: seq<F>, terminal: bool)

  /** The environment's responses over one episode: every state stack has
      a frame, and only the last response is terminal. */
  predicate IsEpisode<F>(outcomes: seq<StepOutcome<F>>)
  {
    && (forall k :: 0 <= k < |outcomes| ==> |outcomes[k].state| > 0 && |outcomes[k].nextState| > 0)
    && (forall k :: 0 <= k < |outcomes| - 1 ==> !outcomes[k].terminal)
    && (|outcomes| > 0 ==> outcomes[|outcomes| - 1].terminal)
  }

  /** `state[-1]`, the newest frame of each step: what the buffer stores. */
  function Frames<F>(outcomes: seq<StepOutcome<F>>): (fs: seq<F>)
    requires forall k :: 0 <= k < |outcomes| ==> |outcomes[k].state| > 0
    ensures |fs| == |outcomes|
  {
    seq(|outcomes|, k requires 0 <= k < |outcomes| => Newest(outcomes[k].state))
  }

  function Actions<F>(outcomes: seq<StepOutcome<F>>): (acts: seq<Byte>)
    ensures |acts| == |outcomes|
  {
    seq(|outcomes|, k requires 0 <= k < |outcomes| => outcomes[k].action)
  }

  function Rewards<F>(outcomes: seq<StepOutcome<F>>): (rs: seq<real>)
    ensures |rs| == |outcomes|
  {
    seq(|outcomes|, k requires 0 <= k < |outcomes| => outcomes[k].reward)
  }

  function Terminals<F>(outcomes: seq<StepOutcome<F>>): (ts: seq<bool>)
    ensures |ts| == |outcomes|
  {
    seq(|outcomes|, k requires 0 <= k < |outcomes| => outcomes[k].terminal)
  }

  /** The unclipped sum of the first `n` rewards of an episode
      (dqn.py:114, 124). */
  function TotalReward<F>(outcomes: seq<StepOutcome<F>>, n: nat): real
    requires n <= |outcomes|
  {
    if n == 0 then 0.0 else TotalReward(outcomes, n - 1) + outcomes[n - 1].reward
  }

  /** `state[-1]`: the newest frame of a stack. */
  function Newest<F>(stack: seq<F>): F
    requires |stack| > 0
  {
    stack[|stack| - 1]
  }

  /** The buffer's arrays after the first `n` steps of an episode are
      stored one after the other, `start` being the number of earlier
      appends (so the first slot written is `start mod capacity`). */
  function Recorded<F>(c: Slots<F>, start: nat, outcomes: seq<StepOutcome<F>>, n: nat): (u: Slots<F>)
    requires c.Parallel() && c.Capacity() > 0 && n <= |outcomes|
    requires forall k :: 0 <= k < |outcomes| ==> |outcomes[k].state| > 0
    ensures u.Parallel() && u.Capacity() == c.Capacity()
  {
    if n == 0 then c
    else
      var o := outcomes[n - 1];
      Recorded(c, start, outcomes, n - 1)
        .Store((start + n - 1) % c.Capacity(), Newest(o.state), o.action, o.reward, o.terminal)
  }

  /** Storing the steps writes each array as a run of appends of the
      corresponding field: `Frames`, `Actions`, `Rewards`, `Terminals`. */
  lemma {:induction false} RecordedWritten<F>(c: Slots<F>, start: nat, outcomes: seq<StepOutcome<F>>, n: nat)
    requires c.Parallel() && c.Capacity() > 0 && n <= |outcomes|
    requires forall k :: 0 <= k < |outcomes| ==> |outcomes[k].state| > 0
    ensures Recorded(c, start, outcomes, n).screens == Written(c.screens, start, Frames(outcomes)[..n])
    ensures Recorded(c, start, outcomes, n).actions == Written(c.actions, start, Actions(outcomes)[..n])
    ensures Recorded(c, start, outcomes, n).rewards == Written(c.rewards, start, Rewards(outcomes)[..n])
    ensures Recorded(c, start, outcomes, n).terminated == Written(c.terminated, start, Terminals(outcomes)[..n])
  {
    if n > 0 {
      var o := outcomes[n - 1];
      var prev := Recorded(c, start, outcomes, n - 1);
      var slot := (start + n - 1) % c.Capacity();
      assert c.Capacity() == |c.screens| == |c.actions| == |c.rewards| == |c.terminated|;
      var u := prev.Store(slot, Newest(o.state), o.action, o.reward, o.terminal);
      assert Recorded(c, start, outcomes, n) == u;
      RecordedWritten(c, start, outcomes, n - 1);
      var fs, acts, rs, ts := Frames(outcomes), Actions(outcomes), Rewards(outcomes), Terminals(outcomes);
      assert fs[n - 1] == Newest(o.state) && acts[n - 1] == o.action;
      assert rs[n - 1] == o.reward && ts[n - 1] == o.terminal;
      WrittenPrefix(c.screens, start, fs, n);
      WrittenPrefix(c.actions, start, acts, n);
      WrittenPrefix(c.rewards, start, rs, n);
      WrittenPrefix(c.terminated, start, ts, n);
      assert u.screens == prev.screens[slot := fs[n - 1]] == Written(c.screens, start, fs[..n]);
      assert u.actions == prev.actions[slot := acts[n - 1]] == Written(c.actions, start, acts[..n]);
      assert u.rewards == prev.rewards[slot := rs[n - 1]] == Written(c.rewards, start, rs[..n]);
      assert u.terminated == prev.terminated[slot := ts[n - 1]] == Written(c.terminated, start, ts[..n]);
    }
  }

  lemma RecordedStep<F>(c: Slots<F>, start: nat, outcomes: seq<StepOutcome<F>>, n: nat)
    requires c.Parallel() && c.Capacity() > 0 && n < |outcomes|
    requires forall k :: 0 <= k < |outcomes| ==> |outcomes[k].state| > 0
    ensures var o := outcomes[n];
      Recorded(c, start, outcomes, n + 1)
        == Recorded(c, start, outcomes, n).Store((start + n) % c.Capacity(), Newest(o.state), o.action, o.reward, o.terminal)
  {
  }

  lemma ScheduleStep(ticker: int, appends: nat, n: nat, replayStartSize: nat)
    ensures Schedule(ticker, appends, n + 1, replayStartSize)
      == Schedule(ticker, appends, n, replayStartSize) + StepEvents(SizeAfterAppends(appends + n + 1, REPLAY_CAPACITY), replayStartSize, ticker + n)
  {
  }

  class DqnAgent<F(0)> {
    var epsilon: real
    var actionTicker: int
    const replayBuffer: ReplayBuffer<F>
    const replayStartSize: nat
    const numActions: nat
    const gamma: real
    const batchSize: nat := BATCH_SIZE

    /** The buffer's append count is also the number of action steps the
        agent has taken, over all episodes. */
    ghost predicate Valid()
      reads this, replayBuffer, replayBuffer.Repr
    {
      && this !in replayBuffer.Repr
      && replayBuffer.Valid()
      && replayBuffer.capacity == REPLAY_CAPACITY
      && replayBuffer.frameHistory == FRAME_HISTORY
      && epsilon == EpsilonAfter(replayBuffer.appends)
      && actionTicker == replayBuffer.appends + 1
      && forall j :: 0 <= j < replayBuffer.action.Length ==> replayBuffer.action[j] < numActions
    }

    /** The non-network part of `__init__` (dqn.py:86-95): a buffer of a
        million slots with a history of four, epsilon at 1.0, the ticker at
        1. `blank` is the all-zero frame. */
    constructor (numActions: nat, gamma: real, replayStartSize: nat, blank: F)
      requires numActions >= 1
      ensures Valid() && fresh(replayBuffer.Repr)
      ensures replayBuffer.appends == 0 && epsilon == EPSILON_START && actionTicker == 1
      ensures replayBuffer.Size() == 0
      ensures this.numActions == numActions && this.gamma == gamma && this.replayStartSize == replayStartSize
    {
      replayBuffer := new ReplayBuffer(REPLAY_CAPACITY, FRAME_HISTORY, blank);
      this.replayStartSize := replayStartSize;
      epsilon := EPSILON_START;
      actionTicker := 1;
      this.numActions := numActions;
      this.gamma := gamma;
      new;
      assert replayBuffer.action[..] == seq(REPLAY_CAPACITY, _ => 0);
    }

    /** The non-network part of `update_q_values` (dqn.py:100-103): draw a
        batch from the buffer and encode its actions one-hot. */
    method UpdateQValues(draws: seq<int>) returns (batch: Batch<F>, actionsOneHot: array2<real>)
      requires Valid()
      requires |draws| == batchSize
      requires forall k :: 0 <= k < |draws| ==>
        0 <= draws[k] < DrawBound(Cursor(replayBuffer.t, replayBuffer.filled), REPLAY_CAPACITY, FRAME_HISTORY)
      ensures batch.HasLength(batchSize)
      ensures forall k :: 0 <= k < batchSize ==>
        batch.At(k) == Reconstruct(replayBuffer.Contents(), FRAME_HISTORY,
                                   DrawnIndex(draws[k], Cursor(replayBuffer.t, replayBuffer.filled), REPLAY_CAPACITY, FRAME_HISTORY))
      ensures fresh(actionsOneHot) && actionsOneHot.Length0 == batchSize && actionsOneHot.Length1 == numActions
      ensures forall i, j :: 0 <= i < batchSize && 0 <= j < numActions ==>
        actionsOneHot[i, j] == OneHotRow(batch.actions[i], numActions)[j]
    {
      batch := replayBuffer.Sample(draws);
      forall k | 0 <= k < |draws|
        ensures batch.actions[k] < numActions
      {
        var c := Cursor(replayBuffer.t, replayBuffer.filled);
        var index := DrawnIndex(draws[k], c, REPLAY_CAPACITY, FRAME_HISTORY);
        assert batch.At(k).action == replayBuffer.Contents().actions[index];
        assert replayBuffer.action[index] < numActions;
      }
      actionsOneHot := OneHot(batch.actions, batchSize, numActions);
    }

    /** One pass of the loop in `run_learning_episode` (dqn.py:118-132)
        once the environment has answered with `o`: anneal epsilon, append
        the newest frame, run the gated training and copy events, advance
        the ticker. */
    method LearningStep(o: StepOutcome<F>) returns (stepEvents: seq<Event>)
      requires Valid() && |o.state| > 0 && |o.nextState| > 0 && o.action < numActions
      modifies this, replayBuffer.Repr
      ensures Valid()
      ensures replayBuffer.appends == old(replayBuffer.appends) + 1 && actionTicker == old(actionTicker) + 1
      ensures stepEvents == StepEvents(SizeAfterAppends(old(replayBuffer.appends) + 1, REPLAY_CAPACITY), replayStartSize, old(actionTicker))
      ensures replayBuffer.Contents()
        == old(replayBuffer.Contents()).Store(old(replayBuffer.appends) % REPLAY_CAPACITY, Newest(o.state), o.action, o.reward, o.terminal)
    {
      // The action was chosen epsilon-greedily by the environment's random
      // draw or the live network; `o.action` is the one taken.
      epsilon := Anneal(epsilon);
      replayBuffer.Append(Newest(o.state), o.action, o.reward, Newest(o.nextState), o.terminal);
      var size := replayBuffer.Size();
      stepEvents := [];
      if size > replayStartSize && actionTicker % TRAIN_INTERVAL == 0 {
        stepEvents := stepEvents + [Train(actionTicker)];
      }
      if actionTicker % COPY_INTERVAL == 0 {
        stepEvents := stepEvents + [CopyTarget(actionTicker)];
      }
      actionTicker := actionTicker + 1;
      assert forall j :: 0 <= j < replayBuffer.action.Length ==> replayBuffer.action[j] == replayBuffer.action[..][j];
    }

    /** `run_learning_episode` (dqn.py:111-132) over the environment's
        responses for one episode. Each step anneals epsilon, appends the
        newest frame with its action, reward and terminal flag, trains when
        the buffer is past warm-up and the ticker is a multiple of 4, copies
        the target when the ticker is a multiple of 40000, and advances the
        ticker. */
    method RunLearningEpisode(outcomes: seq<StepOutcome<F>>) returns (episodeSteps: nat, totalReward: real, events: seq<Event>)
      requires Valid() && IsEpisode(outcomes)
      requires forall k :: 0 <= k < |outcomes| ==> outcomes[k].action < numActions
      modifies this, replayBuffer.Repr
      ensures Valid()
      ensures episodeSteps == |outcomes| && replayBuffer.appends == old(replayBuffer.appends) + |outcomes|
      ensures actionTicker == old(actionTicker) + |outcomes|
      ensures epsilon == EpsilonAfter(old(replayBuffer.appends) + |outcomes|)
      ensures totalReward == TotalReward(outcomes, |outcomes|)
      ensures events == Schedule(old(actionTicker), old(replayBuffer.appends), |outcomes|, replayStartSize)
      ensures replayBuffer.Contents() == Recorded(old(replayBuffer.Contents()), old(replayBuffer.appends), outcomes, |outcomes|)
    {
      var done := |outcomes| == 0;
      episodeSteps, totalReward, events := 0, 0.0, [];
      ghost var steps0, ticker0, contents0 := replayBuffer.appends, actionTicker, replayBuffer.Contents();
      while !done
        invariant episodeSteps <= |outcomes| && (done <==> episodeSteps == |outcomes|)
        invariant Valid() && replayBuffer.appends == steps0 + episodeSteps && ticker0 == steps0 + 1
        invariant totalReward == TotalReward(outcomes, episodeSteps)
        invariant events == Schedule(ticker0, steps0, episodeSteps, replayStartSize)
        invariant contents0.Capacity() == REPLAY_CAPACITY
        invariant replayBuffer.Contents() == Recorded(contents0, steps0, outcomes, episodeSteps)
        decreases |outcomes| - episodeSteps
      {
        var o := outcomes[episodeSteps];
        RecordedStep(contents0, steps0, outcomes, episodeSteps);
        assert replayBuffer.appends % REPLAY_CAPACITY == (steps0 + episodeSteps) % contents0.Capacity();
        ScheduleStep(ticker0, steps0, episodeSteps, replayStartSize);
        assert actionTicker == ticker0 + episodeSteps;
        var stepEvents := LearningStep(o);
        events := events + stepEvents;
        totalReward := totalReward + o.reward;
        done := o.terminal;
        episodeSteps := episodeSteps + 1;
      }
    }
  }
}
