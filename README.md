# DQN experience replay and learning-loop bookkeeping, in Dafny

This project models the discrete core of a Deep Q-Network Atari agent
(`dqn.py`):

- **The experience-replay ring buffer `ReplayBuffer`.** It keeps four
  parallel fixed-size arrays: frames, actions (`uint8`), rewards and
  terminal flags.
  - A write cursor `t` and a `filled` flag say where the next append goes
    and whether the ring has wrapped.
  - `get_window` reads a slice that may wrap past either end of the ring.
  - `get_sample(index)` rebuilds the stack of `frame_history` frames before
    and after the transition at `index`. It also builds the two masks that
    blank out frames from an earlier episode.
  - `sample` turns a batch of random draws into slots and assembles the
    transitions in draw order.
- **`DQN_Agent`'s bookkeeping:**
  - epsilon annealing with a floor;
  - the two gates on `action_ticker`: train every 4 steps once the buffer
    is past warm-up, and copy the target network every 40000 steps;
  - the one-hot action encoding and the sign-clipping of rewards;
  - the `run_learning_episode` loop, which feeds the buffer one
    environment step at a time.

There are three modules:

- `Wraparound` (`wraparound.dfy`) holds Python slice semantics and
  `get_window`, plus the `%` facts they rely on. Dafny's `%` is Euclidean,
  so for the positive moduli used here it agrees with Python's flooring
  `%`.
- `Replay` (`replay.dfy`) holds the buffer. It is a class over four
  `array`s with the cursor fields.
  - A ghost append counter ties the cursor to `n mod capacity`.
  - The pure function `Reconstruct` states what `get_sample` returns, and
    `BoundaryMask` states what its mask loop builds.
- `Agent` (`agent.dfy`) holds the agent. It is a class with `epsilon` and
  `actionTicker` that owns a buffer.
  - `Schedule`, `Recorded` and `TotalReward` specify what an episode of
    `n` steps does.
  - A training step and a target copy are opaque `Event`s.

Frames are an opaque type parameter `F`, with the all-zero frame passed in
as `blank`. Random draws and the environment's answers are inputs.

## Model

| member | source | states |
|---|---|---|
| Wraparound.Slice | dqn.py:171-175 | Python's `a[lo:hi]`: never longer than `a`; equal to the plain slice for in-range bounds; a negative start counts back from the end |
| Wraparound.Window | dqn.py:167-175 | `get_window` itself, the three branches as written; no ensures; specified by `WindowLength` and `WindowIndexing` |
| Wraparound.InRange | dqn.py:168-173 | the ranges on which `get_window` reads exactly: at most one lap either side, not past both ends at once; no ensures; used as the precondition of `WindowIndexing` |
| Wraparound.WindowLength | dqn.py:167-175 | on a range at most one lap either side and not wrapping at both ends, the window has exactly `end - start` elements |
| Wraparound.WindowIndexing | dqn.py:167-175 | on such a range, element `j` of the window is the slot `(start + j) mod capacity`, and the length is `end - start` |
| Wraparound.StartWraps | dqn.py:170-171 | the tail-then-head branch reads the ring in logical order |
| Wraparound.EndWraps | dqn.py:172-173 | the branch that runs past the end continues at slot 0 in logical order |
| Wraparound.NoWrap | dqn.py:174-175 | the plain-slice branch reads slots `start..end` |
| Wraparound.WindowShortWhenBothEndsWrap | dqn.py:168-173 | when the range runs off both ends (the case the comment warns about), the window comes out one lap short: 4 elements for 5 positions |
| Replay.Advance | dqn.py:162-165 | the new cursor is `(t + 1) mod capacity`, stays below capacity, and `filled` is set exactly when the cursor wraps, or it was set before |
| Replay.CursorAfter | dqn.py:146-147 | the cursor after `n` appends from `t = 0, filled = False` stays below the capacity |
| Replay.CursorAfterCount | dqn.py:146-165 | after `n` appends the cursor is `n mod capacity`, and `filled` holds exactly when `n >= capacity` |
| Replay.FilledStaysFilled | dqn.py:163-165 | `filled` never goes back to false |
| Replay.SizeOf | dqn.py:224-228 | `size()` on a cursor: the capacity when filled, else `t`; no ensures; specified by `SizeAfter` |
| Replay.SizeAfterAppends | dqn.py:224-228 | the append count capped at the capacity; no ensures; `SizeAfter` proves it is `SizeOf` of the cursor after that many appends |
| Replay.SizeAfter | dqn.py:224-228 | `size()` of the cursor after `n` appends is `SizeAfterAppends`: `n`, capped at the capacity |
| Replay.Slots.Store | dqn.py:158-161 | the four arrays stay parallel and keep their length |
| Replay.StoreOnlyAtSlot | dqn.py:158-161 | a store writes all four values at its slot, and every other slot of every array keeps its value |
| Replay.Written | dqn.py:158-165 | a run of appends leaves the ring's length unchanged |
| Replay.WrittenSnoc | dqn.py:158-165 | one more append writes at the slot after the run's end |
| Replay.WrittenPrefix | dqn.py:158-165 | a run that grows by one element writes that element at slot `start + n - 1` mod capacity |
| Replay.WrittenKeepsNewest | dqn.py:158-165 | of a run of appends, each of the last `capacity` values survives at its slot `(start + k) mod capacity` |
| Replay.WrittenLeavesOthers | dqn.py:158-165 | a slot further past the starting cursor than the run is long keeps its old value |
| Replay.OffsetSlot | dqn.py:162-165 | slot `j` is reached `(j - start) mod n` appends after cursor `start` |
| Replay.BoundaryMask | dqn.py:183-188 | the episode mask has exactly `frame_history` entries |
| Replay.MaskShape | dqn.py:183-188 | the mask is 0/1 with last entry 1; if `i` is the latest terminal among the first `H - 1` flags, exactly positions `0..i` are 0; with no such terminal the mask is all ones |
| Replay.BuildMask | dqn.py:183-188 | the nested right-to-left loop with `break` builds exactly `BoundaryMask` |
| Replay.SampleWindowsInRange | dqn.py:178-181 | for `1 <= H <= capacity` and a slot index, both windows `get_sample` reads lie in the exact range |
| Replay.Reconstruct | dqn.py:177-194 | `get_sample` as a function of the stored slots; no ensures; specified by `ReconstructFrames` and `ReconstructMasks` |
| Replay.FlagsBefore | dqn.py:181 | the terminal flags of the `H` slots ending at `index`, read round the ring: `H` of them |
| Replay.ReconstructFrames | dqn.py:178-194 | the pre-stack is the `H` slots ending at `index` and the post-stack the `H` ending at `index + 1`, both read mod capacity; they share `H - 1` frames; action, reward and terminal are those at `index` |
| Replay.ReconstructPre | dqn.py:178-191 | the pre-stack has `H` frames, frame `j` from slot `(index - (H - 1) + j) mod capacity` |
| Replay.ReconstructPost | dqn.py:178-192 | the post-stack has `H` frames, frame `j` from slot `(index - (H - 1) + j + 1) mod capacity` |
| Replay.ReconstructOverlap | dqn.py:191-192 | the pre-stack without its oldest frame is the post-stack without its newest |
| Replay.SlicesOverlap | dqn.py:191-192 | `frames[:-1][1:] == frames[1:][:-1]` on the `H + 1` frames |
| Replay.ReconstructStacks | dqn.py:180-192 | the window holds `H + 1` frames; the pre-stack is its first `H`, the post-stack all but its first |
| Replay.ReconstructMasks | dqn.py:181-189 | the pre-mask is the boundary mask of the `H` flags ending at `index` read round the ring; the post-mask is it shifted left by one with a trailing 1, so it also ends in 1 |
| Replay.FlagsWindow | dqn.py:181 | the terminations window equals the ring's flags for the `H` slots ending at `index` |
| Replay.Batch.Push | dqn.py:213-219 | the seven `append`s of one pass of `sample`; no ensures; specified by `PushKeepsPrefix` |
| Replay.DrawBound | dqn.py:197-200 | the exclusive upper bound of `randint`: `t` before the ring wraps, `capacity - (H + 1)` after; no ensures; used as the precondition of `DrawnIndex` |
| Replay.PushKeepsPrefix | dqn.py:212-220 | one pass of the seven `append`s extends a batch that matches the expected transitions by the next one |
| Replay.DrawnIndex | dqn.py:197-202 | before the ring wraps, the slot equals the draw itself and lies in `[0, t)`; afterwards it lies in `[0, capacity)` and is congruent to `draw - (t + H + 1)` |
| Replay.DrawCanReachCursor | dqn.py:200-202 | with capacity 10, history 4 and `t = 0` on a filled ring, draw 4 gives slot 9, whose post-stack ends at slot 0: the slot the next append overwrites |
| Replay.ReplayBuffer.Contents | dqn.py:152-155 | the four arrays stay parallel, one slot per unit of capacity |
| Replay.ReplayBuffer.constructor | dqn.py:145-155 | `t = 0`, not filled, no appends, and every slot holds the zero frame, action 0, reward 0 and `False` |
| Replay.ReplayBuffer.Size | dqn.py:224-228 | `SizeOf` the current cursor, which is `SizeAfterAppends` of the appends so far, so never more than the capacity |
| Replay.ReplayBuffer.Append | dqn.py:157-165 | writes `S1, A, R, T` at the old cursor, which is the append count mod capacity, and nowhere else (`S2` is ignored); the cursor advances as `Advance` says |
| Replay.ReplayBuffer.GetSample | dqn.py:177-194 | returns exactly `Reconstruct` of the current arrays at `index` |
| Replay.ReplayBuffer.Sample | dqn.py:196-222 | returns seven sequences, one entry per draw, in draw order; entry `k` is `Reconstruct` at the slot `DrawnIndex` gives for draw `k` |
| Agent.Anneal | dqn.py:121 | one step gives the floor or one delta less, never below either, so exactly their maximum; never above its input once that is at or above the floor |
| Agent.EpsilonAfter | dqn.py:88-91 | epsilon after `n` steps of `Anneal` (dqn.py:121) from 1.0; no ensures; specified by `EpsilonClosedForm` |
| Agent.EpsilonClosedForm | dqn.py:88-91 | after `n` annealing steps (dqn.py:121) from 1.0, epsilon is `1.0 - n * delta`, or the floor once that is not above it |
| Agent.EpsilonBounds | dqn.py:88-91 | under the annealing step of dqn.py:121, epsilon always lies in `[0.1, 1.0]` |
| Agent.EpsilonNonIncreasing | dqn.py:121 | epsilon never increases from one step to a later one |
| Agent.EpsilonReachesFloor | dqn.py:89-91 | under the annealing step of dqn.py:121, epsilon equals the floor exactly when at least `epsilon_steps` = 1000000 steps have passed |
| Agent.TrainsAt | dqn.py:126 | the training gate: size above `replay_start_size` and the ticker a multiple of 4; no ensures; used by `ScheduleTrains` and `LearningStep` |
| Agent.CopiesAt | dqn.py:128 | the copy gate: the ticker a multiple of 40000; no ensures; used by `ScheduleCopies` and `LearningStep` |
| Agent.StepEvents | dqn.py:126-129 | the events of one step, training before copy; no ensures; specified by `StepTrainsOnce` and `LearningStep` |
| Agent.Schedule | dqn.py:115-131 | the events of `n` consecutive steps; no ensures; specified by `ScheduleTrains`, `ScheduleCopies` and `TrainsOncePerInterval` |
| Agent.ScheduleTrains | dqn.py:126-130 | over a run of steps, a training event at tick `x` happens exactly when `x` is one of the run's ticks, the size after that step's append exceeds `replay_start_size`, and `x % 4 == 0` |
| Agent.ScheduleCopies | dqn.py:128-130 | a target copy at tick `x` happens exactly when `x` is one of the run's ticks and `x % 40000 == 0`, whatever the buffer's size |
| Agent.CountTrainsAppend | dqn.py:126-127 | the training count of two logs laid end to end is the sum of their counts |
| Agent.CountTrains | dqn.py:126-127 | the number of training events in a log; no ensures; specified by `CountTrainsAppend` and `CountTrainsSchedule` |
| Agent.TrainSteps | dqn.py:126-127 | the number of steps of a run whose training gate opens; no ensures; related to `Schedule` by `CountTrainsSchedule` |
| Agent.ScheduleSplit | dqn.py:115-131 | the events of `n` steps are those of the first `m` followed by those of the remaining `n - m` |
| Agent.CountTrainsSchedule | dqn.py:126-127 | the number of training events of a run is the number of its steps whose gate is open |
| Agent.CountScheduleLast | dqn.py:126-127 | the last step of a run adds one training event exactly when its gate is open |
| Agent.TrainStepsSplit | dqn.py:126-127 | the open gates of a run are those of its first `m` steps plus those of the rest |
| Agent.TrainsOncePerInterval | dqn.py:126-127 | once the buffer is past warm-up, every `4 * k` consecutive steps train exactly `k` times |
| Agent.GatesOncePerInterval | dqn.py:126-127 | past warm-up, `4 * k` consecutive steps open the training gate `k` times |
| Agent.FourStepsTrainOnce | dqn.py:126-127 | past warm-up, four consecutive steps open the training gate once |
| Agent.OneOfFourTicks | dqn.py:126 | of four consecutive ticker values exactly one is a multiple of 4 |
| Agent.StepTrainsOnce | dqn.py:126-127 | one step trains once when its gate is open and not at all otherwise |
| Agent.CopyTicksTrain | dqn.py:126-129 | past warm-up, every copy tick is also a training tick, since 40000 is a multiple of 4 |
| Agent.Sign | dqn.py:77 | the clipped reward is -1, 0 or 1, is 0 exactly for a zero reward, and times the reward's magnitude it gives back the reward |
| Agent.SignExamples | dqn.py:77 | -5, 0, 0.3 and 7 clip to -1, 0, 1 and 1 |
| Agent.SignIdempotent | dqn.py:77 | clipping twice is clipping once |
| Agent.OneHotRow | dqn.py:102-103 | the one-hot row has one entry per action |
| Agent.OneHotSelects | dqn.py:102-103 | as the loss uses it (dqn.py:80), the sum of a one-hot row times the Q-values is the Q-value of the encoded action, or 0 for an action outside the row |
| Agent.OneHot | dqn.py:102-103 | a fresh `rows x num_actions` matrix: row `i` is the one-hot encoding of action `i`, and rows past the actions are zero |
| Agent.IsEpisode | dqn.py:115-125 | the environment's answers over one episode: every state stack is non-empty, and only the last answer is terminal; no ensures; the precondition of `RunLearningEpisode` |
| Agent.Frames | dqn.py:125 | one stored frame, `state[-1]`, per step |
| Agent.Actions | dqn.py:125 | one stored action per step |
| Agent.Rewards | dqn.py:125 | one stored reward per step |
| Agent.Terminals | dqn.py:125 | one stored terminal flag per step |
| Agent.TotalReward | dqn.py:114-124 | the unclipped sum of the first `n` rewards; no ensures; `RunLearningEpisode` returns it |
| Agent.Newest | dqn.py:125 | `state[-1]`, the newest frame of a stack; no ensures; used by `Recorded` and `LearningStep` |
| Agent.Recorded | dqn.py:125 | the buffer's arrays after the first `n` steps of an episode stay parallel and keep their length |
| Agent.RecordedWritten | dqn.py:157-165 | with the appends of dqn.py:125, each array after the episode's steps is the run of appends of the matching field, starting at the append count |
| Agent.RecordedStep | dqn.py:125 | one more step stores its record at slot `(start + n) mod capacity` |
| Agent.ScheduleStep | dqn.py:126-130 | one more step appends its own gated events to the run's |
| Agent.DqnAgent.constructor | dqn.py:86-95 | a buffer of 1000000 slots with history 4, epsilon 1.0, ticker 1, size 0 |
| Agent.DqnAgent.UpdateQValues | dqn.py:100-103 | a batch of 32 transitions, each `Reconstruct` at its drawn slot, and their actions encoded one-hot |
| Agent.DqnAgent.LearningStep | dqn.py:116-131 | anneals epsilon; appends the newest frame with its action, reward and flag at slot `appends mod capacity`; emits a training event exactly when the new size exceeds `replay_start_size` and the ticker is a multiple of 4, and a copy exactly when it is a multiple of 40000; advances the ticker by one |
| Agent.DqnAgent.RunLearningEpisode | dqn.py:111-132 | returns the episode's step count and its reward sum; the ticker and the append count grow by the step count; epsilon is `EpsilonAfter` of the total step count; the events are the gated `Schedule`; the arrays are `Recorded` from the old contents at the old append count |

## Left out

- The TensorFlow graph is not modelled (dqn.py:6-52, 56-84, 97-98, 105-108). This covers the convolutions, the loss, RMSProp and gradient clipping, and the session runs. A training step and a target copy are opaque `Event`s; the initial variable initialisation and target copy at dqn.py:97-98 are not modelled.
- `get_action` (dqn.py:134-139) and the epsilon-greedy choice (dqn.py:117-120) are left out: they need the network and `np.random`. The action taken is part of the environment's answer `StepOutcome`.
- Randomness is not modelled. The `randint` draws of `sample` are an input. Numpy raises an error on an empty draw range (`t = 0` on an unfilled ring, or `capacity <= H + 1` on a filled one); the model leaves that case out by requiring in-range draws.
- `environment` is an input script: `reset_environment`, `is_current_state_terminal`, `get_current_state` and `perform_action` become one finite list of `StepOutcome`s. `IsEpisode` says only the last one is terminal. An empty list stands for an environment that is terminal right after the reset. An environment that never terminates is not modelled.
- Agent.DqnAgent.LearningStep: emits a `Train` event where the source calls `update_q_values`; the sampled batch, the loss and the weight update are not modelled. `UpdateQValues` models that call's sampling and one-hot part on its own.
- Floating point is modelled as `real`: the float32 reward array, the reward sum and the Python float (float64) epsilon are exact, so rounding is not modelled. `EpsilonReachesFloor` holds in exact arithmetic.
- The `uint8` action array is not modelled as wrapping: actions are a `Byte` subtype in `[0, 256)`, so an action of 256 or more is excluded rather than wrapped.
- The 84x84 frame contents are not modelled (frames are the opaque type `F`), and neither are the numpy transposes at dqn.py:191-192, which only change the layout.
- Agent.DqnAgent.Valid, Agent.DqnAgent.LearningStep, Agent.DqnAgent.RunLearningEpisode and Agent.OneHot: require every action to lie in `[0, num_actions)`. The source stores whatever action the environment returns; numpy raises an `IndexError` at dqn.py:103 only when such an action is later sampled. The model assumes the environment returns actions in `[0, num_actions)` and does not model that error.
- `learning_rate` and `frame_size` are not modelled: the first only feeds the optimiser and the second is never used.
- Replay.ReplayBuffer.GetSample: requires `1 <= frame_history <= capacity`, which is all the window arithmetic needs. This is a looser condition than the source comment's `capacity > frame_history + 1`.
- Replay.DrawCanReachCursor: the model does not claim that filled-mode sampling keeps windows away from the write cursor. The code subtracts `t` (dqn.py:201), so the excluded band moves opposite to the cursor. The lemma shows a drawn slot whose post-stack ends at the slot the next append overwrites.
- `update_q_values` returns the loss, and the model does not return it.
- `train_dqn.py` is not part of this model. It is a driver script that does file output, printing, timing and progress bars.
