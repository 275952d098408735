# Yawn and BlueCoin drowsiness monitor — a Dafny model of its decision core

The monitor raises a two-stage drowsiness alert. A classifier labels mouth
regions of camera frames; results labelled `yawn` with confidence above 0.6
are debounced and their timestamps kept in a ten-minute window
(`main.py`). Five yawns in the window print a "take a break" warning on
every evaluation. Three yawns start a BlueCoin corroboration session on a
background thread, unless one is already running. The session
(`src/bluecoin_handler.py`) picks a BLE device, connects, and collects the Z
component of gyroscope updates in a FIFO of 100 samples. When the FIFO is
full and its mean absolute rotation is strictly above 35 °/s, it alerts.
The sampling loop also stops on disconnection, after the 300 s session
budget, and 60 s after sampling started.

This project models that core and proves properties of it:

- `config.dfy` — module `Config`: the constants of `src/config.py`.
- `deque.dfy` — module `Deque`: `collections.deque(maxlen = n)` append
  semantics (`Push`), which both the yawn window and the gyro FIFO use, and
  `Keep`, its reference definition (the newest `n` elements).
- `yawn_monitor.dfy` — module `YawnMonitor` (`main.py`): the class
  `YawnTracker` with the fields `events` (the `yawn_events` deque),
  `lastYawnTime` and `active` (the `bluecoin_active` flag), and methods
  `OnDetection`, `Prune`, `Check` and `SessionDone`. Their contracts are
  stated with the functions `Pruned`, `Push` and `Accepts`. The lemmas prove
  what pruning keeps, what eviction by capacity can change, and that the
  window stays strictly increasing.
- `bluecoin.dfy` — module `BlueCoin` (`src/bluecoin_handler.py`): the pure
  `SelectDevice`, the `GyroFifo` class (the deque plus
  `_GyroFIFOListener.on_update`), the `MeanAbsExceeds` rule, the reference
  semantics `Loop` and `Session`, and the method `RunSession`. `RunSession`
  runs the session loop over an explicit trace and is proved equal to
  `Session`.

Modelling choices:

- Timestamps, confidences and samples are `real`. Floating-point rounding is
  not modelled.
- Clock readings are parameters. `OnDetection` takes two: `now` is read when
  the result is a yawn (main.py:117), and `checkNow` is read again inside
  `_check_yawn_state` (main.py:41).
- The session runs on an explicit trace. A `Setup` record gives the outcomes
  of the BLE setup steps. A sequence of `Poll` rounds gives each loop
  round's `is_connected()` result, its elapsed time, the updates delivered
  during `wait_for_notifications` and the elapsed time read for the 60 s
  check. A `Fault` round stands for an SDK call that raised. If the trace
  ends while the loop would still run, the result is `StillSampling`.
  `LoopEndsByFirstStop` shows that any round that ends the loop makes the
  result independent of later rounds.
- The session thread is the abstract event `SessionDone`. It clears the flag
  whatever the session returned or raised (main.py:31-36).
- Device selection follows Python's indexing. Take `devices[min(index - 1,
  len - 1)]`. An index of 0 or below counts from the end of the list. An
  index at or below `-len` raises `IndexError`. On that path `dev` is still
  `None`, so the `finally` block's `dev.is_connected()` raises, and the
  exception escapes `run_bluecoin_session` (`OnlyBadIndexEscapes`). With the
  default index 1 this path cannot happen.

Facts about the code that the model follows:

- The code has no one-shot warning latch. The warning prints on every
  evaluation with at least five yawns in the window (main.py:50-51).
- Nothing clears the window when a session ends. Only the flag is cleared
  (main.py:31-36).
- `last_yawn_time` starts at 0.0, so there is no "no prior event" case. A
  yawn at a clock value below 3.0 is rejected (main.py:28, 119).
- The 60 s cutoff is measured from the start of sampling (`t0 + 60`). It is
  not a no-activity timeout (src/bluecoin_handler.py:117-118, 124). As a
  consequence the 300 s budget check (line 120) can only end the loop after
  a clock jump of at least 240 s between two reads (`BudgetNeedsClockJump`).
- Capacity does drop events that are still inside the window, because 24 is
  far below 600 s / 3 s. `EvictionOnlyCapsCount` and
  `EvictionKeepsDecisions` show this only caps the count at 24 and never
  changes the warning or start decision.
- The strictly increasing window needs no monotonic clock. An accepted `now`
  is at least 3 s after `last_yawn_time`, and every stored entry is at most
  `last_yawn_time`. The class invariant `Valid` (through `Consistent`) keeps
  both facts.

## Model

| member | source | states |
|---|---|---|
| `Deque.Push` | main.py:26 | appending to a deque bounded by `maxlen` keeps exactly the newest `maxlen` elements of the old contents followed by the new one; the result never exceeds `maxlen` and ends with the new element |
| `YawnMonitor.Pruned` | main.py:44-45 | front eviction returns a suffix of the window; every dropped entry is older than the window, and the first kept entry (if any) is not |
| `YawnMonitor.Recent` | main.py:44-47 | reference definition of the window count: a timestamp is in the result iff it is in the given window and at most 600 s old |
| `YawnMonitor.SpacedIsIncreasing` | main.py:119-122 | a window whose entries are pairwise at least the debounce apart is strictly increasing |
| `YawnMonitor.PrunedKeepsOnlyRecent` | main.py:44-45 | after pruning a time-ordered window every retained timestamp is at most 600 s old; an entry exactly 600 s old is kept |
| `YawnMonitor.PruneIdempotent` | main.py:44-45 | pruning twice with the same clock equals pruning once |
| `YawnMonitor.PrunedIsRecent` | main.py:44-47 | on a time-ordered window the pruned window equals the in-order filter of entries still inside the window, so the count is the number of recent yawns |
| `YawnMonitor.EvictionOnlyCapsCount` | main.py:26 | keeping the newest `c` entries of a time-ordered window and then pruning leaves min(recent count, c) entries |
| `YawnMonitor.EvictionKeepsDecisions` | main.py:50-59 | with capacity 24, dropping the oldest entry when full never changes whether the warning count (5) or the session threshold (3) is reached |
| `YawnMonitor.AcceptKeepsConsistent` | main.py:119-122 | appending an accepted timestamp keeps the window pairwise debounce-spaced and no later than the new last-yawn time |
| `YawnMonitor.YawnTracker.constructor` | main.py:26-28 | start-up state: empty window, last yawn time 0.0, session flag clear |
| `YawnMonitor.YawnTracker.Prune` | main.py:44-45 | the while/popleft loop leaves exactly `Pruned(old window, now)` and keeps the invariant |
| `YawnMonitor.YawnTracker.Check` | main.py:38-59 | prunes; warns iff at least 5 yawns remain (no latch); starts a session iff at least 3 remain and the flag was clear, and then sets the flag; with the flag already set it starts nothing; last yawn time unchanged |
| `YawnMonitor.YawnTracker.Record` | main.py:120-122 | recording an accepted yawn sets the last yawn time to `now` and appends `now` to the bounded deque, exactly as `Push` with capacity 24; the class invariant is kept |
| `YawnMonitor.YawnTracker.OnDetection` | main.py:116-126 | accepted iff `Accepts` holds: label is `yawn`, confidence > 0.6 and `now - lastYawnTime >= 3`; on acceptance the last yawn time becomes `now`, `now` is appended with capacity eviction and the check runs; on rejection nothing changes and nothing fires |
| `YawnMonitor.YawnTracker.SessionDone` | main.py:31-36 | the session flag is cleared when the session returns or raises; window and last yawn time are untouched |
| `BlueCoin.FirstMatch` | src/bluecoin_handler.py:92 | returns the first position at or after `from` whose device matches the tag, with no match before it, or None when no later device matches |
| `BlueCoin.PyIndex` | src/bluecoin_handler.py:94 | Python list indexing: defined iff `-n <= i < n`, a negative index counting from the end |
| `BlueCoin.SelectDevice` | src/bluecoin_handler.py:92-94 | the result is a valid position; if any device's tag or name equals a non-empty configured tag, the first such device is chosen; selection fails iff no device matches and the list is empty or the index is at or below `-len` |
| `BlueCoin.FallbackSelectsClampedIndex` | src/bluecoin_handler.py:93-94 | without a match, a 1-based index >= 1 on a non-empty list selects position `index - 1`, clamped to the last device |
| `BlueCoin.NonPositiveIndexCountsFromEnd` | src/bluecoin_handler.py:94 | without a match, an index in `(-len, 0]` selects position `len + index - 1`, counted from the end |
| `BlueCoin.Listen` | src/bluecoin_handler.py:38-41 | one listener callback leaves the newest 100 of the old FIFO followed by the update's Z component, if it is a gyroscope update, and nothing else |
| `BlueCoin.Deliver` | src/bluecoin_handler.py:121 | the updates of one wait, fed to the listener in order, never push the FIFO past 100 entries, and leave it unchanged when none of them is a gyroscope update |
| `BlueCoin.DeliverKeepsNewest` | src/bluecoin_handler.py:35-41 | after any sequence of updates the FIFO holds the newest 100 Z components of gyroscope updates, in arrival order; other features leave it unchanged |
| `BlueCoin.GyroFifo.constructor` | src/bluecoin_handler.py:112 | the FIFO starts empty |
| `BlueCoin.GyroFifo.Append` | src/bluecoin_handler.py:112 | appending a Z value evicts the oldest when 100 are held; capacity is never exceeded |
| `BlueCoin.GyroFifo.OnUpdate` | src/bluecoin_handler.py:38-41 | a gyroscope update appends its Z (third) component; any other feature leaves the FIFO unchanged |
| `BlueCoin.SumAbs` | src/bluecoin_handler.py:129 | the sum of absolute values is non-negative, and zero for an empty FIFO |
| `BlueCoin.MeanAbsExceeds` | src/bluecoin_handler.py:128-131 | the alert rule holds only for a non-empty FIFO, and then exactly when `sum(abs(v))` is strictly above `thr * n`, i.e. the mean absolute value is strictly above `thr` |
| `BlueCoin.MeanAbsExceedsIffSum` | src/bluecoin_handler.py:128-131 | for a non-empty FIFO, `sum(abs(v)) / n > thr` holds iff `sum(abs(v)) > thr * n` |
| `BlueCoin.MeanAtThresholdDoesNotAlert` | src/bluecoin_handler.py:131 | a mean exactly equal to 35 °/s does not alert (strict comparison) |
| `BlueCoin.SteadyFortyAlerts` | src/bluecoin_handler.py:128-134 | a full FIFO of samples of magnitude 40 has mean 40 and alerts |
| `BlueCoin.Loop` | src/bluecoin_handler.py:120-134 | the sampling loop ends only by disconnection, session time, the 60 s cutoff, an alert or a fault, or is still sampling when the trace ends |
| `BlueCoin.Session` | src/bluecoin_handler.py:71-146 | reference outcome of a session: the early-return ladder (no device, failed selection, failed connect, no gyroscope) and then the loop; True is returned exactly on an alert; an exception escapes exactly on the failed-selection path; setup failures leave an empty FIFO and no listener to detach; a loop exit cleans up exactly when the device is still connected |
| `BlueCoin.SetupFailuresReturnFalse` | src/bluecoin_handler.py:86-108 | no device, a failed or unconfirmed connection, and a missing gyroscope each return False with no alert and no listener attached; the missing-gyroscope case disconnects |
| `BlueCoin.OnlyBadIndexEscapes` | src/bluecoin_handler.py:92-94 | an exception escapes the session only on the fallback IndexError path, which needs a non-empty list, no tag match and an index at or below `-len`; every other outcome is a return |
| `BlueCoin.LoopEndsByFirstStop` | src/bluecoin_handler.py:120-126 | once a round that disconnects, reaches 300 s, passes the 60 s cutoff or faults is observed, the loop has ended and later rounds are never consulted |
| `BlueCoin.AlertOnlyFromFullFifo` | src/bluecoin_handler.py:128-134 | an alert is raised only from a full FIFO (100 samples) whose mean absolute value is strictly above 35 |
| `BlueCoin.LiveRound` | src/bluecoin_handler.py:120-134 | a round that keeps the loop running alerts immediately iff its FIFO is then full with mean above the threshold, and otherwise the loop continues from the new FIFO |
| `BlueCoin.NoAlertBeforeFifoFills` | src/bluecoin_handler.py:128 | if fewer than 100 gyroscope samples arrive, the sampling loop cannot end by an alert: it ends by disconnection, a timeout or a fault, or the trace runs out first |
| `BlueCoin.BudgetNeedsClockJump` | src/bluecoin_handler.py:117-124 | when every round's first clock read is less than 240 s after the previous read (starting from `t0`), the loop never ends by the 300 s budget: the 60 s cutoff, measured from the same start, always comes first |
| `BlueCoin.SessionAlertIffRule` | src/bluecoin_handler.py:134-146 | the session returns True exactly when the alert rule fired, and then the final FIFO is full and above the threshold |
| `BlueCoin.SessionEndsByFirstStop` | src/bluecoin_handler.py:120-143 | a loop-ending round ends the session regardless of later rounds; every loop exit disables notifications, removes the listener and disconnects exactly when the device is still connected |
| `BlueCoin.WaitForNotifications` | src/bluecoin_handler.py:121 | the updates delivered during one wait reach the listener in order, leaving the FIFO as `Deliver` says |
| `BlueCoin.BadIndexRaises` | src/bluecoin_handler.py:92-139 | one device without the configured tag and BLUECOIN_INDEX = -1: the session as written raises, while the guarded session does not |
| `BlueCoin.GuardedSessionNeverRaises` | src/bluecoin_handler.py:136-146 | the session with a `dev is not None` guard in `finally` never raises; a failed selection returns False with no cleanup, and every other outcome equals the code as written |
| `BlueCoin.SampleRound` | src/bluecoin_handler.py:120-134 | one round in place on the FIFO object: either the loop ends with the `Loop` outcome, or it goes on and `Loop` of the rest from the new FIFO is the same outcome |
| `BlueCoin.SampleLoop` | src/bluecoin_handler.py:120-134 | the while loop over the rounds leaves the FIFO and the exit reason that `Loop` gives, and alerts exactly on `Alerted` |
| `BlueCoin.RunSession` | src/bluecoin_handler.py:71-146 | the session method (early returns, the while loop with its four exits, the `finally` cleanup) returns exactly the reference `Session` outcome for every setup, trace, tag and index |

## Findings

| source | as written | input that shows it | evidently intended | confidence | as-written member | corrected member |
|---|---|---|---|---|---|---|
| src/bluecoin_handler.py:92-139 | `dev` is bound to `None` by `next(..., None)`; when the fallback `devices[min(BLUECOIN_IDX - 1, len - 1)]` raises IndexError, the `finally` block's `'dev' in locals()` holds and `dev.is_connected()` raises AttributeError out of the function | one discovered device whose tag and name differ from BLUECOIN_TAG, BLUECOIN_INDEX = -1 | every failure is caught by `except Exception` and the function returns False | not executed; high that the path exists, medium that it is unintended (the default index 1 never reaches it) | `BlueCoin.BadIndexRaises`, `BlueCoin.OnlyBadIndexEscapes` | `BlueCoin.GuardedSession`, `BlueCoin.GuardedSessionNeverRaises` |

`RunSession` is proved against `Session`, the code as written. `GuardedSession`
is the same outcome with the `finally` block also checking that a device was
selected.

## Left out

- Camera capture, Haar-cascade face detection and the mouth ROI arithmetic (main.py:65-111): vendor I/O and float scaling. The classifier is an input pair (label, confidence).
- The DPU classifier in src/dpu_handler.py: foreign hardware calls. Only its (label, confidence) output is consumed.
- BLE SDK calls (`Manager.discover`, `connect`, `wait_for_notifications`, `enable_notifications`, `_enable_gyro`): replaced by their observable outcomes in `Setup` and `Poll`. `_enable_gyro` catches its own exceptions and has no effect on the decision.
- Exceptions raised by the SDK during setup (discovery, connect, `get_feature`, `add_listener`, `enable_notifications`): they are caught and return False, as the modelled early returns do. The cleanup variants of these paths are not modelled.
- Exceptions raised by the cleanup calls in `finally`, other than the `dev = None` case that `OnlyBadIndexEscapes` covers.
- Loop: after an alert, the loop condition calls `dev.is_connected()` once more before exiting. The model exits at once. That call cannot change the returned value.
- Threads and real interleaving: the session is the abstract event `SessionDone`; the listener's callbacks are the updates delivered during each wait, in order.
- Signal handling, `sys.exit` and the keyboard-interrupt shutdown (main.py:129-143).
- Logging through `dbg` (src/utils.py), all printed text, and the final warning's formatting.
- Environment-variable parsing in src/config.py: the constants are fixed; the BlueCoin tag and index are parameters of `SelectDevice` and `RunSession`.
