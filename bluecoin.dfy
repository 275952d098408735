/** The corroboration session of src/bluecoin_handler.py: device selection,
    the gyroscope Z FIFO, the mean-absolute-rotation alert rule and the
    session loop with its exits. The BLE transport is replaced by its
    observable outcomes: a Setup record and a finite trace of poll rounds. */
module BlueCoin {
  import opened Config
  import opened Deque

  datatype Option<T> = None | Some(value: T)

  /** `maxlen` of the Z-rotation FIFO. */
  const FifoCapacity: nat := 100

  /** Seconds after the start of sampling at which the loop gives up. */
  const NoAlertTimeoutSeconds: real := 60.0

  // ---------------------------------------------------------------- devices

  /** A discovered BLE node, by the two attributes selection looks at. */
  datatype Device = Device(name: string, tag: string)

  /** Whether `d` is the configured device; an unset or empty tag matches nothing. */
  predicate Matches(d: Device, tag: Option<string>) {
    tag.Some? && tag.value != "" && (d.tag == tag.value || d.name == tag.value)
  }

  /** Index of the first matching device at or after `from`. */
  function FirstMatch(devices: seq<Device>, tag: Option<string>, from: nat): (r: Option<nat>)
    requires from <= |devices|
    ensures r.Some? ==> from <= r.value < |devices| && Matches(devices[r.value], tag)
    ensures r.Some? ==> forall j :: from <= j < r.value ==> !Matches(devices[j], tag)
    ensures r.None? ==> forall j :: from <= j < |devices| ==> !Matches(devices[j], tag)
    decreases |devices| - from
  {
    if from == |devices| then None
    else if Matches(devices[from], tag) then Some(from)
    else FirstMatch(devices, tag, from + 1)
  }

  /** Python's `xs[i]` on a list of length `n`: a negative `i` counts from the
      end; any other index outside the list raises IndexError (None). */
  function PyIndex(n: nat, i: int): (r: Option<nat>)
    ensures r.Some? <==> -(n as int) <= i < n
    ensures r.Some? ==> r.value < n && (if i >= 0 then r.value == i else r.value == n + i)
  {
    if 0 <= i < n then Some(i) else if -(n as int) <= i < 0 then Some(n + i) else None
  }

  function Min(a: int, b: int): int {
    if a <= b then a else b
  }

  /** The chosen device's position: the first device whose tag or name equals
      the configured tag, otherwise `devices[min(index - 1, len - 1)]`.
      None when that indexing raises. */
  function SelectDevice(devices: seq<Device>, tag: Option<string>, index: int): (r: Option<nat>)
    ensures r.Some? ==> r.value < |devices|
    ensures (exists j :: 0 <= j < |devices| && Matches(devices[j], tag)) ==>
      r.Some? && Matches(devices[r.value], tag) &&
      forall j :: 0 <= j < r.value ==> !Matches(devices[j], tag)
    ensures r.None? <==>
      (forall j :: 0 <= j < |devices| ==> !Matches(devices[j], tag)) &&
      (|devices| == 0 || index <= -|devices|)
  {
    match FirstMatch(devices, tag, 0)
    case Some(k) => Some(k)
    case None => PyIndex(|devices|, Min(index - 1, |devices| - 1))
  }

  /** Without a matching tag, a 1-based index selects that position, clamped to
      the last device: always a valid position of a non-empty list. */
  lemma FallbackSelectsClampedIndex(devices: seq<Device>, tag: Option<string>, index: int)
    requires index >= 1 && |devices| > 0
    requires forall j :: 0 <= j < |devices| ==> !Matches(devices[j], tag)
    ensures SelectDevice(devices, tag, index).Some?
    ensures SelectDevice(devices, tag, index).value ==
      if index <= |devices| then index - 1 else |devices| - 1
  {
  }

  /** An index of 0 or below is not clamped from below: Python's negative
      indexing picks a position counted from the end of the list. */
  lemma NonPositiveIndexCountsFromEnd(devices: seq<Device>, tag: Option<string>, index: int)
    requires index <= 0 && -|devices| < index
    requires forall j :: 0 <= j < |devices| ==> !Matches(devices[j], tag)
    ensures SelectDevice(devices, tag, index) == Some(|devices| + index - 1)
  {
  }

  // ----------------------------------------------------------- gyro FIFO

  /** A feature update delivered to the FIFO listener. */
  datatype Update =
    | GyroscopeUpdate(x: real, y: real, z: real)
    | OtherUpdate(values: seq<real>)

  /** The listener's effect on the FIFO: only gyroscope updates append, and
      they append their Z component. */
  function Listen(fifo: seq<real>, u: Update): (r: seq<real>)
    ensures |fifo| <= FifoCapacity ==> r == Keep(fifo + ZOf(u), FifoCapacity)
  {
    match u
    case GyroscopeUpdate(_, _, z) => Push(fifo, z, FifoCapacity)
    case OtherUpdate(_) => fifo
  }

  /** The FIFO after the listener has seen `us`, in order. */
  function Deliver(fifo: seq<real>, us: seq<Update>): (r: seq<real>)
    ensures |fifo| <= FifoCapacity ==> |r| <= FifoCapacity
    ensures ZValues(us) == [] ==> r == fifo
    decreases |us|
  {
    if us == [] then fifo else Deliver(Listen(fifo, us[0]), us[1..])
  }

  /** The Z component of a gyroscope update; nothing for any other feature. */
  function ZOf(u: Update): seq<real> {
    match u
    case GyroscopeUpdate(_, _, z) => [z]
    case OtherUpdate(_) => []
  }

  /** Reference definition: the Z components of the gyroscope updates in `us`. */
  function ZValues(us: seq<Update>): seq<real>
    decreases |us|
  {
    if us == [] then [] else ZOf(us[0]) + ZValues(us[1..])
  }

  /** The FIFO holds the newest FifoCapacity Z values it has ever been sent,
      oldest first: eviction drops the oldest, other features are ignored. */
  lemma {:induction false} DeliverKeepsNewest(fifo: seq<real>, us: seq<Update>)
    requires |fifo| <= FifoCapacity
    ensures Deliver(fifo, us) == Keep(fifo + ZValues(us), FifoCapacity)
    decreases |us|
  {
    if us == [] {
      assert fifo + [] == fifo;
    } else {
      var f := Listen(fifo, us[0]);
      assert Deliver(fifo, us) == Deliver(f, us[1..]);
      DeliverKeepsNewest(f, us[1..]);
      ListenThenKeep(fifo, us[0], ZValues(us[1..]));
      assert ZValues(us) == ZOf(us[0]) + ZValues(us[1..]);
      ConcatAssoc(fifo, ZOf(us[0]), ZValues(us[1..]));
    }
  }

  /** One listener step, then more Z values, trimmed to the FIFO capacity. */
  lemma ListenThenKeep(fifo: seq<real>, u: Update, rest: seq<real>)
    requires |fifo| <= FifoCapacity
    ensures Keep(Listen(fifo, u) + rest, FifoCapacity) == Keep(fifo + ZOf(u) + rest, FifoCapacity)
  {
    match u {
      case GyroscopeUpdate(_, _, z) =>
        KeepOfKeep(fifo + [z], rest, FifoCapacity);
      case OtherUpdate(_) =>
        assert fifo + [] == fifo;
        KeepOfKeep(fifo, rest, FifoCapacity);
    }
  }

  /** The bounded Z FIFO shared between the gyroscope listener and the session
      loop (a deque with maxlen FifoCapacity). */
  class GyroFifo {
    var samples: seq<real>

    ghost predicate Valid()
      reads this
    {
      |samples| <= FifoCapacity
    }

    constructor ()
      ensures Valid() && samples == []
    {
      samples := [];
    }

    /** Append one Z value, evicting the oldest when full. */
    method Append(z: real)
      requires Valid()
      modifies this
      ensures Valid()
      ensures samples == Push(old(samples), z, FifoCapacity)
    {
      if |samples| == FifoCapacity {
        samples := samples[1..];
      }
      samples := samples + [z];
    }

    /** _GyroFIFOListener.on_update. */
    method OnUpdate(u: Update)
      requires Valid()
      modifies this
      ensures Valid()
      ensures samples == Listen(old(samples), u)
    {
      match u
      case GyroscopeUpdate(_, _, z) => Append(z);
      case OtherUpdate(_) =>
    }
  }

  // ---------------------------------------------------------- alert rule

  function Abs(x: real): real {
    if x < 0.0 then -x else x
  }

  /** sum(abs(v) for v in s). */
  function SumAbs(s: seq<real>): (r: real)
    ensures r >= 0.0
    ensures s == [] ==> r == 0.0
    decreases |s|
  {
    if s == [] then 0.0 else Abs(s[0]) + SumAbs(s[1..])
  }

  function MeanAbs(s: seq<real>): real
    requires |s| > 0
  {
    SumAbs(s) / (|s| as real)
  }

  /** The alert rule: the mean absolute value is strictly above `thr`. */
  predicate MeanAbsExceeds(s: seq<real>, thr: real): (b: bool)
    ensures b ==> |s| > 0
    ensures |s| > 0 ==> (b <==> SumAbs(s) > thr * (|s| as real))
  {
    if |s| == 0 then false
    else
      QuotientAbove(SumAbs(s), |s| as real, thr);
      MeanAbs(s) > thr
  }

  /** The rule compared without division. */
  lemma MeanAbsExceedsIffSum(s: seq<real>, thr: real)
    requires |s| > 0
    ensures MeanAbsExceeds(s, thr) <==> SumAbs(s) > thr * (|s| as real)
  {
    QuotientAbove(SumAbs(s), |s| as real, thr);
  }

  lemma QuotientAbove(x: real, n: real, t: real)
    requires n > 0.0
    ensures x / n > t <==> x > t * n
  {
    var q := x / n;
    assert x == q * n;
    if q > t {
      assert (q - t) * n > 0.0;
    } else {
      assert (t - q) * n >= 0.0;
    }
  }

  /** A mean exactly at the threshold does not alert. */
  lemma MeanAtThresholdDoesNotAlert(s: seq<real>)
    requires |s| > 0 && SumAbs(s) == GyroThreshold * (|s| as real)
    ensures !MeanAbsExceeds(s, GyroThreshold)
  {
    MeanAbsExceedsIffSum(s, GyroThreshold);
  }

  /** Samples of one magnitude `c` sum to |s| * c. */
  lemma {:induction false} SumAbsUniform(s: seq<real>, c: real)
    requires forall i :: 0 <= i < |s| ==> Abs(s[i]) == c
    ensures SumAbs(s) == (|s| as real) * c
    decreases |s|
  {
    if s != [] {
      SumAbsUniform(s[1..], c);
    }
  }

  /** A full FIFO of samples of magnitude 40 degrees per second alerts. */
  lemma SteadyFortyAlerts(s: seq<real>)
    requires |s| == FifoCapacity
    requires forall i :: 0 <= i < |s| ==> s[i] == 40.0 || s[i] == -40.0
    ensures MeanAbsExceeds(s, GyroThreshold) && MeanAbs(s) == 40.0
  {
    SumAbsUniform(s, 40.0);
    MeanAbsExceedsIffSum(s, GyroThreshold);
  }

  // ------------------------------------------------------------- session

  /** One round of the sampling loop, as observed: the loop condition's
      is_connected() and elapsed time since t0, the updates delivered during
      wait_for_notifications(0.1), and the elapsed time read for the 60 s
      check. Fault: an SDK call of the round raised. */
  datatype Poll =
    | Round(connected: bool, elapsed: real, updates: seq<Update>, elapsedAfterWait: real)
    | Fault

  /** Why the session ended; StillSampling: the observed rounds ran out first. */
  datatype Reason =
    | NoDevice | SelectionError | ConnectFailed | NoGyroscope
    | Disconnected | SessionTimeUp | NoAlertTimeout | Alerted | LoopFault
    | StillSampling

  /** The outcomes of the BLE setup steps, and is_connected() in `finally`. */
  datatype Setup = Setup(
    devices: seq<Device>,
    connectOk: bool,
    connectSeen: bool,
    hasGyroscope: bool,
    connectedAtExit: bool)

  /** The cleanup done on the way out (the explicit disconnect when the
      gyroscope is missing, or the `finally` block): disable notifications and
      remove the listener, and disconnect. */
  datatype Cleanup = Cleanup(detachListener: bool, disconnect: bool)

  datatype LoopEnd = LoopEnd(reason: Reason, fifo: seq<real>)

  /** The session's outcome: the returned alert flag, why it ended, the final
      FIFO, the cleanup done, and whether an exception escaped the function. */
  datatype SessionResult = SessionResult(
    alert: bool,
    reason: Reason,
    fifo: seq<real>,
    cleanup: Cleanup,
    raises: bool)

  /** A round after which the loop cannot go on, whatever the FIFO holds. */
  predicate EndsLoop(p: Poll) {
    p.Fault? || !p.connected || p.elapsed >= BlueCoinSessionSeconds
    || p.elapsedAfterWait > NoAlertTimeoutSeconds
  }

  /** Reference semantics of the sampling loop over the observed rounds. */
  function Loop(fifo: seq<real>, polls: seq<Poll>): (r: LoopEnd)
    ensures r.reason in {Disconnected, SessionTimeUp, NoAlertTimeout, Alerted, LoopFault, StillSampling}
    decreases |polls|
  {
    if polls == [] then LoopEnd(StillSampling, fifo)
    else match polls[0]
      case Fault => LoopEnd(LoopFault, fifo)
      case Round(connected, elapsed, updates, elapsedAfterWait) =>
        if !connected then LoopEnd(Disconnected, fifo)
        else if elapsed >= BlueCoinSessionSeconds then LoopEnd(SessionTimeUp, fifo)
        else
          var f := Deliver(fifo, updates);
          if elapsedAfterWait > NoAlertTimeoutSeconds then LoopEnd(NoAlertTimeout, f)
          else if |f| == FifoCapacity && MeanAbsExceeds(f, GyroThreshold) then LoopEnd(Alerted, f)
          else Loop(f, polls[1..])
  }

  /** Reference semantics of run_bluecoin_session. */
  function Session(setup: Setup, polls: seq<Poll>, tag: Option<string>, index: int): (r: SessionResult)
    ensures r.alert <==> r.reason == Alerted
    ensures r.raises <==> r.reason == SelectionError
    ensures r.reason in {NoDevice, SelectionError, ConnectFailed, NoGyroscope} ==>
      r.fifo == [] && !r.cleanup.detachListener
    ensures r.reason == StillSampling ==> r.cleanup == Cleanup(false, false)
    ensures r.reason in {Disconnected, SessionTimeUp, NoAlertTimeout, Alerted, LoopFault} ==>
      r.cleanup == Cleanup(setup.connectedAtExit, setup.connectedAtExit)
  {
    if |setup.devices| == 0 then SessionResult(false, NoDevice, [], Cleanup(false, false), false)
    else if SelectDevice(setup.devices, tag, index).None? then
      SessionResult(false, SelectionError, [], Cleanup(false, false), true)
    else if !setup.connectOk || !setup.connectSeen then
      SessionResult(false, ConnectFailed, [], Cleanup(false, setup.connectedAtExit), false)
    else if !setup.hasGyroscope then
      SessionResult(false, NoGyroscope, [], Cleanup(false, true), false)
    else
      var e := Loop([], polls);
      var cleanup := if e.reason == StillSampling then Cleanup(false, false)
                     else Cleanup(setup.connectedAtExit, setup.connectedAtExit);
      SessionResult(e.reason == Alerted, e.reason, e.fifo, cleanup, false)
  }

  /** The three setup failures return False without an alert, before any
      listener is attached; the missing-gyroscope case disconnects first. */
  lemma SetupFailuresReturnFalse(setup: Setup, polls: seq<Poll>, tag: Option<string>, index: int)
    ensures |setup.devices| == 0 ==>
      Session(setup, polls, tag, index) == SessionResult(false, NoDevice, [], Cleanup(false, false), false)
    ensures |setup.devices| > 0 && SelectDevice(setup.devices, tag, index).Some? &&
            (!setup.connectOk || !setup.connectSeen) ==>
      var r := Session(setup, polls, tag, index);
      !r.alert && !r.raises && r.reason == ConnectFailed && !r.cleanup.detachListener
    ensures |setup.devices| > 0 && SelectDevice(setup.devices, tag, index).Some? &&
            setup.connectOk && setup.connectSeen && !setup.hasGyroscope ==>
      var r := Session(setup, polls, tag, index);
      !r.alert && !r.raises && r.reason == NoGyroscope && r.cleanup == Cleanup(false, true)
  {
  }

  /** Every exception is caught and turned into a False return, except on one
      path: when the fallback index raises IndexError, `dev` is still None and
      the `finally` block's dev.is_connected() raises out of the function. That
      path needs a non-empty list, no tag match and an index <= -len. */
  lemma OnlyBadIndexEscapes(setup: Setup, polls: seq<Poll>, tag: Option<string>, index: int)
    ensures var r := Session(setup, polls, tag, index);
      (r.raises <==> r.reason == SelectionError) && (r.raises ==> !r.alert)
    ensures Session(setup, polls, tag, index).raises <==>
      |setup.devices| > 0 &&
      (forall j :: 0 <= j < |setup.devices| ==> !Matches(setup.devices[j], tag)) &&
      index <= -|setup.devices|
  {
  }

  /** The loop has ended by the first round that ends it: later rounds are
      never looked at. */
  lemma {:induction false} LoopEndsByFirstStop(fifo: seq<real>, polls: seq<Poll>, k: nat)
    requires k < |polls| && EndsLoop(polls[k])
    ensures Loop(fifo, polls).reason != StillSampling
    ensures Loop(fifo, polls) == Loop(fifo, polls[..k + 1])
    decreases k
  {
    assert polls[..k + 1][0] == polls[0];
    if k > 0 && !EndsLoop(polls[0]) {
      var f := Deliver(fifo, polls[0].updates);
      if !(|f| == FifoCapacity && MeanAbsExceeds(f, GyroThreshold)) {
        LoopEndsByFirstStop(f, polls[1..], k - 1);
        assert polls[1..][..k] == polls[..k + 1][1..];
      }
    }
  }

  /** An alert is raised only from a full FIFO whose mean absolute Z rotation
      is strictly above the threshold. */
  lemma {:induction false} AlertOnlyFromFullFifo(fifo: seq<real>, polls: seq<Poll>)
    requires Loop(fifo, polls).reason == Alerted
    ensures |Loop(fifo, polls).fifo| == FifoCapacity
    ensures MeanAbsExceeds(Loop(fifo, polls).fifo, GyroThreshold)
    decreases |polls|
  {
    if polls != [] && polls[0].Round? {
      var f := Deliver(fifo, polls[0].updates);
      if !(|f| == FifoCapacity && MeanAbsExceeds(f, GyroThreshold)) {
        AlertOnlyFromFullFifo(f, polls[1..]);
      }
    }
  }

  /** A round that keeps the loop going delivers its updates; it alerts exactly
      when the FIFO is then full with a mean above the threshold, and
      otherwise the loop goes on from the new FIFO. */
  lemma LiveRound(fifo: seq<real>, polls: seq<Poll>)
    requires polls != [] && !EndsLoop(polls[0])
    ensures var f := Deliver(fifo, polls[0].updates);
      if |f| == FifoCapacity && MeanAbsExceeds(f, GyroThreshold)
      then Loop(fifo, polls) == LoopEnd(Alerted, f)
      else Loop(fifo, polls) == Loop(f, polls[1..])
  {
  }

  /** Number of gyroscope samples delivered over the rounds. */
  function GyroCount(polls: seq<Poll>): nat
    decreases |polls|
  {
    if polls == [] then 0
    else (if polls[0].Round? then |ZValues(polls[0].updates)| else 0) + GyroCount(polls[1..])
  }

  /** Fewer samples than the FIFO holds can never alert: a sampling loop whose
      FIFO never fills ends by disconnection, a timeout or a fault, or the
      observed rounds run out first. */
  lemma {:induction false} NoAlertBeforeFifoFills(fifo: seq<real>, polls: seq<Poll>)
    requires |fifo| + GyroCount(polls) < FifoCapacity
    ensures Loop(fifo, polls).reason != Alerted
    decreases |polls|
  {
    if polls != [] && polls[0].Round? {
      var f := Deliver(fifo, polls[0].updates);
      DeliverKeepsNewest(fifo, polls[0].updates);
      assert |f| <= |fifo| + |ZValues(polls[0].updates)|;
      if !(|f| == FifoCapacity && MeanAbsExceeds(f, GyroThreshold)) {
        NoAlertBeforeFifoFills(f, polls[1..]);
      }
    }
  }

  /** The session returns True exactly when the alert rule fired, and then from
      a full FIFO above the threshold. */
  lemma SessionAlertIffRule(setup: Setup, polls: seq<Poll>, tag: Option<string>, index: int)
    ensures var r := Session(setup, polls, tag, index);
      (r.alert <==> r.reason == Alerted) &&
      (r.alert ==> |r.fifo| == FifoCapacity && MeanAbsExceeds(r.fifo, GyroThreshold))
  {
    if Session(setup, polls, tag, index).alert {
      AlertOnlyFromFullFifo([], polls);
    }
  }

  /** Once the device has connected with a gyroscope, a round that ends the loop
      ends the session, with the device cleaned up if it is still connected. */
  lemma SessionEndsByFirstStop(setup: Setup, polls: seq<Poll>, tag: Option<string>, index: int, k: nat)
    requires k < |polls| && EndsLoop(polls[k])
    ensures var r := Session(setup, polls, tag, index);
      r.reason != StillSampling &&
      r == Session(setup, polls[..k + 1], tag, index)
    ensures var r := Session(setup, polls, tag, index);
      r.reason in {Disconnected, SessionTimeUp, NoAlertTimeout, Alerted, LoopFault} ==>
      r.cleanup == Cleanup(setup.connectedAtExit, setup.connectedAtExit)
  {
    LoopEndsByFirstStop([], polls, k);
  }

  /** Rounds whose first clock read is less than 240 s (the session budget
      minus the no-alert cutoff) after the previous read, starting from
      `prev`. */
  predicate SmallClockSteps(polls: seq<Poll>, prev: real)
    decreases |polls|
  {
    polls == [] || polls[0].Fault? ||
    (polls[0].elapsed < prev + (BlueCoinSessionSeconds - NoAlertTimeoutSeconds) &&
     SmallClockSteps(polls[1..], polls[0].elapsedAfterWait))
  }

  /** The 300 s budget check is reached only after a clock jump of at least
      240 s: otherwise the 60 s cutoff (measured from the same start) has
      always ended the loop first. */
  lemma {:induction false} BudgetNeedsClockJump(fifo: seq<real>, polls: seq<Poll>, prev: real)
    requires prev <= NoAlertTimeoutSeconds && SmallClockSteps(polls, prev)
    ensures Loop(fifo, polls).reason != SessionTimeUp
    decreases |polls|
  {
    if polls != [] && polls[0].Round? && polls[0].connected
       && polls[0].elapsedAfterWait <= NoAlertTimeoutSeconds {
      var f := Deliver(fifo, polls[0].updates);
      if !(|f| == FifoCapacity && MeanAbsExceeds(f, GyroThreshold)) {
        BudgetNeedsClockJump(f, polls[1..], polls[0].elapsedAfterWait);
      }
    }
  }

  /** run_bluecoin_session with the `finally` block guarding against a device
      that was never selected (as its `except Exception` handler followed by
      `return alert_triggered` evidently intends): the bad-index case returns
      False like every other failure. */
  function GuardedSession(setup: Setup, polls: seq<Poll>, tag: Option<string>, index: int): SessionResult {
    Session(setup, polls, tag, index).(raises := false)
  }

  /** The guarded session never raises, and it differs from the code as
      written only on the path where the code raises. */
  lemma GuardedSessionNeverRaises(setup: Setup, polls: seq<Poll>, tag: Option<string>, index: int)
    ensures !GuardedSession(setup, polls, tag, index).raises
    ensures GuardedSession(setup, polls, tag, index).reason == SelectionError <==>
      |setup.devices| > 0 && SelectDevice(setup.devices, tag, index).None?
    ensures GuardedSession(setup, polls, tag, index).reason == SelectionError ==>
      GuardedSession(setup, polls, tag, index) ==
      SessionResult(false, SelectionError, [], Cleanup(false, false), false)
    ensures !Session(setup, polls, tag, index).raises ==>
      GuardedSession(setup, polls, tag, index) == Session(setup, polls, tag, index)
    ensures Session(setup, polls, tag, index).raises ==>
      GuardedSession(setup, polls, tag, index) ==
      Session(setup, polls, tag, index).(raises := false)
  {
  }

  /** As written: one device without the wanted tag and BLUECOIN_INDEX = -1
      asks for devices[-2], and the resulting exception escapes the session. */
  lemma BadIndexRaises()
    ensures var setup := Setup([Device("BCN-1", "x")], true, true, true, true);
      Session(setup, [], Some("y"), -1).raises &&
      !GuardedSession(setup, [], Some("y"), -1).raises
  {
    var d := Device("BCN-1", "x");
    assert !Matches(d, Some("y"));
  }

  /** wait_for_notifications: the SDK hands each update of this wait to the
      FIFO listener, in order. */
  method WaitForNotifications(fifo: GyroFifo, updates: seq<Update>)
    requires fifo.Valid()
    modifies fifo
    ensures fifo.Valid()
    ensures fifo.samples == Deliver(old(fifo.samples), updates)
  {
    var j := 0;
    while j < |updates|
      invariant 0 <= j <= |updates|
      invariant fifo.Valid()
      invariant Deliver(fifo.samples, updates[j..]) == Deliver(old(fifo.samples), updates)
    {
      assert updates[j..][1..] == updates[j + 1..];
      fifo.OnUpdate(updates[j]);
      j := j + 1;
    }
  }

  /** One round of the sampling loop: the loop condition, the wait, the 60 s
      cutoff and the full-FIFO check. StillSampling: the loop goes on. */
  method SampleRound(fifo: GyroFifo, polls: seq<Poll>) returns (alert: bool, reason: Reason)
    requires polls != [] && fifo.Valid()
    modifies fifo
    ensures fifo.Valid()
    ensures alert <==> reason == Alerted
    ensures reason == StillSampling ==> Loop(old(fifo.samples), polls) == Loop(fifo.samples, polls[1..])
    ensures reason != StillSampling ==> Loop(old(fifo.samples), polls) == LoopEnd(reason, fifo.samples)
  {
    alert, reason := false, StillSampling;
    if polls[0].Round? && !EndsLoop(polls[0]) {
      LiveRound(fifo.samples, polls);
    }
    match polls[0] {
      case Fault =>
        reason := LoopFault;
      case Round(connected, elapsed, updates, elapsedAfterWait) =>
        if !connected {
          reason := Disconnected;
        } else if elapsed >= BlueCoinSessionSeconds {
          reason := SessionTimeUp;
        } else {
          WaitForNotifications(fifo, updates);
          if elapsedAfterWait > NoAlertTimeoutSeconds {
            reason := NoAlertTimeout;
          } else if |fifo.samples| == FifoCapacity {
            var meanZ := MeanAbs(fifo.samples);
            if meanZ > GyroThreshold {
              alert := true;
              reason := Alerted;
            }
          }
        }
    }
  }

  /** The sampling loop of run_bluecoin_session: rounds until one of them
      ends it or the observed rounds run out. */
  method SampleLoop(fifo: GyroFifo, polls: seq<Poll>) returns (alert: bool, reason: Reason)
    requires fifo.Valid()
    modifies fifo
    ensures fifo.Valid()
    ensures alert <==> reason == Alerted
    ensures LoopEnd(reason, fifo.samples) == Loop(old(fifo.samples), polls)
  {
    ghost var start := fifo.samples;
    alert, reason := false, StillSampling;
    var i := 0;
    while i < |polls| && reason == StillSampling
      invariant 0 <= i <= |polls|
      invariant fifo.Valid()
      invariant alert <==> reason == Alerted
      invariant reason == StillSampling ==> Loop(fifo.samples, polls[i..]) == Loop(start, polls)
      invariant reason != StillSampling ==> LoopEnd(reason, fifo.samples) == Loop(start, polls)
      decreases |polls| - i
    {
      assert polls[i..][1..] == polls[i + 1..];
      alert, reason := SampleRound(fifo, polls[i..]);
      i := i + 1;
    }
  }

  /** run_bluecoin_session over the observed setup outcomes and rounds, with
      the configured tag and 1-based device index. */
  method RunSession(setup: Setup, polls: seq<Poll>, tag: Option<string>, index: int)
    returns (r: SessionResult)
    ensures r == Session(setup, polls, tag, index)
  {
    var devices := setup.devices;
    if |devices| == 0 {
      return SessionResult(false, NoDevice, [], Cleanup(false, false), false);
    }
    var dev := SelectDevice(devices, tag, index);
    if dev.None? {
      return SessionResult(false, SelectionError, [], Cleanup(false, false), true);
    }
    if !setup.connectOk || !setup.connectSeen {
      return SessionResult(false, ConnectFailed, [], Cleanup(false, setup.connectedAtExit), false);
    }
    if !setup.hasGyroscope {
      return SessionResult(false, NoGyroscope, [], Cleanup(false, true), false);
    }
    var fifo := new GyroFifo();
    var alert, reason := SampleLoop(fifo, polls);
    var cleanup := if reason == StillSampling then Cleanup(false, false)
                   else Cleanup(setup.connectedAtExit, setup.connectedAtExit);
    r := SessionResult(alert, reason, fifo.samples, cleanup, false);
  }
}
