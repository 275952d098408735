/** The yawn accumulator of main.py: debounced acceptance of classifier
    results, the bounded window of yawn timestamps, the warning and the
    start of a BlueCoin session. */
module YawnMonitor {
  import opened Config
  import opened Deque

  /** Classifier label and confidence bound that make a result a yawn. */
  const YawnLabel: string := "yawn"
  const MinConfidence: real := 0.6

  /** `maxlen` of the global yawn_events deque. */
  const EventCapacity: nat := YawnThreshold * 8

  predicate IsYawn(classLabel: string, conf: real) {
    classLabel == YawnLabel && conf > MinConfidence
  }

  predicate Debounced(now: real, lastYawnTime: real) {
    now - lastYawnTime >= YawnDebounceSeconds
  }

  /** The condition under which a classifier result is recorded as a yawn. */
  predicate Accepts(classLabel: string, conf: real, now: real, lastYawnTime: real) {
    IsYawn(classLabel, conf) && Debounced(now, lastYawnTime)
  }

  /** A timestamp that has left the window at time `now` (strictly older than the window). */
  predicate Stale(t: real, now: real) {
    now - t > YawnWindowSeconds
  }

  predicate Sorted(s: seq<real>) {
    forall i, j :: 0 <= i < j < |s| ==> s[i] <= s[j]
  }

  /** Any two recorded yawns are at least the debounce interval apart. */
  predicate Spaced(s: seq<real>) {
    forall i, j :: 0 <= i < j < |s| ==> s[j] - s[i] >= YawnDebounceSeconds
  }

  /** What the window keeps true between calls: spaced, and no entry later
      than the last accepted yawn. */
  predicate Consistent(s: seq<real>, lastYawnTime: real) {
    Spaced(s) && forall i :: 0 <= i < |s| ==> s[i] <= lastYawnTime
  }

  /** The window after evicting stale entries from the front. */
  function Pruned(s: seq<real>, now: real): (r: seq<real>)
    ensures |r| <= |s| && r == s[|s| - |r|..]
    ensures r == [] || !Stale(r[0], now)
    ensures forall i :: 0 <= i < |s| - |r| ==> Stale(s[i], now)
    decreases |s|
  {
    if s != [] && Stale(s[0], now) then Pruned(s[1..], now) else s
  }

  /** Reference definition: the entries of `s` still inside the window, in order. */
  function Recent(s: seq<real>, now: real): (r: seq<real>)
    ensures forall t :: t in r <==> t in s && !Stale(t, now)
    decreases |s|
  {
    if s == [] then []
    else (if Stale(s[0], now) then [] else [s[0]]) + Recent(s[1..], now)
  }

  /** Timestamps recorded for a yawn are strictly increasing. */
  lemma SpacedIsIncreasing(s: seq<real>)
    requires Spaced(s)
    ensures Sorted(s)
    ensures forall i, j :: 0 <= i < j < |s| ==> s[i] < s[j]
  {
  }

  lemma SuffixConsistent(s: seq<real>, lastYawnTime: real, d: nat)
    requires d <= |s| && Consistent(s, lastYawnTime)
    ensures Consistent(s[d..], lastYawnTime)
  {
    var r := s[d..];
    forall i, j | 0 <= i < j < |r| ensures r[j] - r[i] >= YawnDebounceSeconds {
      assert r[i] == s[d + i] && r[j] == s[d + j];
    }
  }

  /** In a time-ordered window everything after a fresh entry is fresh. */
  lemma FreshAfter(s: seq<real>, now: real, m: nat)
    requires Sorted(s) && m < |s| && !Stale(s[m], now)
    ensures forall i :: m <= i < |s| ==> !Stale(s[i], now)
  {
  }

  /** After pruning a time-ordered window every entry is at most the window old;
      an entry exactly the window old is kept. */
  lemma PrunedKeepsOnlyRecent(s: seq<real>, now: real)
    requires Sorted(s)
    ensures forall t :: t in Pruned(s, now) ==> now - t <= YawnWindowSeconds
    ensures s != [] && now - s[0] == YawnWindowSeconds ==> Pruned(s, now) == s
  {
    var r := Pruned(s, now);
    var m := |s| - |r|;
    if r != [] {
      assert r[0] == s[m];
      FreshAfter(s, now, m);
      forall t | t in r ensures now - t <= YawnWindowSeconds {
        var i :| 0 <= i < |r| && r[i] == t;
        assert r[i] == s[m + i];
      }
    }
  }

  /** Pruning twice at the same time is pruning once. */
  lemma PruneIdempotent(s: seq<real>, now: real)
    ensures Pruned(Pruned(s, now), now) == Pruned(s, now)
  {
  }

  /** A window all of whose entries are fresh is its own recent part. */
  lemma {:induction false} RecentOfFresh(s: seq<real>, now: real)
    requires forall i :: 0 <= i < |s| ==> !Stale(s[i], now)
    ensures Recent(s, now) == s
    decreases |s|
  {
    if s != [] {
      RecentOfFresh(s[1..], now);
    }
  }

  /** On a time-ordered window, front eviction keeps exactly the entries inside
      the window: the count after pruning is the number of recent yawns. */
  lemma {:induction false} PrunedIsRecent(s: seq<real>, now: real)
    requires Sorted(s)
    ensures Pruned(s, now) == Recent(s, now)
    decreases |s|
  {
    if s != [] {
      if Stale(s[0], now) {
        PrunedIsRecent(s[1..], now);
      } else {
        FreshAfter(s, now, 0);
        RecentOfFresh(s[1..], now);
      }
    }
  }

  /** Pruning yields the suffix after the stale prefix, wherever that prefix ends. */
  lemma PrunedAt(u: seq<real>, now: real, m: nat)
    requires m <= |u|
    requires forall i :: 0 <= i < m ==> Stale(u[i], now)
    requires m < |u| ==> !Stale(u[m], now)
    ensures Pruned(u, now) == u[m..]
  {
  }

  /** Pruning a time-ordered window splits it into a stale prefix and a fresh rest. */
  lemma PrunedSplits(t: seq<real>, now: real)
    requires Sorted(t)
    ensures forall i :: 0 <= i < |t| - |Pruned(t, now)| ==> Stale(t[i], now)
    ensures forall i :: |t| - |Pruned(t, now)| <= i < |t| ==> !Stale(t[i], now)
  {
    var m := |t| - |Pruned(t, now)|;
    if m < |t| {
      assert Pruned(t, now)[0] == t[m];
      FreshAfter(t, now, m);
    }
  }

  /** The newest `c` entries of a window split at `m` into stale and fresh
      entries keep min(|t| - m, c) entries after pruning. */
  lemma KeepOfSplit(t: seq<real>, now: real, m: nat, c: nat)
    requires m <= |t|
    requires forall i :: 0 <= i < m ==> Stale(t[i], now)
    requires forall i :: m <= i < |t| ==> !Stale(t[i], now)
    ensures |Pruned(Keep(t, c), now)| == if |t| - m <= c then |t| - m else c
  {
    if |t| - |Keep(t, c)| >= m {
      KeepSkipsStale(t, now, m, c);
    } else {
      KeepCutsStale(t, now, m, c);
    }
  }

  /** When eviction has already dropped the whole stale prefix, pruning the
      kept entries drops nothing. */
  lemma KeepSkipsStale(t: seq<real>, now: real, m: nat, c: nat)
    requires m <= |t| - |Keep(t, c)|
    requires forall i :: m <= i < |t| ==> !Stale(t[i], now)
    ensures Pruned(Keep(t, c), now) == Keep(t, c)
  {
    var u := Keep(t, c);
    if u != [] {
      assert u[0] == t[|t| - |u|];
    }
    PrunedAt(u, now, 0);
  }

  /** When the kept entries still start inside the stale prefix, pruning them
      leaves exactly the fresh rest. */
  lemma KeepCutsStale(t: seq<real>, now: real, m: nat, c: nat)
    requires m <= |t| && |t| - |Keep(t, c)| < m
    requires forall i :: 0 <= i < m ==> Stale(t[i], now)
    requires forall i :: m <= i < |t| ==> !Stale(t[i], now)
    ensures |Pruned(Keep(t, c), now)| == |t| - m
  {
    var u := Keep(t, c);
    var d := |t| - |u|;
    forall i | 0 <= i < m - d ensures Stale(u[i], now) {
      assert u[i] == t[d + i];
    }
    if m < |t| {
      assert u[m - d] == t[m];
    }
    PrunedAt(u, now, m - d);
  }

  /** Bounding the deque only caps the count: keeping the newest `c` entries of
      a time-ordered window leaves min(recent count, c) entries after pruning. */
  lemma EvictionOnlyCapsCount(t: seq<real>, now: real, c: nat)
    requires Sorted(t)
    ensures |Pruned(Keep(t, c), now)| == if |Pruned(t, now)| <= c then |Pruned(t, now)| else c
  {
    PrunedSplits(t, now);
    KeepOfSplit(t, now, |t| - |Pruned(t, now)|, c);
  }

  /** With the configured thresholds, dropping the oldest entry of a full deque
      never changes whether the warning fires or a session may start. */
  lemma EvictionKeepsDecisions(s: seq<real>, x: real, now: real)
    requires Sorted(s + [x])
    ensures |Pruned(Push(s, x, EventCapacity), now)| >= YawnThreshold
            <==> |Pruned(s + [x], now)| >= YawnThreshold
    ensures |Pruned(Push(s, x, EventCapacity), now)| >= YawnWarningCount
            <==> |Pruned(s + [x], now)| >= YawnWarningCount
  {
    EvictionOnlyCapsCount(s + [x], now, EventCapacity);
  }

  /** Recording an accepted yawn keeps the window consistent with the new
      last-yawn time: the deque stays strictly increasing. */
  lemma AcceptKeepsConsistent(s: seq<real>, lastYawnTime: real, now: real)
    requires Consistent(s, lastYawnTime) && Debounced(now, lastYawnTime)
    ensures Consistent(Push(s, now, EventCapacity), now)
  {
    var t := s + [now];
    forall i, j | 0 <= i < j < |t| ensures t[j] - t[i] >= YawnDebounceSeconds {
      if j < |s| {
        assert t[i] == s[i] && t[j] == s[j];
      } else {
        assert t[i] == s[i] <= lastYawnTime;
      }
    }
    assert Consistent(t, now);
    SuffixConsistent(t, now, |t| - |Push(s, now, EventCapacity)|);
  }

  /** Pruning keeps the window consistent. */
  lemma PruneKeepsConsistent(s: seq<real>, lastYawnTime: real, now: real)
    requires Consistent(s, lastYawnTime)
    ensures Consistent(Pruned(s, now), lastYawnTime)
  {
    SuffixConsistent(s, lastYawnTime, |s| - |Pruned(s, now)|);
  }

  /** The process-wide yawn state of main.py: the yawn_events deque, the
      last_yawn_time debounce reference and the bluecoin_active flag. */
  class YawnTracker {
    var events: seq<real>
    var lastYawnTime: real
    var active: bool

    ghost predicate Valid()
      reads this
    {
      |events| <= EventCapacity && Consistent(events, lastYawnTime)
    }

    /** The state at start-up: empty deque, last_yawn_time = 0.0, flag clear. */
    constructor ()
      ensures Valid()
      ensures events == [] && lastYawnTime == 0.0 && !active
    {
      events := [];
      lastYawnTime := 0.0;
      active := false;
    }

    /** Evict from the front every entry older than the window at `now`. */
    method Prune(now: real)
      requires Valid()
      modifies this`events
      ensures Valid()
      ensures events == Pruned(old(events), now)
    {
      while events != [] && Stale(events[0], now)
        invariant Valid()
        invariant Pruned(events, now) == Pruned(old(events), now)
        decreases |events|
      {
        PruneKeepsConsistent(events, lastYawnTime, now);
        events := events[1..];
      }
    }

    /** _check_yawn_state: prune at `now`, then warn on every evaluation with
        at least YawnWarningCount yawns, and start a session when at least
        YawnThreshold yawns are in the window and none is running. */
    method Check(now: real) returns (warned: bool, started: bool)
      requires Valid()
      modifies this`events, this`active
      ensures Valid()
      ensures events == Pruned(old(events), now)
      ensures warned <==> |events| >= YawnWarningCount
      ensures started <==> |events| >= YawnThreshold && !old(active)
      ensures active == (old(active) || started)
      ensures old(active) ==> !started
    {
      Prune(now);
      var count := |events|;
      warned := count >= YawnWarningCount;
      started := false;
      if count >= YawnThreshold && !active {
        active := true;
        started := true;
      }
    }

    /** Record an accepted yawn: `yawn_events.append(now)` on the bounded
        deque, and `last_yawn_time = now`. */
    method Record(now: real)
      requires Valid() && Debounced(now, lastYawnTime)
      modifies this`events, this`lastYawnTime
      ensures Valid()
      ensures events == Push(old(events), now, EventCapacity) && lastYawnTime == now
    {
      AcceptKeepsConsistent(events, lastYawnTime, now);
      ghost var pushed := Push(events, now, EventCapacity);
      lastYawnTime := now;
      if |events| == EventCapacity {
        events := events[1..];
      }
      events := events + [now];
      assert events == pushed;
    }

    /** One classifier result in the main loop. `now` is the clock read when
        the result is a yawn, `checkNow` the clock read by the state check. */
    method OnDetection(classLabel: string, conf: real, now: real, checkNow: real)
      returns (accepted: bool, warned: bool, started: bool)
      requires Valid()
      modifies this`events, this`lastYawnTime, this`active
      ensures Valid()
      ensures accepted <==> Accepts(classLabel, conf, now, old(lastYawnTime))
      ensures accepted ==>
        lastYawnTime == now &&
        events == Pruned(Push(old(events), now, EventCapacity), checkNow) &&
        (warned <==> |events| >= YawnWarningCount) &&
        (started <==> |events| >= YawnThreshold && !old(active)) &&
        active == (old(active) || started)
      ensures !accepted ==>
        events == old(events) && lastYawnTime == old(lastYawnTime) &&
        active == old(active) && !warned && !started
    {
      accepted := Accepts(classLabel, conf, now, lastYawnTime);
      warned, started := false, false;
      if accepted {
        ghost var pushed := Push(events, now, EventCapacity);
        Record(now);
        assert events == pushed;
        warned, started := Check(checkNow);
        assert events == Pruned(pushed, checkNow) && lastYawnTime == now;
      }
    }

    /** _bluecoin_runner's `finally`: the flag is cleared once the session
        function returns or raises, whatever its outcome. Nothing else is reset. */
    method SessionDone()
      requires Valid()
      modifies this`active
      ensures Valid() && !active
    {
      active := false;
    }
  }

  /** The first yawn after start-up (clock past 3 s) is accepted and recorded. */
  method FirstYawnScenario() {
    var m := new YawnTracker();
    assert Push([], 100.0, EventCapacity) == [100.0];
    assert Pruned([100.0], 100.0) == [100.0];
    var a, w, s := m.OnDetection("yawn", 0.9, 100.0, 100.0);
    assert a && !w && !s && m.events == [100.0];
  }

  /** A yawn one second after an accepted one is ignored and changes nothing. */
  method DebounceScenario() {
    var m := new YawnTracker();
    m.events, m.lastYawnTime := [100.0], 100.0;
    var a, w, s := m.OnDetection("yawn", 0.9, 101.0, 101.0);
    assert !a && !w && !s && m.events == [100.0] && m.lastYawnTime == 100.0;
  }

  /** With yawns at 100 s and 104 s already recorded, a third at 108 s reaches
      the threshold: the session starts and the flag is set, without a warning. */
  method EscalationScenario() {
    var m := new YawnTracker();
    m.events, m.lastYawnTime := [100.0, 104.0], 104.0;
    assert m.Valid();
    assert Push([100.0, 104.0], 108.0, EventCapacity) == [100.0, 104.0, 108.0];
    PrunedAt([100.0, 104.0, 108.0], 108.0, 0);
    var a, w, s := m.OnDetection("yawn", 0.9, 108.0, 108.0);
    assert a && !w && s && m.active;
  }
}
