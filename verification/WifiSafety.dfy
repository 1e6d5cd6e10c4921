/** What every interleaving of the Wi-Fi reconnect protocol keeps. */
module WifiSafety {
  import opened WifiProtocol

  function Pow2(k: nat): nat {
    if k == 0 then 1 else 2 * Pow2(k - 1)
  }

  /** The closed form of the backoff after k failed rounds in a row. */
  function BackoffAfter(k: nat): int {
    if FIRST_BACKOFF * Pow2(k) <= MAXIMUM_BACKOFF then FIRST_BACKOFF * Pow2(k) else MAXIMUM_BACKOFF
  }

  // ----- The retry counter -----

  ghost predicate CounterInv(s: System) {
    var c := ConnectsSinceReset(s.log);
    && 0 <= s.count <= MAXIMUM_RETRY
    && c <= MAXIMUM_RETRY
    && match s.point
       case CallConnect => c <= s.count < MAXIMUM_RETRY
       case LoadCount => c <= s.count + 1 && s.count < MAXIMUM_RETRY
       case StoreCount(loaded) => c <= loaded + 1 && 0 <= loaded < MAXIMUM_RETRY && s.count < MAXIMUM_RETRY
       case Halted(_) => true
       case _ => c <= s.count
  }

  lemma AppendEvent(log: seq<Event>, e: Event)
    ensures (log + [e])[..|log|] == log && (log + [e])[|log|] == e
  {
  }

  /** A step appends at most one event. */
  lemma LogGrows(s: System, l: Label)
    ensures var log' := Apply(s, l).log;
      log' == s.log || (|log'| == |s.log| + 1 && log'[..|log'| - 1] == s.log)
  {
  }

  lemma CounterStep(m: Mode, s: System, l: Label)
    requires CounterInv(s) && Enabled(m, s, l)
    ensures CounterInv(Apply(s, l))
  {
    LogGrows(s, l);
  }

  lemma {:induction false} CounterAlong(m: Mode, s: System, run: seq<Label>)
    requires CounterInv(s) && IsRun(m, s, run)
    ensures CounterInv(Execute(s, run))
    decreases run
  {
    if run == [] {
    } else {
      CounterStep(m, s, run[0]);
      CounterAlong(m, Apply(s, run[0]), run[1..]);
    }
  }

  /** At any granularity, the counter stays in 0..5 and at most 5 connect calls follow a reset. */
  lemma CounterBounded(m: Mode, s: System)
    requires Reachable(m, s)
    ensures 0 <= s.count <= MAXIMUM_RETRY
    ensures ConnectsSinceReset(s.log) <= MAXIMUM_RETRY
  {
    var run :| IsRun(m, Boot(), run) && Execute(Boot(), run) == s;
    CounterAlong(m, Boot(), run);
  }

  // ----- No disconnect is slept through -----

  ghost predicate WakeupInv(s: System) {
    && (s.point.Parking? ==> s.state != Disconnected)
    && (s.point.Parked? && s.state == Disconnected ==> s.disconnecting > 0)
  }

  lemma {:induction false} WakeupAlong(m: Mode, s: System, run: seq<Label>)
    requires m.atomicPark && WakeupInv(s) && IsRun(m, s, run)
    ensures WakeupInv(Execute(s, run))
    decreases run
  {
    if run == [] {
    } else {
      WakeupAlong(m, Apply(s, run[0]), run[1..]);
    }
  }

  /** When checking and parking are one step, a sleeper that should run always has a notifier on its way. */
  lemma NoDisconnectSleptThrough(m: Mode, s: System)
    requires m.atomicPark && Reachable(m, s)
    requires s.point.Parked? && s.state == Disconnected
    ensures s.disconnecting > 0
  {
    var run :| IsRun(m, Boot(), run) && Execute(Boot(), run) == s;
    WakeupAlong(m, Boot(), run);
  }

  // ----- What every entry of the log means -----

  /** The entry e, given everything that happened before it. */
  ghost predicate EntryJustified(m: Mode, before: seq<Event>, e: Event) {
    match e
    case ConnectCall => ConnectsSinceReset(before) < MAXIMUM_RETRY
    case TimedWait(seconds) =>
      && seconds == BackoffAfter(FailedRounds(before))
      && (seconds == MAXIMUM_BACKOFF ==> ResetSinceSeenConnected(before))
    case RestartDecided => DecisionJustified(m, before)
    case RestartCall => CallJustified(m, before)
    case _ => true
  }

  /** The failing counter test, given everything that happened before it. */
  ghost predicate DecisionJustified(m: Mode, before: seq<Event>) {
    && (m.atomicIncrement || !LastResetStraddles(before) ==>
          ConnectsSinceReset(before) == if LastResetStraddles(before) then 4 else 5)
    && (LastResetStraddles(before) ==> ConnectsSinceReset(before) <= 4)
  }

  /** esp_restart: what held at the decision, or a reset that came after it. */
  ghost predicate CallJustified(m: Mode, before: seq<Event>) {
    if ResetSinceDecided(before) then ConnectsSinceReset(before) == 0 && !LastResetStraddles(before)
    else DecisionJustified(m, before)
  }

  ghost predicate LogJustified(m: Mode, log: seq<Event>) {
    forall i | 0 <= i < |log| :: EntryJustified(m, log[..i], log[i])
  }

  lemma JustifiedAppend(m: Mode, log: seq<Event>, e: Event)
    requires LogJustified(m, log) && EntryJustified(m, log, e)
    ensures LogJustified(m, log + [e])
  {
    forall i | 0 <= i <= |log| ensures EntryJustified(m, (log + [e])[..i], (log + [e])[i]) {
      assert (log + [e])[..i] == log[..i];
    }
    assert (log + [e])[..|log|] == log;
  }

  // ----- Backoff -----

  ghost predicate BackoffInv(s: System) {
    s.backoff == BackoffAfter(FailedRounds(s.log))
  }

  lemma NextBackoffIsClosedForm(k: nat)
    ensures NextBackoff(BackoffAfter(k)) == BackoffAfter(k + 1)
    ensures k <= 4 ==> BackoffAfter(k) < MAXIMUM_BACKOFF
  {
    if k <= 4 {
      assert Pow2(0) == 1 && Pow2(1) == 2 && Pow2(2) == 4 && Pow2(3) == 8 && Pow2(4) == 16;
    }
  }

  lemma BackoffStep(m: Mode, s: System, l: Label)
    requires BackoffInv(s) && Enabled(m, s, l)
    ensures BackoffInv(Apply(s, l))
  {
    LogGrows(s, l);
    NextBackoffIsClosedForm(FailedRounds(s.log));
    assert Pow2(0) == 1;
  }

  // ----- Reconnections the task did not observe -----

  /** With no reset since the task last saw a connected round, the counter is at least the failed rounds. */
  ghost predicate UnobservedInv(s: System) {
    var k := FailedRounds(s.log);
    !ResetSinceSeenConnected(s.log) ==>
      match s.point
      case StoreCount(loaded) => k <= loaded
      case StartWait => k + 1 <= s.count
      case Waiting => k + 1 <= s.count
      case TestConnected => k + 1 <= s.count
      case Halted(_) => true
      case _ => k <= s.count
  }

  lemma UnobservedStep(m: Mode, s: System, l: Label)
    requires CounterInv(s) && UnobservedInv(s) && Enabled(m, s, l)
    ensures UnobservedInv(Apply(s, l))
  {
    LogGrows(s, l);
  }

  // ----- Restarts -----

  ghost predicate PendingInv(s: System) {
    !s.point.Halted? ==> (IncrementPending(s.log) <==> s.point.LoadCount? || s.point.StoreCount?)
  }

  /** Connect calls and increments alternate; only a straddling reset puts them out of step. */
  ghost predicate Balanced(log: seq<Event>) {
    ConnectsSinceReset(log) + (if LastResetStraddles(log) then 1 else 0)
    == IncrementsSinceReset(log) + (if IncrementPending(log) then 1 else 0)
  }

  ghost predicate RestartInv(m: Mode, s: System) {
    && PendingInv(s)
    && (!s.point.Halted? ==> Balanced(s.log))
    && CountInv(m, s)
  }

  /** Unless a reset was lost, the counter is the number of increments since the last one. */
  ghost predicate CountInv(m: Mode, s: System) {
    m.atomicIncrement || !LastResetStraddles(s.log) ==>
      && s.count == IncrementsSinceReset(s.log)
      && (s.point.StoreCount? ==> s.point.loaded == s.count)
  }

  lemma BalancedStep(m: Mode, s: System, l: Label)
    requires RestartInv(m, s) && Enabled(m, s, l)
    ensures !Apply(s, l).point.Halted? ==> Balanced(Apply(s, l).log)
  {
    LogGrows(s, l);
  }

  lemma CountTaskStep(m: Mode, s: System)
    requires RestartInv(m, s) && Enabled(m, s, Task)
    ensures CountInv(m, TaskStep(s))
  {
    LogGrows(s, Task);
  }

  lemma CountStep(m: Mode, s: System, l: Label)
    requires RestartInv(m, s) && Enabled(m, s, l)
    ensures CountInv(m, Apply(s, l))
  {
    if l == Task {
      CountTaskStep(m, s);
    } else {
      LogGrows(s, l);
    }
  }

  lemma RestartStep(m: Mode, s: System, l: Label)
    requires RestartInv(m, s) && Enabled(m, s, l)
    ensures RestartInv(m, Apply(s, l))
  {
    LogGrows(s, l);
    BalancedStep(m, s, l);
    CountStep(m, s, l);
  }

  /** However a reset is lost, the counter never falls behind the increments logged since. */
  ghost predicate IncrementInv(s: System) {
    var n := IncrementsSinceReset(s.log);
    n <= s.count && (s.point.StoreCount? ==> n <= s.point.loaded)
  }

  lemma IncrementStep(m: Mode, s: System, l: Label)
    requires CounterInv(s) && IncrementInv(s) && Enabled(m, s, l)
    ensures IncrementInv(Apply(s, l))
  {
    LogGrows(s, l);
  }

  /** Once the restart is decided only resets are logged before the call. */
  ghost predicate DecidedInv(m: Mode, s: System) {
    s.point.CallRestart? ==> CallJustified(m, s.log)
  }

  lemma DecidedStep(m: Mode, s: System, l: Label)
    requires CounterInv(s) && RestartInv(m, s) && IncrementInv(s) && DecidedInv(m, s) && Enabled(m, s, l)
    ensures DecidedInv(m, Apply(s, l))
  {
    LogGrows(s, l);
  }

  // ----- Together -----

  ghost predicate Inv(m: Mode, s: System) {
    && CounterInv(s) && BackoffInv(s) && UnobservedInv(s) && RestartInv(m, s) && IncrementInv(s) && DecidedInv(m, s)
    && LogJustified(m, s.log)
  }

  lemma JustifiedStep(m: Mode, s: System, l: Label)
    requires Inv(m, s) && Enabled(m, s, l)
    ensures LogJustified(m, Apply(s, l).log)
  {
    if l == Task || l == ConnectError || l == GotIpReset {
      NextBackoffIsClosedForm(FailedRounds(s.log));
      var log' := Apply(s, l).log;
      if log' != s.log {
        var e := log'[|log'| - 1];
        assert log' == s.log + [e];
        assert EntryJustified(m, s.log, e);
        JustifiedAppend(m, s.log, e);
      }
    }
  }

  lemma {:induction false} InvAlong(m: Mode, s: System, run: seq<Label>)
    requires Inv(m, s) && IsRun(m, s, run)
    ensures Inv(m, Execute(s, run))
    decreases run
  {
    if run == [] {
    } else {
      CounterStep(m, s, run[0]);
      BackoffStep(m, s, run[0]);
      UnobservedStep(m, s, run[0]);
      RestartStep(m, s, run[0]);
      IncrementStep(m, s, run[0]);
      DecidedStep(m, s, run[0]);
      JustifiedStep(m, s, run[0]);
      InvAlong(m, Apply(s, run[0]), run[1..]);
    }
  }

  lemma ReachableInv(m: Mode, s: System)
    requires Reachable(m, s)
    ensures Inv(m, s)
  {
    var run :| IsRun(m, Boot(), run) && Execute(Boot(), run) == s;
    InvAlong(m, Boot(), run);
  }

  /** Every timed wait lasts min(10 * 2^k, 300) seconds after k failed rounds in a row. */
  lemma BackoffClosedForm(m: Mode, s: System, i: nat)
    requires Reachable(m, s) && i < |s.log| && s.log[i].TimedWait?
    ensures s.log[i].seconds == BackoffAfter(FailedRounds(s.log[..i]))
  {
    ReachableInv(m, s);
    assert EntryJustified(m, s.log[..i], s.log[i]);
  }

  /** The longest wait is only ever reached through a reconnection the task did not observe. */
  lemma LongestWaitNeedsUnobservedReset(m: Mode, s: System, i: nat)
    requires Reachable(m, s) && i < |s.log| && s.log[i] == TimedWait(MAXIMUM_BACKOFF)
    ensures ResetSinceSeenConnected(s.log[..i])
  {
    ReachableInv(m, s);
    assert EntryJustified(m, s.log[..i], s.log[i]);
  }

  /**
   * The restart is decided exactly five connect calls after the last counter reset, or, when that reset
   * fell between a connect call and its increment, exactly four if the increment is atomic.
   */
  lemma RestartJustified(m: Mode, s: System, i: nat)
    requires Reachable(m, s) && i < |s.log| && s.log[i] == RestartDecided
    requires m.atomicIncrement || !LastResetStraddles(s.log[..i])
    ensures ConnectsSinceReset(s.log[..i]) == if LastResetStraddles(s.log[..i]) then 4 else 5
  {
    ReachableInv(m, s);
    assert EntryJustified(m, s.log[..i], s.log[i]);
  }

  /** At any granularity, fewer than five connect calls follow a reset that fell between connect and increment. */
  lemma StraddlingResetCostsOne(m: Mode, s: System, i: nat)
    requires Reachable(m, s) && i < |s.log| && s.log[i] == RestartDecided && LastResetStraddles(s.log[..i])
    ensures ConnectsSinceReset(s.log[..i]) <= 4
  {
    ReachableInv(m, s);
    assert EntryJustified(m, s.log[..i], s.log[i]);
  }

  /** The call itself finds what the decision found, or a reset that has come since. */
  lemma RestartCallJustified(m: Mode, s: System, i: nat)
    requires Reachable(m, s) && i < |s.log| && s.log[i] == RestartCall
    ensures CallJustified(m, s.log[..i])
  {
    ReachableInv(m, s);
    assert EntryJustified(m, s.log[..i], s.log[i]);
  }

  // ----- Restarts of a connected device -----

  /** The failing test sees a connected device only while a GOT_IP handler has yet to reset the counter. */
  ghost predicate CaughtInv(s: System) {
    s.state == Connected ==>
      match s.point
      case TestCount => s.gotIpSet > 0 || s.count == 0
      case CallRestart => s.gotIpSet > 0 || ResetSinceDecided(s.log)
      case Halted(cause) => cause == Restart ==> s.gotIpSet > 0 || ResetSinceDecided(s.log)
      case _ => true
  }

  lemma CaughtStep(m: Mode, s: System, l: Label)
    requires CounterInv(s) && CaughtInv(s) && Enabled(m, s, l)
    ensures CaughtInv(Apply(s, l))
  {
    LogGrows(s, l);
  }

  lemma {:induction false} CaughtAlong(m: Mode, s: System, run: seq<Label>)
    requires CounterInv(s) && CaughtInv(s) && IsRun(m, s, run)
    ensures CaughtInv(Execute(s, run))
    decreases run
  {
    if run == [] {
    } else {
      CounterStep(m, s, run[0]);
      CaughtStep(m, s, run[0]);
      CaughtAlong(m, Apply(s, run[0]), run[1..]);
    }
  }

  /** The counter test fails on a connected device only between a handler's setState and its counter reset. */
  lemma ConnectedDecisionNeedsHandler(m: Mode, s: System)
    requires Reachable(m, s) && s.state == Connected && s.point == TestCount && s.count >= MAXIMUM_RETRY
    ensures s.gotIpSet > 0
  {
    var run :| IsRun(m, Boot(), run) && Execute(Boot(), run) == s;
    CaughtAlong(m, Boot(), run);
  }

  /** A connected device is restarted only in that window, or when a reset has come since the decision. */
  lemma ConnectedRestartNeedsHandler(m: Mode, s: System)
    requires Reachable(m, s) && s.state == Connected && s.point == Halted(Restart)
    ensures s.gotIpSet > 0 || ResetSinceDecided(s.log)
  {
    var run :| IsRun(m, Boot(), run) && Execute(Boot(), run) == s;
    CaughtAlong(m, Boot(), run);
  }
}
