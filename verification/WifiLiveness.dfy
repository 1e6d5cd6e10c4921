/** How the Wi-Fi reconnect protocol ends when no reconnection comes to its rescue. */
module WifiLiveness {
  import opened WifiProtocol
  import opened WifiSafety

  // ----- From a disconnect to the restart -----

  /** Steps that neither announce a connection, nor restart the station, nor fail. */
  predicate Quiet(l: Label) {
    l.Task? || l.SpuriousWake? || l.SetDisconnected? || l.NotifyDisconnected? || l.GotIpNotify?
  }

  predicate AllQuiet(run: seq<Label>) {
    forall i | 0 <= i < |run| :: Quiet(run[i])
  }

  function TaskSteps(run: seq<Label>): nat {
    if run == [] then 0 else (if run[0] == Task then 1 else 0) + TaskSteps(run[1..])
  }

  /** Disconnected, and nothing under way that could clear the counter or change the state. */
  ghost predicate Doomed(s: System) {
    && s.state == Disconnected && s.gotIpSet == 0
    && 0 <= s.count <= MAXIMUM_RETRY
    && match s.point
       case Parking => false
       case Parked => false
       case CallConnect => s.count < MAXIMUM_RETRY
       case LoadCount => s.count < MAXIMUM_RETRY
       case StoreCount(loaded) => loaded == s.count < MAXIMUM_RETRY
       case CallRestart => s.count == MAXIMUM_RETRY
       case Halted(cause) => cause == Restart
       case _ => true
  }

  /** The task's remaining steps: the pair (rounds left, point in the round), flattened. */
  function StepsLeft(s: System): int {
    var roundsLeft := 8 * (MAXIMUM_RETRY - s.count);
    match s.point
    case EvalPredicate => roundsLeft + 3
    case TestCount => roundsLeft + 2
    case CallConnect => roundsLeft + 1
    case LoadCount => roundsLeft
    case StoreCount(_) => roundsLeft - 1
    case StartWait => roundsLeft + 6
    case Waiting => roundsLeft + 5
    case TestConnected => roundsLeft + 4
    case CallRestart => 1
    case _ => 0
  }

  /** Connect calls still to come. */
  function ConnectsLeft(s: System): int {
    match s.point
    case LoadCount => MAXIMUM_RETRY - s.count - 1
    case StoreCount(_) => MAXIMUM_RETRY - s.count - 1
    case Halted(_) => 0
    case _ => MAXIMUM_RETRY - s.count
  }

  lemma DoomedStep(m: Mode, s: System, l: Label)
    requires Doomed(s) && Enabled(m, s, l) && Quiet(l)
    ensures Doomed(Apply(s, l))
    ensures StepsLeft(Apply(s, l)) == StepsLeft(s) - if l == Task then 1 else 0
    ensures TotalConnects(Apply(s, l).log) + ConnectsLeft(Apply(s, l)) == TotalConnects(s.log) + ConnectsLeft(s)
  {
    LogGrows(s, l);
  }

  lemma {:induction false} DoomedAlong(m: Mode, s: System, run: seq<Label>)
    requires Doomed(s) && IsRun(m, s, run) && AllQuiet(run)
    ensures Doomed(Execute(s, run))
    ensures StepsLeft(Execute(s, run)) == StepsLeft(s) - TaskSteps(run)
    ensures TotalConnects(Execute(s, run).log) + ConnectsLeft(Execute(s, run)) == TotalConnects(s.log) + ConnectsLeft(s)
    decreases run
  {
    if run == [] {
    } else {
      DoomedStep(m, s, run[0]);
      DoomedAlong(m, Apply(s, run[0]), run[1..]);
    }
  }

  /**
   * From any reachable loop head that is disconnected with no counter reset under way, a run with no
   * further GOT_IP, STA_START or connect error restarts the device exactly when the task has been given
   * 8 * (5 - count) + 3 steps, after exactly 5 - count more connect calls; until then the task is never
   * blocked. The other threads cannot stretch or shorten this, at any granularity.
   */
  lemma DisconnectEndsInRestart(m: Mode, s: System, run: seq<Label>)
    requires Reachable(m, s)
    requires s.point == EvalPredicate && s.state == Disconnected && s.gotIpSet == 0
    requires IsRun(m, s, run) && AllQuiet(run)
    ensures TaskSteps(run) <= 8 * (MAXIMUM_RETRY - s.count) + 3
    ensures Execute(s, run).point == Halted(Restart) <==> TaskSteps(run) == 8 * (MAXIMUM_RETRY - s.count) + 3
    ensures Execute(s, run).point == Halted(Restart) ==>
              TotalConnects(Execute(s, run).log) - TotalConnects(s.log) == MAXIMUM_RETRY - s.count
    ensures TotalConnects(Execute(s, run).log) - TotalConnects(s.log) <= MAXIMUM_RETRY - s.count
    ensures Execute(s, run).point != Halted(Restart) ==> Enabled(m, Execute(s, run), Task)
  {
    CounterBounded(m, s);
    DoomedAlong(m, s, run);
    assert Doomed(Execute(s, run));
  }

  /** Where the task is doomed, or a check has already failed. */
  ghost predicate Ending(s: System) {
    Doomed(s) || s.point == Halted(FailedCheck)
  }

  /** Quiet steps, and checks that fail, the task's own or another thread's. */
  predicate Failing(l: Label) {
    Quiet(l) || l.ConnectError? || l.CheckFails?
  }

  /** The task's own steps, a failing connect call included. */
  function OwnSteps(run: seq<Label>): nat {
    if run == [] then 0 else (if run[0] == Task || run[0] == ConnectError then 1 else 0) + OwnSteps(run[1..])
  }

  lemma EndingStep(m: Mode, s: System, l: Label)
    requires Doomed(s) && Enabled(m, s, l) && Failing(l)
    ensures StepsLeft(s) >= 1 && Ending(Apply(s, l))
    ensures Doomed(Apply(s, l)) ==> StepsLeft(Apply(s, l)) == StepsLeft(s) - if l == Task then 1 else 0
    ensures Doomed(Apply(s, l)) ==> Quiet(l)
  {
    if Quiet(l) {
      DoomedStep(m, s, l);
    }
  }

  lemma {:induction false} EndingAlong(m: Mode, s: System, run: seq<Label>)
    requires Ending(s) && IsRun(m, s, run) && forall i | 0 <= i < |run| :: Failing(run[i])
    ensures var t := Execute(s, run);
      && Ending(t)
      && (Doomed(s) ==> OwnSteps(run) <= StepsLeft(s))
      && (Doomed(t) ==> Doomed(s) && OwnSteps(run) == StepsLeft(s) - StepsLeft(t))
    decreases run
  {
    if run == [] {
    } else {
      EndingStep(m, s, run[0]);
      EndingAlong(m, Apply(s, run[0]), run[1..]);
    }
  }

  /**
   * If connect calls and other checks may fail as well, the device still stops, by a failed check or by the
   * restart, at the latest when the task has been given as many steps as without failures.
   */
  lemma DisconnectEndsAnyway(m: Mode, s: System, run: seq<Label>)
    requires Reachable(m, s)
    requires s.point == EvalPredicate && s.state == Disconnected && s.gotIpSet == 0
    requires IsRun(m, s, run) && forall i | 0 <= i < |run| :: Failing(run[i])
    ensures OwnSteps(run) <= 8 * (MAXIMUM_RETRY - s.count) + 3
    ensures OwnSteps(run) == 8 * (MAXIMUM_RETRY - s.count) + 3 ==> Execute(s, run).point.Halted?
    ensures !Execute(s, run).point.Halted? ==> Enabled(m, Execute(s, run), Task)
  {
    CounterBounded(m, s);
    EndingAlong(m, s, run);
    if !Execute(s, run).point.Halted? {
      PositiveUntilHalted(Execute(s, run));
    }
  }

  lemma PositiveUntilHalted(s: System)
    requires Ending(s) && !s.point.Halted?
    ensures StepsLeft(s) >= 1
  {
  }

  // ----- From boot, when no address is ever obtained -----

  predicate NoGotIp(run: seq<Label>) {
    forall i | 0 <= i < |run| :: run[i] != GotIpSetState
  }

  const STARTUP_WAITS := [10, 20, 40, 80, 160]
  const STARTUP_BACKOFFS := [10, 20, 40, 80, 160, 300]

  ghost predicate StartupInv(s: System) {
    var n := |Waits(s.log)|;
    && s.state != Connected && s.gotIpSet == 0 && s.gotIpReset == 0
    && n <= 5 && Waits(s.log) == STARTUP_WAITS[..n]
    && match s.point
       case StoreCount(loaded) => n == s.count == loaded && n < 5 && s.backoff == STARTUP_BACKOFFS[n]
       case CallConnect => n == s.count && n < 5 && s.backoff == STARTUP_BACKOFFS[n]
       case LoadCount => n == s.count && n < 5 && s.backoff == STARTUP_BACKOFFS[n]
       case StartWait => n < 5 && s.count == n + 1 && s.backoff == STARTUP_BACKOFFS[n]
       case Waiting => 0 < n == s.count && s.backoff == STARTUP_BACKOFFS[n - 1]
       case TestConnected => 0 < n == s.count && s.backoff == STARTUP_BACKOFFS[n - 1]
       case CallRestart => n == 5
       case Halted(cause) => cause == Restart ==> n == 5
       case _ => n == s.count && s.backoff == STARTUP_BACKOFFS[n]
  }

  lemma StartupStep(m: Mode, s: System, l: Label)
    requires StartupInv(s) && Enabled(m, s, l) && l != GotIpSetState
    ensures StartupInv(Apply(s, l))
  {
    LogGrows(s, l);
  }

  lemma {:induction false} StartupAlong(m: Mode, s: System, run: seq<Label>)
    requires StartupInv(s) && IsRun(m, s, run) && NoGotIp(run)
    ensures StartupInv(Execute(s, run))
    decreases run
  {
    if run == [] {
    } else {
      StartupStep(m, s, run[0]);
      StartupAlong(m, Apply(s, run[0]), run[1..]);
    }
  }

  lemma StartupWaitsSum(n: nat)
    requires n <= 5
    ensures Sum(STARTUP_WAITS[..n]) == 10 * (Pow2(n) - 1) <= 310
  {
    if n == 0 {
    } else {
      StartupWaitsSum(n - 1);
      assert STARTUP_WAITS[..n][..n - 1] == STARTUP_WAITS[..n - 1];
      assert Pow2(0) == 1 && Pow2(1) == 2 && Pow2(2) == 4 && Pow2(3) == 8 && Pow2(4) == 16;
    }
  }

  /**
   * With no GOT_IP since boot the timed waits are a prefix of 10, 20, 40, 80, 160: at most 310 seconds,
   * and all five of them before a restart for lack of connection.
   */
  lemma StartupWaitsBounded(m: Mode, run: seq<Label>)
    requires IsRun(m, Boot(), run) && NoGotIp(run)
    ensures var waits := Waits(Execute(Boot(), run).log);
      && |waits| <= 5 && waits == STARTUP_WAITS[..|waits|]
      && Sum(waits) == 10 * (Pow2(|waits|) - 1) <= 310
      && (Execute(Boot(), run).point == Halted(Restart) ==> waits == STARTUP_WAITS)
  {
    StartupAlong(m, Boot(), run);
    StartupWaitsSum(|Waits(Execute(Boot(), run).log)|);
  }
}
