/** Runs of the Wi-Fi reconnect protocol that show where the coarser step sizes matter. */
module WifiRuns {
  import opened WifiProtocol
  import opened WifiSafety

  /** The task evaluates its predicate, another thread disconnects and notifies, the task goes to sleep. */
  const LOST_WAKEUP: seq<Label> := [Task, SetDisconnected, NotifyDisconnected, Task]

  /** When checking and parking are two steps, a disconnect can be slept through with no notifier left. */
  lemma LostWakeup(m: Mode)
    requires !m.atomicPark
    ensures IsRun(m, Boot(), LOST_WAKEUP)
    ensures var s := Execute(Boot(), LOST_WAKEUP);
      && s.point.Parked? && s.state == Disconnected
      && s.disconnecting == 0 && s.gotIpSet == 0 && s.gotIpReset == 0
  {
    var s1 := Apply(Boot(), Task);
    ThreeSteps(m, s1, SetDisconnected, NotifyDisconnected, Task);
    OneStep(m, Boot(), Task, [SetDisconnected, NotifyDisconnected, Task]);
  }

  ghost predicate NeverSleepsThrough(m: Mode) {
    forall s: System | Reachable(m, s) && s.point.Parked? && s.state == Disconnected :: s.disconnecting > 0
  }

  /** No disconnect is slept through exactly when checking the predicate and parking are one step. */
  lemma NeverSleepsThroughIff(m: Mode)
    ensures NeverSleepsThrough(m) <==> m.atomicPark
  {
    if m.atomicPark {
      forall s: System | Reachable(m, s) && s.point.Parked? && s.state == Disconnected ensures s.disconnecting > 0 {
        NoDisconnectSleptThrough(m, s);
      }
    } else {
      LostWakeup(m);
      assert Reachable(m, Execute(Boot(), LOST_WAKEUP));
    }
  }

  lemma OneStep(m: Mode, s: System, l: Label, rest: seq<Label>)
    requires Enabled(m, s, l) && IsRun(m, Apply(s, l), rest)
    ensures IsRun(m, s, [l] + rest) && Execute(s, [l] + rest) == Execute(Apply(s, l), rest)
  {
    assert ([l] + rest)[1..] == rest;
  }

  /** Steps that begin a new announcement of a disconnect or of a connection, or wake the task unasked. */
  predicate Announces(l: Label) {
    l.SpuriousWake? || l.SetDisconnected? || l.GotIpSetState? || l.CheckFails?
  }

  /** A wake-up that was lost stays lost: the task does nothing until somebody announces something new. */
  lemma {:induction false} LostWakeupPersists(m: Mode, s: System, run: seq<Label>)
    requires s.point.Parked? && s.disconnecting == 0 && s.gotIpSet == 0 && s.gotIpReset == 0
    requires IsRun(m, s, run) && forall i | 0 <= i < |run| :: !Announces(run[i])
    ensures Execute(s, run).point.Parked? && Execute(s, run).log == s.log
    decreases run
  {
    if run == [] {
    } else {
      assert run[0] == StaStart;
      LostWakeupPersists(m, Apply(s, run[0]), run[1..]);
    }
  }

  // ----- The lost increment -----

  lemma ThreeSteps(m: Mode, s: System, a: Label, b: Label, c: Label)
    requires Enabled(m, s, a) && Enabled(m, Apply(s, a), b) && Enabled(m, Apply(Apply(s, a), b), c)
    ensures IsRun(m, s, [a, b, c]) && Execute(s, [a, b, c]) == Apply(Apply(Apply(s, a), b), c)
  {
    OneStep(m, Apply(Apply(s, a), b), c, []);
    OneStep(m, Apply(s, a), b, [c]);
    OneStep(m, s, a, [b, c]);
  }

  /** Four uninterrupted task steps. */
  const HALF_ROUND: seq<Label> := [Task, Task, Task, Task]

  lemma FourTaskSteps(m: Mode, s: System)
    requires var s1, s2, s3 := TaskStep(s), TaskStep(TaskStep(s)), TaskStep(TaskStep(TaskStep(s)));
      Enabled(m, s, Task) && Enabled(m, s1, Task) && Enabled(m, s2, Task) && Enabled(m, s3, Task)
    ensures IsRun(m, s, HALF_ROUND)
    ensures Execute(s, HALF_ROUND) == TaskStep(TaskStep(TaskStep(TaskStep(s))))
  {
    var s1, s2, s3 := TaskStep(s), TaskStep(TaskStep(s)), TaskStep(TaskStep(TaskStep(s)));
    OneStep(m, s3, Task, []);
    OneStep(m, s2, Task, [Task]);
    OneStep(m, s1, Task, [Task, Task]);
    OneStep(m, s, Task, [Task, Task, Task]);
  }

  /** From a loop head to the point where the counter has been loaded but not yet stored. */
  lemma BeginRound(m: Mode, s: System)
    requires s.point == EvalPredicate && s.state == Disconnected && s.count < MAXIMUM_RETRY
    ensures IsRun(m, s, HALF_ROUND)
    ensures Execute(s, HALF_ROUND) == s.(point := StoreCount(s.count), log := s.log + [ConnectCall])
  {
    FourTaskSteps(m, s);
  }

  /** From there to the next loop head, with the wait running out. */
  lemma FinishRound(m: Mode, s: System)
    requires s.point.StoreCount? && s.state == Disconnected
    ensures IsRun(m, s, HALF_ROUND)
    ensures Execute(s, HALF_ROUND) == s.(
              point := EvalPredicate, count := s.point.loaded + 1, backoff := NextBackoff(s.backoff),
              log := s.log + [Increment] + [TimedWait(s.backoff)] + [RoundEnd(false)])
  {
    FourTaskSteps(m, s);
  }

  lemma ConnectsAppend(log: seq<Event>, e: Event)
    ensures ConnectsSinceReset(log + [e]) ==
              if e == CounterReset then 0 else ConnectsSinceReset(log) + if e == ConnectCall then 1 else 0
    ensures e != CounterReset ==> (LastResetStraddles(log + [e]) <==> LastResetStraddles(log))
  {
    AppendEvent(log, e);
  }

  lemma ConnectsAfterFinish(log: seq<Event>, seconds: int)
    ensures var log' := log + [Increment] + [TimedWait(seconds)] + [RoundEnd(false)];
      && ConnectsSinceReset(log') == ConnectsSinceReset(log)
      && (LastResetStraddles(log') <==> LastResetStraddles(log))
  {
    ConnectsAppend(log, Increment);
    ConnectsAppend(log + [Increment], TimedWait(seconds));
    ConnectsAppend(log + [Increment] + [TimedWait(seconds)], RoundEnd(false));
  }

  lemma RoundsAppend(log: seq<Event>, e: Event)
    requires !e.CounterReset? && e != RoundEnd(true)
    ensures FailedRounds(log + [e]) == FailedRounds(log) + if e.RoundEnd? then 1 else 0
    ensures ResetSinceSeenConnected(log + [e]) <==> ResetSinceSeenConnected(log)
  {
    AppendEvent(log, e);
  }

  lemma RoundsAfterFinish(log: seq<Event>, seconds: int)
    ensures var log' := log + [ConnectCall] + [Increment] + [TimedWait(seconds)] + [RoundEnd(false)];
      && FailedRounds(log') == FailedRounds(log) + 1
      && (ResetSinceSeenConnected(log') <==> ResetSinceSeenConnected(log))
  {
    RoundsAppend(log, ConnectCall);
    RoundsAppend(log + [ConnectCall], Increment);
    RoundsAppend(log + [ConnectCall] + [Increment], TimedWait(seconds));
    RoundsAppend(log + [ConnectCall] + [Increment] + [TimedWait(seconds)], RoundEnd(false));
  }

  /** n uninterrupted rounds that end not connected. */
  lemma {:induction false} FailedRoundsRun(m: Mode, s: System, n: nat) returns (run: seq<Label>)
    requires s.point == EvalPredicate && s.state == Disconnected && 0 <= s.count && s.count + n <= MAXIMUM_RETRY
    ensures IsRun(m, s, run)
    ensures var t := Execute(s, run);
      && t.point == EvalPredicate && t.state == Disconnected && t.count == s.count + n
      && ConnectsSinceReset(t.log) == ConnectsSinceReset(s.log) + n
      && FailedRounds(t.log) == FailedRounds(s.log) + n
      && (ResetSinceSeenConnected(t.log) <==> ResetSinceSeenConnected(s.log))
      && (LastResetStraddles(t.log) <==> LastResetStraddles(s.log))
      && t.gotIpSet == s.gotIpSet
    decreases n
  {
    run := [];
    if n == 0 {
    } else {
      BeginRound(m, s);
      var h := Execute(s, HALF_ROUND);
      FinishRound(m, h);
      var t := Execute(h, HALF_ROUND);
      ConnectsAppend(s.log, ConnectCall);
      ConnectsAfterFinish(h.log, h.backoff);
      RoundsAfterFinish(s.log, h.backoff);
      var rest := FailedRoundsRun(m, t, n - 1);
      Concatenate(m, h, HALF_ROUND, rest);
      Concatenate(m, s, HALF_ROUND, HALF_ROUND + rest);
      run := HALF_ROUND + (HALF_ROUND + rest);
    }
  }

  /** A GOT_IP up to its counter reset, and a disconnect right after, before the task looks. */
  const RESET_IN_BETWEEN: seq<Label> := [GotIpSetState, GotIpReset, SetDisconnected]

  lemma ResetInBetween(m: Mode, s: System)
    requires s.point.LoadCount? || (s.point.StoreCount? && !m.atomicIncrement)
    ensures IsRun(m, s, RESET_IN_BETWEEN)
    ensures Execute(s, RESET_IN_BETWEEN) ==
              s.(state := Disconnected, count := 0, disconnecting := s.disconnecting + 1,
                 gotIpReset := s.gotIpReset + 1, log := s.log + [CounterReset])
  {
    ThreeSteps(m, s, GotIpSetState, GotIpReset, SetDisconnected);
  }

  /** The last reset before the newest entry fell between a connect call and its increment. */
  ghost predicate Straddled(s: System) {
    s.log != [] && LastResetStraddles(s.log[..|s.log| - 1])
  }

  /** The counter test has just failed, j connect calls after the last counter reset. */
  ghost predicate DecidesAfter(s: System, j: nat) {
    && s.point == CallRestart
    && s.log != [] && s.log[|s.log| - 1] == RestartDecided
    && ConnectsSinceReset(s.log[..|s.log| - 1]) == j
  }

  lemma RunIntoDecision(m: Mode, s: System) returns (run: seq<Label>)
    requires s.point == EvalPredicate && s.state == Disconnected && s.count == MAXIMUM_RETRY
    ensures IsRun(m, s, run) && DecidesAfter(Execute(s, run), ConnectsSinceReset(s.log))
    ensures Straddled(Execute(s, run)) <==> LastResetStraddles(s.log)
    ensures Execute(s, run).gotIpSet == s.gotIpSet && Execute(s, run).state == Disconnected
  {
    var s1 := Apply(s, Task);
    OneStep(m, s1, Task, []);
    OneStep(m, s, Task, [Task]);
    AppendEvent(s.log, RestartDecided);
    run := [Task, Task];
  }

  /** Failed rounds up to the maximum, and the decision. */
  lemma RoundsIntoDecision(m: Mode, s: System, n: nat) returns (run: seq<Label>)
    requires s.point == EvalPredicate && s.state == Disconnected && 0 <= s.count && s.count + n == MAXIMUM_RETRY
    ensures IsRun(m, s, run) && DecidesAfter(Execute(s, run), ConnectsSinceReset(s.log) + n)
    ensures Straddled(Execute(s, run)) <==> LastResetStraddles(s.log)
    ensures Execute(s, run).gotIpSet == s.gotIpSet && Execute(s, run).state == Disconnected
  {
    var rounds := FailedRoundsRun(m, s, n);
    var last := RunIntoDecision(m, Execute(s, rounds));
    Concatenate(m, s, rounds, last);
    run := rounds + last;
  }

  /** A reset has fallen into the round; the round ends, and j more follow up to the decision. */
  lemma DecisionAfterReset(m: Mode, s: System, j: nat) returns (run: seq<Label>)
    requires s.point == StoreCount(4 - j) && s.state == Disconnected && j <= 4
    requires ConnectsSinceReset(s.log) == 0 && LastResetStraddles(s.log)
    ensures IsRun(m, s, run) && DecidesAfter(Execute(s, run), j) && Straddled(Execute(s, run))
  {
    FinishRound(m, s);
    ConnectsAfterFinish(s.log, s.backoff);
    var last := RoundsIntoDecision(m, Execute(s, HALF_ROUND), j);
    Concatenate(m, s, HALF_ROUND, last);
    run := HALF_ROUND + last;
  }

  lemma ResetStraddles(log: seq<Event>)
    ensures ConnectsSinceReset(log + [ConnectCall] + [CounterReset]) == 0
    ensures LastResetStraddles(log + [ConnectCall] + [CounterReset])
  {
    AppendEvent(log, ConnectCall);
    AppendEvent(log + [ConnectCall], CounterReset);
  }

  /** The reset falls between load and store, and is lost. */
  lemma DecisionAfterLostReset(m: Mode, s: System, j: nat) returns (run: seq<Label>)
    requires s.point == EvalPredicate && s.state == Disconnected && s.count == 4 - j && j <= 4 && !m.atomicIncrement
    ensures IsRun(m, s, run) && DecidesAfter(Execute(s, run), j) && Straddled(Execute(s, run))
  {
    BeginRound(m, s);
    var s1 := Execute(s, HALF_ROUND);
    ResetInBetween(m, s1);
    ResetStraddles(s.log);
    var rest := DecisionAfterReset(m, Execute(s1, RESET_IN_BETWEEN), j);
    Concatenate(m, s1, RESET_IN_BETWEEN, rest);
    Concatenate(m, s, HALF_ROUND, RESET_IN_BETWEEN + rest);
    run := HALF_ROUND + (RESET_IN_BETWEEN + rest);
  }

  /**
   * With ++ as a load and a store, the reset of a GOT_IP in between is lost: for every j in 0..4 some run
   * decides to restart the device although the task made only j connect calls since that reset.
   */
  lemma LostReset(m: Mode, j: nat) returns (run: seq<Label>)
    requires !m.atomicIncrement && j <= 4
    ensures IsRun(m, Boot(), run) && DecidesAfter(Execute(Boot(), run), j) && Straddled(Execute(Boot(), run))
  {
    var start := Apply(Boot(), SetDisconnected);
    var rounds := FailedRoundsRun(m, start, 4 - j);
    var rest := DecisionAfterLostReset(m, Execute(start, rounds), j);
    Concatenate(m, start, rounds, rest);
    OneStep(m, Boot(), SetDisconnected, rounds + rest);
    run := [SetDisconnected] + (rounds + rest);
  }

  /** The reset falls between the connect call and the load: four more rounds lead to the decision, in any mode. */
  lemma EarlyReset(m: Mode) returns (run: seq<Label>)
    ensures IsRun(m, Boot(), run) && DecidesAfter(Execute(Boot(), run), 4) && Straddled(Execute(Boot(), run))
  {
    var start := Apply(Boot(), SetDisconnected);
    var s1 := Apply(Apply(Apply(start, Task), Task), Task);
    ThreeSteps(m, start, Task, Task, Task);
    assert s1 == start.(point := LoadCount, log := [] + [ConnectCall]);
    ResetInBetween(m, s1);
    var s2 := Execute(s1, RESET_IN_BETWEEN);
    ResetStraddles([]);
    var rest := DecisionAfterReset(m, Apply(s2, Task), 4);
    OneStep(m, s2, Task, rest);
    Concatenate(m, s1, RESET_IN_BETWEEN, [Task] + rest);
    Concatenate(m, start, [Task, Task, Task], RESET_IN_BETWEEN + ([Task] + rest));
    run := [Task, Task, Task] + (RESET_IN_BETWEEN + ([Task] + rest));
    OneStep(m, Boot(), SetDisconnected, run);
    run := [SetDisconnected] + run;
  }

  /** Five failed rounds and the decision. */
  lemma PlainDecision(m: Mode) returns (run: seq<Label>)
    ensures IsRun(m, Boot(), run) && DecidesAfter(Execute(Boot(), run), 5) && !Straddled(Execute(Boot(), run))
    ensures Execute(Boot(), run).gotIpSet == 0 && Execute(Boot(), run).state == Disconnected
  {
    var start := Apply(Boot(), SetDisconnected);
    run := RoundsIntoDecision(m, start, 5);
    OneStep(m, Boot(), SetDisconnected, run);
    run := [SetDisconnected] + run;
  }

  /** The connect calls since the last reset that a decision can find, by where that reset fell. */
  predicate Decisive(m: Mode, j: nat, straddled: bool) {
    if !straddled then j == 5 else if m.atomicIncrement then j == 4 else j <= 4
  }

  lemma DecisionRun(m: Mode, j: nat, straddled: bool) returns (run: seq<Label>)
    requires Decisive(m, j, straddled)
    ensures IsRun(m, Boot(), run) && DecidesAfter(Execute(Boot(), run), j)
    ensures Straddled(Execute(Boot(), run)) == straddled
  {
    if !straddled {
      run := PlainDecision(m);
    } else if m.atomicIncrement {
      run := EarlyReset(m);
    } else {
      run := LostReset(m, j);
    }
  }

  ghost predicate MayDecideAfter(m: Mode, j: nat, straddled: bool) {
    exists s: System :: Reachable(m, s) && DecidesAfter(s, j) && Straddled(s) == straddled
  }

  /**
   * Exactly how many connect calls can lie between the last reset and the failing counter test: five; or four
   * when the reset fell between a connect call and its increment; or then any number up to four, when ++ is
   * not atomic.
   */
  lemma RestartAfterIff(m: Mode, j: nat, straddled: bool)
    ensures MayDecideAfter(m, j, straddled) <==> Decisive(m, j, straddled)
  {
    if s: System :| Reachable(m, s) && DecidesAfter(s, j) && Straddled(s) == straddled {
      if m.atomicIncrement || !straddled {
        RestartJustified(m, s, |s.log| - 1);
      } else {
        StraddlingResetCostsOne(m, s, |s.log| - 1);
      }
    }
    if Decisive(m, j, straddled) {
      var run := DecisionRun(m, j, straddled);
      assert Reachable(m, Execute(Boot(), run));
    }
  }

  ghost predicate FourConnectsBeforeDecision(m: Mode) {
    forall s: System, i: nat | Reachable(m, s) && i < |s.log| && s.log[i] == RestartDecided ::
      ConnectsSinceReset(s.log[..i]) >= 4
  }

  /** At least four connect calls lie between every failing test and the last reset exactly when ++ is atomic. */
  lemma FourConnectsBeforeRestartIff(m: Mode)
    ensures FourConnectsBeforeDecision(m) <==> m.atomicIncrement
  {
    if m.atomicIncrement {
      forall s: System, i: nat | Reachable(m, s) && i < |s.log| && s.log[i] == RestartDecided
        ensures ConnectsSinceReset(s.log[..i]) >= 4
      {
        RestartJustified(m, s, i);
      }
    } else {
      var run := LostReset(m, 0);
      var s := Execute(Boot(), run);
      assert Reachable(m, s) && s.log[|s.log| - 1] == RestartDecided;
    }
  }

  // ----- From the decision to the call -----

  /** The device has just restarted, j connect calls after the last counter reset. */
  ghost predicate RestartsAfter(s: System, j: nat) {
    && s.point == Halted(Restart)
    && s.log != [] && s.log[|s.log| - 1] == RestartCall
    && ConnectsSinceReset(s.log[..|s.log| - 1]) == j
  }

  /** The last reset before the newest entry came after the decision. */
  ghost predicate Late(s: System) {
    s.log != [] && ResetSinceDecided(s.log[..|s.log| - 1])
  }

  lemma CallAtOnce(m: Mode, s: System, j: nat)
    requires DecidesAfter(s, j)
    ensures IsRun(m, s, [Task])
    ensures var t := Execute(s, [Task]); RestartsAfter(t, j) && Straddled(t) == Straddled(s) && !Late(t)
  {
    OneStep(m, s, Task, []);
    AppendEvent(s.log, RestartCall);
  }

  /** Handlers of GOT_IP that have set the state and not reset the counter yet. */
  function Handlers(n: nat): seq<Label> {
    if n == 0 then [] else [GotIpSetState] + Handlers(n - 1)
  }

  lemma {:induction false} HandlersRun(m: Mode, s: System, n: nat)
    requires s.point == CallRestart
    ensures IsRun(m, s, Handlers(n))
    ensures Execute(s, Handlers(n)) ==
              s.(state := if n == 0 then s.state else Connected, gotIpSet := s.gotIpSet + n)
    decreases n
  {
    if n == 0 {
    } else {
      HandlersRun(m, Apply(s, GotIpSetState), n - 1);
      OneStep(m, s, GotIpSetState, Handlers(n - 1));
    }
  }

  /** A handler that sets the state and resets the counter after the decision, and n that have set the state. */
  lemma CallAfterReset(m: Mode, s: System, n: nat) returns (run: seq<Label>)
    requires Reachable(m, s) && s.point == CallRestart
    ensures IsRun(m, s, run)
    ensures var t := Execute(s, run);
      && RestartsAfter(t, 0) && !Straddled(t) && Late(t) && t.state == Connected && t.gotIpSet == s.gotIpSet + n
  {
    ReachableInv(m, s);
    var s1 := Apply(s, GotIpSetState);
    var s2 := Apply(s1, GotIpReset);
    AppendEvent(s.log, CounterReset);
    HandlersRun(m, s2, n);
    var s3 := Execute(s2, Handlers(n));
    AppendEvent(s3.log, RestartCall);
    OneStep(m, s3, Task, []);
    Concatenate(m, s2, Handlers(n), [Task]);
    OneStep(m, s1, GotIpReset, Handlers(n) + [Task]);
    OneStep(m, s, GotIpSetState, [GotIpReset] + (Handlers(n) + [Task]));
    run := [GotIpSetState] + ([GotIpReset] + (Handlers(n) + [Task]));
  }

  ghost predicate MayRestartAfter(m: Mode, j: nat, straddled: bool, late: bool) {
    exists s: System :: Reachable(m, s) && RestartsAfter(s, j) && Straddled(s) == straddled && Late(s) == late
  }

  /** The same for esp_restart: as many as at the decision, or none when a reset came after it. */
  lemma RestartCallIff(m: Mode, j: nat, straddled: bool, late: bool)
    ensures MayRestartAfter(m, j, straddled, late)
            <==> if late then j == 0 && !straddled else Decisive(m, j, straddled)
  {
    if s: System :| Reachable(m, s) && RestartsAfter(s, j) && Straddled(s) == straddled && Late(s) == late {
      RestartCallJustified(m, s, |s.log| - 1);
    }
    if late && j == 0 && !straddled {
      var run := LateReconnection(m);
      assert Reachable(m, Execute(Boot(), run));
    } else if !late && Decisive(m, j, straddled) {
      var run := DecisionRun(m, j, straddled);
      CallAtOnce(m, Execute(Boot(), run), j);
      Concatenate(m, Boot(), run, [Task]);
      assert Reachable(m, Execute(Boot(), run + [Task]));
    }
  }

  // ----- A restart of a connected device -----

  /**
   * The device connects and the counter is reset just after the counter test has failed: it restarts all the
   * same, connected, with no handler under way and no connect call since the reset. No mode prevents it.
   */
  lemma LateReconnection(m: Mode) returns (run: seq<Label>)
    ensures IsRun(m, Boot(), run)
    ensures var s := Execute(Boot(), run);
      && s.point == Halted(Restart) && s.state == Connected && s.gotIpSet == 0
      && RestartsAfter(s, 0) && !Straddled(s) && Late(s)
  {
    run := PlainDecision(m);
    var s := Execute(Boot(), run);
    assert Reachable(m, s);
    var last := CallAfterReset(m, s, 0);
    Concatenate(m, Boot(), run, last);
    run := run + last;
  }

  /** Just before the counter test of the sixth round the device connects; its counter reset comes too late. */
  lemma RestartWhileConnected(m: Mode) returns (run: seq<Label>)
    ensures IsRun(m, Boot(), run)
    ensures var s := Execute(Boot(), run); s.point == Halted(Restart) && s.state == Connected && s.gotIpSet > 0
  {
    var start := Apply(Boot(), SetDisconnected);
    var rounds := FailedRoundsRun(m, start, 5);
    var s := Execute(start, rounds);
    ThreeSteps(m, s, Task, GotIpSetState, Task);
    var t := Execute(s, [Task, GotIpSetState, Task]);
    OneStep(m, t, Task, []);
    Concatenate(m, s, [Task, GotIpSetState, Task], [Task]);
    Concatenate(m, start, rounds, [Task, GotIpSetState, Task] + [Task]);
    run := rounds + ([Task, GotIpSetState, Task] + [Task]);
    OneStep(m, Boot(), SetDisconnected, run);
    run := [SetDisconnected] + run;
  }

  ghost predicate MayRestartConnected(m: Mode, handlers: nat, late: bool) {
    exists s: System ::
      && Reachable(m, s) && s.point == Halted(Restart) && s.state == Connected
      && s.gotIpSet == handlers && ResetSinceDecided(s.log) == late
  }

  /**
   * Exactly when a connected device is restarted, at any granularity: some handlers have set the state and
   * not yet the counter, or one has reset the counter since the decision.
   */
  lemma RestartConnectedIff(m: Mode, handlers: nat, late: bool)
    ensures MayRestartConnected(m, handlers, late) <==> handlers > 0 || late
  {
    if s: System :|
      && Reachable(m, s) && s.point == Halted(Restart) && s.state == Connected
      && s.gotIpSet == handlers && ResetSinceDecided(s.log) == late
    {
      ConnectedRestartNeedsHandler(m, s);
    }
    if handlers > 0 || late {
      var run := PlainDecision(m);
      var s := Execute(Boot(), run);
      assert Reachable(m, s);
      var last;
      if late {
        last := CallAfterReset(m, s, handlers);
      } else {
        last := CallConnected(m, s, handlers);
      }
      Concatenate(m, Boot(), run, last);
      assert Reachable(m, Execute(s, last));
    }
  }

  lemma CallConnected(m: Mode, s: System, n: nat) returns (run: seq<Label>)
    requires DecidesAfter(s, 5) && n > 0
    ensures IsRun(m, s, run)
    ensures var t := Execute(s, run);
      && t.point == Halted(Restart) && t.state == Connected && t.gotIpSet == s.gotIpSet + n
      && !ResetSinceDecided(t.log)
  {
    HandlersRun(m, s, n);
    var s1 := Execute(s, Handlers(n));
    OneStep(m, s1, Task, []);
    AppendEvent(s1.log, RestartCall);
    Concatenate(m, s, Handlers(n), [Task]);
    run := Handlers(n) + [Task];
  }

  // ----- The longest wait -----

  /** A reconnection too short for the task to see, and a round up to its end. */
  lemma UnseenThenRound(s: System) returns (run: seq<Label>)
    requires s.point == EvalPredicate && s.state == Disconnected
    ensures IsRun(SOURCE, s, run)
    ensures TimedWait(s.backoff) in Execute(s, run).log
  {
    ThreeSteps(SOURCE, s, GotIpSetState, GotIpReset, SetDisconnected);
    var s1 := Execute(s, RESET_IN_BETWEEN);
    BeginRound(SOURCE, s1);
    var s2 := Execute(s1, HALF_ROUND);
    FinishRound(SOURCE, s2);
    var log := Execute(s2, HALF_ROUND).log;
    assert log[|log| - 2] == TimedWait(s.backoff);
    Concatenate(SOURCE, s1, HALF_ROUND, HALF_ROUND);
    Concatenate(SOURCE, s, RESET_IN_BETWEEN, HALF_ROUND + HALF_ROUND);
    run := RESET_IN_BETWEEN + (HALF_ROUND + HALF_ROUND);
  }

  /** The longest wait does occur: after five failed rounds and a reconnection the task did not see. */
  lemma LongestWaitOccurs() returns (run: seq<Label>)
    ensures IsRun(SOURCE, Boot(), run)
    ensures TimedWait(MAXIMUM_BACKOFF) in Execute(Boot(), run).log
  {
    var start := Apply(Boot(), SetDisconnected);
    OneStep(SOURCE, Boot(), SetDisconnected, []);
    var rounds := FailedRoundsRun(SOURCE, start, 5);
    var s := Execute(start, rounds);
    OneStep(SOURCE, Boot(), SetDisconnected, rounds);
    FiveFailuresReachMaximum(s);
    var last := UnseenThenRound(s);
    Concatenate(SOURCE, start, rounds, last);
    OneStep(SOURCE, Boot(), SetDisconnected, rounds + last);
    run := [SetDisconnected] + (rounds + last);
  }

  lemma FiveFailuresReachMaximum(s: System)
    requires Reachable(SOURCE, s) && FailedRounds(s.log) == 5
    ensures s.backoff == MAXIMUM_BACKOFF
  {
    ReachableInv(SOURCE, s);
    assert Pow2(5) == 32;
  }
}
