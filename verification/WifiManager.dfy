/** What a schedule of the threads makes of the Wi-Fi reconnect protocol. */
module WifiSchedules {
  import opened WifiProtocol

  /** The other threads' steps just before the task's next one, and whether that one's connect call fails. */
  datatype Turn = Turn(others: seq<Label>, connectFails: bool)

  /** A step another thread can contribute. */
  predicate Foreign(l: Label) {
    !l.Task? && !l.ConnectError?
  }

  predicate AllForeign(schedule: seq<Turn>) {
    forall i, j | 0 <= i < |schedule| && 0 <= j < |schedule[i].others| :: Foreign(schedule[i].others[j])
  }

  /** The other threads' steps in order; one that is not possible is skipped. */
  function Interfere(s: System, others: seq<Label>): System {
    if others == [] then s
    else
      var t := Interfere(s, others[..|others| - 1]);
      if Enabled(SOURCE, t, others[|others| - 1]) then Apply(t, others[|others| - 1]) else t
  }

  function TaskLabel(s: System, connectFails: bool): Label {
    if s.point.CallConnect? && connectFails then ConnectError else Task
  }

  /** One turn: the other threads, and then the task, unless it was asleep when the turn began or all is over. */
  function TakeTurn(s: System, turn: Turn): System {
    var t := Interfere(s, turn.others);
    if s.point.Parked? || t.point.Halted? then t else Apply(t, TaskLabel(t, turn.connectFails))
  }

  lemma TestTurn(s: System, turn: Turn)
    requires s.point == TestCount && Interfere(s, turn.others).point == TestCount
    ensures var t := Interfere(s, turn.others);
      TakeTurn(s, turn) ==
        if t.count < MAXIMUM_RETRY then t.(point := CallConnect)
        else t.(point := CallRestart, log := t.log + [RestartDecided])
  {
  }

  function Replay(s: System, schedule: seq<Turn>): System {
    if schedule == [] then s else TakeTurn(Replay(s, schedule[..|schedule| - 1]), schedule[|schedule| - 1])
  }

  lemma ReplayNext(s: System, schedule: seq<Turn>, n: nat)
    requires n < |schedule|
    ensures Replay(s, schedule[..n + 1]) == TakeTurn(Replay(s, schedule[..n]), schedule[n])
  {
    assert schedule[..n + 1][..n] == schedule[..n];
  }

  lemma {:induction false} ExtendRun(m: Mode, s: System, run: seq<Label>, l: Label)
    requires IsRun(m, s, run) && Enabled(m, Execute(s, run), l)
    ensures IsRun(m, s, run + [l]) && Execute(s, run + [l]) == Apply(Execute(s, run), l)
  {
    var t := Execute(s, run);
    assert [l][1..] == [];
    assert IsRun(m, t, [l]) && Execute(t, [l]) == Apply(t, l);
    Concatenate(m, s, run, [l]);
  }

  lemma StepReachable(m: Mode, s: System, l: Label)
    requires Reachable(m, s) && Enabled(m, s, l)
    ensures Reachable(m, Apply(s, l))
  {
    var run :| IsRun(m, Boot(), run) && Execute(Boot(), run) == s;
    ExtendRun(m, Boot(), run, l);
  }

  /** Other threads leave the task where it is, except that they may wake it or end everything. */
  ghost predicate SamePlace(before: System, after: System) {
    && after.backoff == before.backoff
    && (after.point == before.point || after.point == Halted(FailedCheck)
        || (before.point.Parked? && after.point.EvalPredicate?))
  }

  lemma ForeignStaysInPlace(s: System, l: Label)
    requires Foreign(l) && Enabled(SOURCE, s, l)
    ensures SamePlace(s, Apply(s, l))
  {
  }

  lemma {:induction false} InterfereStaysInPlace(s: System, others: seq<Label>)
    requires forall j | 0 <= j < |others| :: Foreign(others[j])
    ensures SamePlace(s, Interfere(s, others))
    ensures Reachable(SOURCE, s) ==> Reachable(SOURCE, Interfere(s, others))
  {
    if others == [] {
    } else {
      var t, l := Interfere(s, others[..|others| - 1]), others[|others| - 1];
      InterfereStaysInPlace(s, others[..|others| - 1]);
      if Enabled(SOURCE, t, l) {
        ForeignStaysInPlace(t, l);
        if Reachable(SOURCE, t) {
          StepReachable(SOURCE, t, l);
        }
      }
    }
  }

  /** Every schedule is a run of the protocol at the granularity of the source. */
  lemma {:induction false} ReplayReachable(schedule: seq<Turn>)
    requires AllForeign(schedule)
    ensures Reachable(SOURCE, Replay(Boot(), schedule))
  {
    if schedule == [] {
      assert IsRun(SOURCE, Boot(), []);
    } else {
      var s, turn := Replay(Boot(), schedule[..|schedule| - 1]), schedule[|schedule| - 1];
      ReplayReachable(schedule[..|schedule| - 1]);
      InterfereStaysInPlace(s, turn.others);
      var t := Interfere(s, turn.others);
      if !s.point.Parked? && !t.point.Halted? {
        StepReachable(SOURCE, t, TaskLabel(t, turn.connectFails));
      }
    }
  }

  /** The system that a schedule leads to when further steps of other threads follow its last turn. */
  function Outcome(schedule: seq<Turn>, others: seq<Label>): System {
    Interfere(Replay(Boot(), schedule), others)
  }

  ghost predicate IsOutcome(s: System, schedule: seq<Turn>, others: seq<Label>) {
    && AllForeign(schedule) && (forall j | 0 <= j < |others| :: Foreign(others[j]))
    && Outcome(schedule, others) == s
  }

  lemma OneMoreTurn(schedule: seq<Turn>, turn: Turn)
    requires AllForeign(schedule) && forall j | 0 <= j < |turn.others| :: Foreign(turn.others[j])
    ensures AllForeign(schedule + [turn])
    ensures Replay(Boot(), schedule + [turn]) == TakeTurn(Replay(Boot(), schedule), turn)
  {
    assert (schedule + [turn])[..|schedule|] == schedule;
  }

  lemma OneMoreForeign(s: System, others: seq<Label>, l: Label)
    requires Enabled(SOURCE, Interfere(s, others), l)
    ensures Interfere(s, others + [l]) == Apply(Interfere(s, others), l)
  {
    assert (others + [l])[..|others|] == others;
  }

  /** The task's next step needs a turn of its own, or two when others wake it in the first. */
  lemma OneMoreTaskStep(schedule: seq<Turn>, others: seq<Label>, l: Label) returns (longer: seq<Turn>)
    requires IsOutcome(Outcome(schedule, others), schedule, others)
    requires !Foreign(l) && Enabled(SOURCE, Outcome(schedule, others), l)
    ensures IsOutcome(Apply(Outcome(schedule, others), l), longer, [])
  {
    var s, turn := Replay(Boot(), schedule), Turn(others, l.ConnectError?);
    OneMoreTurn(schedule, turn);
    longer := schedule + [turn];
    if s.point.Parked? {
      OneMoreTurn(longer, Turn([], l.ConnectError?));
      longer := longer + [Turn([], l.ConnectError?)];
    }
  }

  /** Every system that is reachable at the granularity of the source is the outcome of some schedule. */
  lemma {:induction false} RunIsSchedule(run: seq<Label>) returns (schedule: seq<Turn>, others: seq<Label>)
    requires IsRun(SOURCE, Boot(), run)
    ensures IsOutcome(Execute(Boot(), run), schedule, others)
  {
    if run == [] {
      schedule, others := [], [];
    } else {
      var front, l := run[..|run| - 1], run[|run| - 1];
      assert run == front + [l];
      SplitRun(SOURCE, Boot(), front, l);
      schedule, others := RunIsSchedule(front);
      if Foreign(l) {
        OneMoreForeign(Replay(Boot(), schedule), others, l);
        others := others + [l];
      } else {
        schedule := OneMoreTaskStep(schedule, others, l);
        others := [];
      }
    }
  }

  lemma {:induction false} SplitRun(m: Mode, s: System, run: seq<Label>, l: Label)
    requires IsRun(m, s, run + [l])
    ensures IsRun(m, s, run) && Enabled(m, Execute(s, run), l)
    ensures Execute(s, run + [l]) == Apply(Execute(s, run), l)
    decreases run
  {
    var longer := run + [l];
    if run == [] {
      assert longer[0] == l && longer[1..] == [];
    } else {
      assert longer[0] == run[0] && longer[1..] == run[1..] + [l];
      SplitRun(m, Apply(s, run[0]), run[1..], l);
    }
  }

  /** So the schedules cover exactly the interleavings of the source. */
  lemma SchedulesAreRuns(s: System)
    ensures Reachable(SOURCE, s) <==> exists schedule, others :: IsOutcome(s, schedule, others)
  {
    if Reachable(SOURCE, s) {
      var run :| IsRun(SOURCE, Boot(), run) && Execute(Boot(), run) == s;
      var schedule, others := RunIsSchedule(run);
    }
    if schedule, others :| IsOutcome(s, schedule, others) {
      ReplayReachable(schedule);
      InterfereStaysInPlace(Replay(Boot(), schedule), others);
    }
  }

  lemma {:induction false} InterfereWhenHalted(s: System, others: seq<Label>)
    requires s.point.Halted?
    ensures Interfere(s, others) == s
  {
    if others == [] {
    } else {
      InterfereWhenHalted(s, others[..|others| - 1]);
    }
  }

  /** Nothing happens after the device has stopped. */
  lemma {:induction false} ReplayAfterHalt(s: System, schedule: seq<Turn>, n: nat)
    requires n <= |schedule| && Replay(s, schedule[..n]).point.Halted?
    ensures Replay(s, schedule) == Replay(s, schedule[..n])
  {
    if n == |schedule| {
      assert schedule[..n] == schedule;
    } else {
      var front := schedule[..|schedule| - 1];
      assert front[..n] == schedule[..n];
      ReplayAfterHalt(s, front, n);
      InterfereWhenHalted(Replay(s, front), schedule[|schedule| - 1].others);
    }
  }

  /** The task's own events, without the counter resets of other threads. */
  function TaskEvents(log: seq<Event>): seq<Event> {
    if log == [] then []
    else TaskEvents(log[..|log| - 1]) + if log[|log| - 1] == CounterReset then [] else [log[|log| - 1]]
  }

  lemma TaskEventsAppend(log: seq<Event>, e: Event)
    ensures TaskEvents(log + [e]) == TaskEvents(log) + if e == CounterReset then [] else [e]
  {
    assert (log + [e])[..|log|] == log;
  }

  lemma {:induction false} InterfereIsSilent(s: System, others: seq<Label>)
    requires forall j | 0 <= j < |others| :: Foreign(others[j])
    ensures TaskEvents(Interfere(s, others).log) == TaskEvents(s.log)
  {
    if others == [] {
    } else {
      var t := Interfere(s, others[..|others| - 1]);
      InterfereIsSilent(s, others[..|others| - 1]);
      TaskEventsAppend(t.log, CounterReset);
    }
  }
}

/**
 * lib/Connectivity/WifiManager.cpp in its own, structured form: reconnectTask as a loop with a local
 * backoff delay, and the handlers and public calls as methods that update the shared fields in place.
 * A schedule says which steps of other threads fall just before each step of the task, and the methods
 * are proved to do exactly what the protocol makes of that schedule.
 */
module WifiManagers {
  import opened WifiProtocol
  import opened WifiSafety
  import opened WifiSchedules
  import opened WifiCauses

  class WifiManager {
    var state: WifiState
    var retryCount: int
    /** Whether the task sleeps in cv.wait, and whether the device has stopped. */
    var asleep: bool
    var stopped: bool
    /** How many other threads stand where in their handlers. */
    var disconnecting: nat
    var gotIpSet: nat
    var gotIpReset: nat
    /** What an observer of the device sees. */
    var log: seq<Event>

    const schedule: seq<Turn>
    var turn: nat
    /** The protocol's account of the same history. */
    ghost var model: System

    /** The fields are those of a system of the protocol. */
    ghost predicate Mirrors(s: System)
      reads this
    {
      && s.state == state && s.count == retryCount && s.log == log
      && (s.point.Parked? <==> asleep) && (s.point.Halted? <==> stopped)
      && s.disconnecting == disconnecting && s.gotIpSet == gotIpSet && s.gotIpReset == gotIpReset
    }

    ghost predicate Valid()
      reads this
    {
      turn <= |schedule| && AllForeign(schedule) && Mirrors(model)
    }

    /** Between two turns: everything is as the protocol makes it from the turns taken so far. */
    ghost predicate Settled()
      reads this
    {
      Valid() && model == Replay(Boot(), schedule[..turn])
    }

    /** Inside a turn: the other threads have had their share, the task has yet to take its step. */
    ghost predicate Shared(before: System)
      reads this
    {
      && Valid() && turn < |schedule| && before == Replay(Boot(), schedule[..turn])
      && model == Interfere(before, schedule[turn].others) && SamePlace(before, model) && !model.point.Halted?
    }

    /** No turn is left, or the device has stopped. */
    ghost predicate Over()
      reads this
    {
      turn == |schedule| || model.point.Halted?
    }

    constructor (schedule: seq<Turn>)
      requires AllForeign(schedule)
      ensures Settled() && model == Boot() && this.schedule == schedule && turn == 0
    {
      state, retryCount, asleep, stopped := NotInitialized, 0, false, false;
      disconnecting, gotIpSet, gotIpReset := 0, 0, 0;
      log := [];
      this.schedule := schedule;
      turn := 0;
      model := Boot();
    }

    method SetState(newState: WifiState)
      modifies this`state
      ensures state == newState
    {
      if state != newState {
        state := newState;
      }
    }

    method NotifyAll()
      modifies this`asleep
      ensures !asleep
    {
      asleep := false;
    }

    /** One step of a handler, of reconnect, of updateCredentials or of the scheduler, if it is possible. */
    method OtherStep(l: Label)
      requires Valid() && Foreign(l)
      modifies this`state, this`retryCount, this`asleep, this`stopped, this`disconnecting, this`gotIpSet,
               this`gotIpReset, this`log, this`model
      ensures Valid()
      ensures model == if Enabled(SOURCE, old(model), l) then Apply(old(model), l) else old(model)
    {
      if stopped {
        return;
      }
      ghost var possible := Enabled(SOURCE, model, l);
      if l.SetDisconnected? {
        SetState(Disconnected);
        disconnecting := disconnecting + 1;
      } else if l.NotifyDisconnected? {
        if disconnecting > 0 {
          disconnecting := disconnecting - 1;
          NotifyAll();
        }
      } else if l.StaStart? {
        SetState(Connecting);
      } else if l.CheckFails? {
        asleep, stopped := false, true;
      } else if l.SpuriousWake? {
        asleep := false;
      } else {
        GotIpStep(l);
      }
      model := if possible then Apply(model, l) else model;
    }

    /** One step of a GOT_IP handler. */
    method GotIpStep(l: Label)
      modifies this`state, this`retryCount, this`asleep, this`gotIpSet, this`gotIpReset, this`log
      ensures l.GotIpSetState? ==>
                && state == Connected && gotIpSet == old(gotIpSet) + 1
                && unchanged(this`retryCount, this`asleep, this`gotIpReset, this`log)
      ensures l.GotIpReset? && old(gotIpSet) > 0 ==>
                && retryCount == 0 && gotIpSet == old(gotIpSet) - 1 && gotIpReset == old(gotIpReset) + 1
                && log == old(log) + [CounterReset] && unchanged(this`state, this`asleep)
      ensures l.GotIpNotify? && old(gotIpReset) > 0 ==>
                && gotIpReset == old(gotIpReset) - 1 && !asleep
                && unchanged(this`state, this`retryCount, this`gotIpSet, this`log)
      ensures !l.GotIpSetState? && !(l.GotIpReset? && old(gotIpSet) > 0) && !(l.GotIpNotify? && old(gotIpReset) > 0) ==>
                unchanged(this`state, this`retryCount, this`asleep, this`gotIpSet, this`gotIpReset, this`log)
    {
      if l.GotIpSetState? {
        SetState(Connected);
        gotIpSet := gotIpSet + 1;
      } else if l.GotIpReset? && gotIpSet > 0 {
        retryCount := 0;
        gotIpSet, gotIpReset := gotIpSet - 1, gotIpReset + 1;
        log := log + [CounterReset];
      } else if l.GotIpNotify? && gotIpReset > 0 {
        gotIpReset := gotIpReset - 1;
        NotifyAll();
      }
    }

    /** The other threads' share of the turn that begins; false when there is no turn or the device stops. */
    method Others() returns (go: bool)
      requires Settled() && !model.point.Halted?
      modifies this
      ensures go ==> turn == old(turn) && Shared(old(model)) && TaskEvents(log) == TaskEvents(old(log))
      ensures !go ==> Settled() && Over() && model.point != Halted(Restart)
      ensures go <==> old(turn) < |schedule| && !Interfere(old(model), schedule[old(turn)].others).point.Halted?
    {
      if turn == |schedule| {
        return false;
      }
      ghost var before := model;
      var others := schedule[turn].others;
      for i := 0 to |others|
        invariant Valid() && turn == old(turn) && model == Interfere(before, others[..i])
      {
        assert others[..i + 1][..i] == others[..i];
        OtherStep(others[i]);
      }
      assert others[..|others|] == others;
      InterfereStaysInPlace(before, others);
      InterfereIsSilent(before, others);
      if stopped {
        Finish(before);
        return false;
      }
      return true;
    }

    /** Ends a turn in which the fields have become what the protocol makes of it. */
    method Finish(ghost before: System)
      requires turn < |schedule| && AllForeign(schedule)
      requires before == Replay(Boot(), schedule[..turn]) && Mirrors(TakeTurn(before, schedule[turn]))
      modifies this`turn, this`model
      ensures Settled() && turn == old(turn) + 1 && model == TakeTurn(before, schedule[old(turn)])
    {
      model := TakeTurn(before, schedule[turn]);
      ReplayNext(Boot(), schedule, turn);
      turn := turn + 1;
    }

    /** Appends one of the task's own events to the log. */
    method Report(e: Event)
      modifies this`log
      ensures log == old(log) + [e]
      ensures TaskEvents(log) == TaskEvents(old(log)) + if e == CounterReset then [] else [e]
    {
      TaskEventsAppend(log, e);
      log := log + [e];
    }

    /** cv.wait with its predicate: returns once the task has seen DISCONNECTED. */
    method AwaitDisconnect() returns (go: bool)
      requires Settled() && model.point == EvalPredicate
      modifies this
      ensures Settled() && (!go ==> Over())
      ensures go ==> state == Disconnected
      ensures go ==> model.point == TestCount && turn > old(turn) && model.backoff == old(model.backoff)
      ensures go ==> TaskEvents(log) == TaskEvents(old(log))
    {
      while true
        invariant Settled() && model.point == EvalPredicate && model.backoff == old(model.backoff)
        invariant old(turn) <= turn && TaskEvents(log) == TaskEvents(old(log))
        decreases |schedule| - turn
      {
        ghost var before := model;
        go := Others();
        if !go { return; }
        var satisfied := state == Disconnected;
        Finish(before);
        if satisfied { return true; }
        go := Sleep();
        if !go { return; }
      }
    }

    /** Goes to sleep, and stays asleep until notified or woken for no reason. */
    method Sleep() returns (go: bool)
      requires Settled() && model.point == Parking
      modifies this
      ensures Settled() && (!go ==> Over())
      ensures go ==> model.point == EvalPredicate && turn > old(turn) && model.backoff == old(model.backoff)
      ensures go ==> TaskEvents(log) == TaskEvents(old(log))
    {
      ghost var before := model;
      go := Others();
      if !go { return; }
      asleep := true;
      Finish(before);
      while asleep
        invariant Settled() && old(turn) < turn && model.backoff == old(model.backoff)
        invariant model.point == if asleep then Parked else EvalPredicate
        invariant TaskEvents(log) == TaskEvents(old(log))
        decreases |schedule| - turn
      {
        before := model;
        go := Others();
        if !go { return; }
        Finish(before);
      }
    }

    /** The counter test, and either one connect call and ++ or the restart. */
    method AttemptConnect() returns (go: bool)
      requires Settled() && model.point == TestCount
      modifies this
      ensures Settled() && (!go ==> Over())
      ensures go ==> model.point == StartWait && turn == old(turn) + 4 && model.backoff == old(model.backoff)
      ensures go ==> TaskEvents(log) == TaskEvents(old(log)) + [ConnectCall, Increment]
      ensures model.point == Halted(Restart) ==>
                turn == old(turn) + 2 && TaskEvents(log) == TaskEvents(old(log)) + [RestartDecided] + [RestartCall]
    {
      var retry;
      go, retry := MayRetry();
      if !go { return; }
      if retry {
        go := Connect();
        if !go { return; }
        go := IncrementCount();
      } else {
        RestartDevice();
        go := false;
      }
    }

    /** The counter test: on to the connect call, or to the restart. */
    method MayRetry() returns (go: bool, retry: bool)
      requires Settled() && model.point == TestCount
      modifies this
      ensures Settled() && (!go ==> Over()) && model.point != Halted(Restart)
      ensures go ==> turn == old(turn) + 1 && model.backoff == old(model.backoff)
      ensures go && retry ==>
                && model.point == CallConnect && retryCount < MAXIMUM_RETRY
                && TaskEvents(log) == TaskEvents(old(log))
      ensures go && !retry ==>
                && model.point == CallRestart && retryCount >= MAXIMUM_RETRY
                && TaskEvents(log) == TaskEvents(old(log)) + [RestartDecided]
    {
      retry := false;
      ghost var before := model;
      go := Others();
      if !go { return; }
      TestTurn(before, schedule[turn]);
      if retryCount < MAXIMUM_RETRY {
        Finish(before);
        return true, true;
      }
      Report(RestartDecided);
      Finish(before);
      return true, false;
    }

    /** esp_restart; handlers may still run before it. */
    method RestartDevice()
      requires Settled() && model.point == CallRestart
      modifies this
      ensures Settled() && Over()
      ensures model.point == Halted(Restart) ==>
                turn == old(turn) + 1 && TaskEvents(log) == TaskEvents(old(log)) + [RestartCall]
    {
      ghost var before := model;
      var go := Others();
      if !go { return; }
      Report(RestartCall);
      stopped := true;
      Finish(before);
    }

    /** esp_wifi_connect under ESP_ERROR_CHECK. */
    method Connect() returns (go: bool)
      requires Settled() && model.point == CallConnect
      modifies this
      ensures Settled() && (!go ==> Over()) && model.point != Halted(Restart)
      ensures go ==> model.point == LoadCount && turn == old(turn) + 1 && model.backoff == old(model.backoff)
      ensures go ==> TaskEvents(log) == TaskEvents(old(log)) + [ConnectCall]
      ensures old(turn) < |schedule| && !Interfere(old(model), schedule[old(turn)].others).point.Halted? ==>
                && (go <==> !schedule[old(turn)].connectFails)
                && TaskEvents(log) == TaskEvents(old(log)) + [ConnectCall]
    {
      ghost var before := model;
      go := Others();
      if !go { return; }
      Report(ConnectCall);
      if schedule[turn].connectFails {
        stopped := true;
        go := false;
      }
      Finish(before);
    }

    /** wifi_reconnect_retry_count++, as the load and the store it is. */
    method IncrementCount() returns (go: bool)
      requires Settled() && model.point == LoadCount
      modifies this
      ensures Settled() && (!go ==> Over()) && model.point != Halted(Restart)
      ensures go ==> model.point == StartWait && turn == old(turn) + 2 && model.backoff == old(model.backoff)
      ensures go ==> TaskEvents(log) == TaskEvents(old(log)) + [Increment]
      ensures go ==> retryCount == Interfere(old(model), schedule[old(turn)].others).count + 1
    {
      var loaded;
      go, loaded := Load();
      if !go { return; }
      go := Store(loaded);
    }

    method Load() returns (go: bool, loaded: int)
      requires Settled() && model.point == LoadCount
      modifies this
      ensures Settled() && (!go ==> Over()) && model.point != Halted(Restart)
      ensures go ==> model.point == StoreCount(loaded) && turn == old(turn) + 1 && model.backoff == old(model.backoff)
      ensures go ==> TaskEvents(log) == TaskEvents(old(log))
      ensures go ==> loaded == Interfere(old(model), schedule[old(turn)].others).count
    {
      ghost var before := model;
      go := Others();
      loaded := retryCount;
      if !go { return; }
      Finish(before);
    }

    method Store(loaded: int) returns (go: bool)
      requires Settled() && model.point == StoreCount(loaded)
      modifies this
      ensures Settled() && (!go ==> Over()) && model.point != Halted(Restart)
      ensures go ==> model.point == StartWait && turn == old(turn) + 1 && model.backoff == old(model.backoff)
      ensures go ==> TaskEvents(log) == TaskEvents(old(log)) + [Increment] && retryCount == loaded + 1
    {
      ghost var before := model;
      go := Others();
      if !go { return; }
      retryCount := loaded + 1;
      Report(Increment);
      Finish(before);
    }

    /** cv.wait_for: announces its duration and returns at some later moment. */
    method AwaitConnected(backoffDelay: int) returns (go: bool)
      requires Settled() && model.point == StartWait && model.backoff == backoffDelay
      modifies this
      ensures Settled() && (!go ==> Over())
      ensures go ==> model.point == TestConnected && turn == old(turn) + 2 && model.backoff == backoffDelay
      ensures go ==> TaskEvents(log) == TaskEvents(old(log)) + [TimedWait(backoffDelay)]
    {
      go := BeginWait(backoffDelay);
      if !go { return; }
      go := EndWait();
    }

    method BeginWait(seconds: int) returns (go: bool)
      requires Settled() && model.point == StartWait && model.backoff == seconds
      modifies this
      ensures Settled() && (!go ==> Over())
      ensures go ==> model.point == Waiting && turn == old(turn) + 1 && model.backoff == seconds
      ensures go ==> TaskEvents(log) == TaskEvents(old(log)) + [TimedWait(seconds)]
    {
      ghost var before := model;
      go := Others();
      if !go { return; }
      Report(TimedWait(seconds));
      Finish(before);
    }

    method EndWait() returns (go: bool)
      requires Settled() && model.point == Waiting
      modifies this
      ensures Settled() && (!go ==> Over())
      ensures go ==> model.point == TestConnected && turn == old(turn) + 1 && model.backoff == old(model.backoff)
      ensures go ==> TaskEvents(log) == TaskEvents(old(log))
    {
      ghost var before := model;
      go := Others();
      if !go { return; }
      Finish(before);
    }

    /** The backoff delay starts over after a connection, and doubles up to its maximum otherwise. */
    static method NextDelay(backoffDelay: int, connected: bool) returns (next: int)
      ensures next == if connected then FIRST_BACKOFF else NextBackoff(backoffDelay)
      ensures !connected ==> next == backoffDelay * 2 || next == MAXIMUM_BACKOFF < backoffDelay * 2
    {
      if connected {
        next := FIRST_BACKOFF;
      } else {
        next := if backoffDelay * 2 <= MAXIMUM_BACKOFF then backoffDelay * 2 else MAXIMUM_BACKOFF;
      }
    }

    /** The isConnected test and the new backoff delay. */
    method EndRound(backoffDelay: int) returns (go: bool, next: int)
      requires Settled() && model.point == TestConnected && model.backoff == backoffDelay
      modifies this
      ensures Settled() && (!go ==> Over())
      ensures go ==> model.point == EvalPredicate && turn == old(turn) + 1 && model.backoff == next
      ensures go ==> TaskEvents(log) == TaskEvents(old(log)) + [RoundEnd(state == Connected)]
      ensures go ==> next == if state == Connected then FIRST_BACKOFF else NextBackoff(backoffDelay)
    {
      next := backoffDelay;
      ghost var before := model;
      go := Others();
      if !go { return; }
      next := NextDelay(backoffDelay, state == Connected);
      Report(RoundEnd(state == Connected));
      Finish(before);
    }

    /** The loop of reconnectTask, until the schedule is used up or the device stops. */
    method RunTask()
      requires Settled() && model == Boot() && turn == 0
      modifies this
      ensures Settled() && Over()
    {
      var backoffDelay := FIRST_BACKOFF;
      while true
        invariant Settled() && model.point == EvalPredicate && model.backoff == backoffDelay
        decreases |schedule| - turn
      {
        var go := AwaitDisconnect();
        if !go { return; }
        go := AttemptConnect();
        if !go { return; }
        go := AwaitConnected(backoffDelay);
        if !go { return; }
        go, backoffDelay := EndRound(backoffDelay);
        if !go { return; }
      }
    }

    /**
     * reconnectTask, under any schedule of the other threads: fields and log end exactly as the protocol
     * makes them from the whole schedule, so everything proved of reachable systems holds of them.
     */
    method ReconnectTask()
      requires Settled() && model == Boot() && turn == 0
      modifies this
      ensures Mirrors(Replay(Boot(), schedule)) && Reachable(SOURCE, Replay(Boot(), schedule))
      ensures 0 <= retryCount <= MAXIMUM_RETRY && ConnectsSinceReset(log) <= MAXIMUM_RETRY
      ensures forall i | 0 <= i < |log| && log[i].TimedWait? :: log[i].seconds == BackoffAfter(FailedRounds(log[..i]))
      ensures NoDisconnect(schedule) ==> TaskEvents(log) == [] && retryCount == 0 && state != Disconnected
    {
      RunTask();
      ReplayReachable(schedule);
      if NoDisconnect(schedule) {
        ReplayRests(schedule);
      }
      if turn == |schedule| {
        assert schedule[..turn] == schedule;
      } else {
        ReplayAfterHalt(Boot(), schedule, turn);
      }
      CounterBounded(SOURCE, model);
      forall i | 0 <= i < |log| && log[i].TimedWait?
        ensures log[i].seconds == BackoffAfter(FailedRounds(log[..i]))
      {
        BackoffClosedForm(SOURCE, model, i);
      }
    }
  }
}
