/** The two threads of lib/Ota/OtaManager.hpp and their unsynchronised guard, as interleaved steps. */
module OtaProtocol {

  datatype OtaState = Idle | Checking | Downloading | Applying | Success | Failed

  datatype Thread = Button | Checker

  datatype Point =
    | AtLoop          // head of the thread's loop
    | AtAvailability  // the checker, having seen Idle, asks whether an update is available
    | AtGuard         // enterOtaMode is about to compare the state with Idle
    | AtPerform       // performOtaUpdate has been called
    | AtDownload      // about to set Downloading
    | AtInstall       // about to fetch and install
    | AtRestart       // about to restart

  datatype System = System(
    state: OtaState,
    button: Point,
    checker: Point,
    performs: nat,            // calls of performOtaUpdate since boot
    changes: seq<OtaState>,   // the states entered since boot
    restarted: bool)

  function Boot(): System {
    System(Idle, AtLoop, AtLoop, 0, [], false)
  }

  /** One step of a thread; the input is the button, the availability answer or the install result. */
  datatype Label = Step(thread: Thread, input: bool)

  /**
   * atomicGuard: the test for Idle and the first setState are one step.
   * mayBeAvailable: checkOtaAvailability may answer true.
   */
  datatype Mode = Mode(atomicGuard: bool, mayBeAvailable: bool)

  /** The source as written: a bare guard, and a stub that never reports an update. */
  const AS_WRITTEN := Mode(false, false)

  function PointOf(s: System, t: Thread): Point {
    if t.Button? then s.button else s.checker
  }

  function Other(t: Thread): Thread {
    if t.Button? then Checker else Button
  }

  function MoveTo(s: System, t: Thread, p: Point): System {
    if t.Button? then s.(button := p) else s.(checker := p)
  }

  predicate Enabled(m: Mode, s: System, l: Label) {
    && !s.restarted
    && !(m.atomicGuard && PointOf(s, Other(l.thread)) == AtPerform)
    && (PointOf(s, l.thread) == AtAvailability && l.input ==> m.mayBeAvailable)
  }

  /** StatefulObject::setState. */
  function SetState(s: System, newState: OtaState): System {
    if s.state == newState then s else s.(state := newState, changes := s.changes + [newState])
  }

  function Apply(s: System, l: Label): System {
    match PointOf(s, l.thread)
    case AtLoop =>
      if l.thread.Button? then MoveTo(s, l.thread, if l.input then AtGuard else AtLoop)
      else MoveTo(s, l.thread, if s.state == Idle then AtAvailability else AtLoop)
    case AtAvailability => MoveTo(s, l.thread, if l.input then AtGuard else AtLoop)
    case AtGuard =>
      if s.state != Idle then MoveTo(s, l.thread, AtLoop)
      else MoveTo(s, l.thread, AtPerform).(performs := s.performs + 1)
    case AtPerform => MoveTo(SetState(s, Checking), l.thread, AtDownload)
    case AtDownload => MoveTo(SetState(s, Downloading), l.thread, AtInstall)
    case AtInstall => MoveTo(SetState(s, if l.input then Success else Failed), l.thread, AtRestart)
    case AtRestart => s.(restarted := true)
  }

  function Execute(s: System, run: seq<Label>): System
    decreases run
  {
    if run == [] then s else Execute(Apply(s, run[0]), run[1..])
  }

  predicate IsRun(m: Mode, s: System, run: seq<Label>)
    decreases run
  {
    run == [] || (Enabled(m, s, run[0]) && IsRun(m, Apply(s, run[0]), run[1..]))
  }

  // ----- When the guard holds -----

  predicate Updating(p: Point) {
    p == AtPerform || p == AtDownload || p == AtInstall || p == AtRestart
  }

  /** What the states entered so far must be while the only update stands at p. */
  predicate Progress(p: Point, state: OtaState, changes: seq<OtaState>) {
    match p
    case AtDownload => state == Checking && changes == [Checking]
    case AtInstall => state == Downloading && changes == [Checking, Downloading]
    case AtRestart => (state == Success || state == Failed) && changes == [Checking, Downloading, state]
    case _ => state == Idle && changes == []
  }

  ghost predicate ProgressInv(s: System) {
    Progress(if Updating(s.checker) then s.checker else s.button, s.state, s.changes)
  }

  ghost predicate Inv(m: Mode, s: System) {
    var b, c := Updating(s.button), Updating(s.checker);
    && !(b && c)
    && s.performs == (if b || c then 1 else 0)
    && ProgressInv(s)
    && s.button != AtAvailability
    && (s.restarted ==> s.button == AtRestart || s.checker == AtRestart)
    && (!m.mayBeAvailable ==> s.checker == AtLoop || s.checker == AtAvailability)
  }

  lemma ProgressStep(m: Mode, s: System, l: Label)
    requires m.atomicGuard || !m.mayBeAvailable
    requires Inv(m, s) && Enabled(m, s, l)
    ensures ProgressInv(Apply(s, l))
  {
  }

  lemma InvStep(m: Mode, s: System, l: Label)
    requires m.atomicGuard || !m.mayBeAvailable
    requires Inv(m, s) && Enabled(m, s, l)
    ensures Inv(m, Apply(s, l))
  {
    ProgressStep(m, s, l);
  }

  lemma {:induction false} InvAlong(m: Mode, s: System, run: seq<Label>)
    requires m.atomicGuard || !m.mayBeAvailable
    requires Inv(m, s) && IsRun(m, s, run)
    ensures Inv(m, Execute(s, run))
    decreases run
  {
    if run == [] {
    } else {
      InvStep(m, s, run[0]);
      InvAlong(m, Apply(s, run[0]), run[1..]);
    }
  }

  /** The states a boot may go through, in order. */
  predicate Advancing(changes: seq<OtaState>) {
    changes <= [Checking, Downloading, Success] || changes <= [Checking, Downloading, Failed]
  }

  /**
   * With the availability stub as written, or with an atomic guard, every interleaving performs at most one
   * update a boot, only ever advances through the states, and restarts only from Success or Failed.
   */
  lemma GuardedRuns(m: Mode, run: seq<Label>)
    requires m.atomicGuard || !m.mayBeAvailable
    requires IsRun(m, Boot(), run)
    ensures var s := Execute(Boot(), run);
      && s.performs <= 1
      && Advancing(s.changes) && Applying !in s.changes
      && (s.restarted ==> |s.changes| == 3 && (s.state == Success || s.state == Failed))
  {
    InvAlong(m, Boot(), run);
  }

  /** One thread's update that nobody interrupts goes through all its states and restarts. */
  lemma UninterruptedUpdate(m: Mode, s: System, t: Thread, installs: bool) returns (run: seq<Label>)
    requires PointOf(s, t) == AtGuard && PointOf(s, Other(t)) == AtLoop && s.state == Idle && !s.restarted
    ensures IsRun(m, s, run)
    ensures var s' := Execute(s, run);
      && s'.restarted && s'.state == (if installs then Success else Failed) && s'.performs == s.performs + 1
      && s'.changes == s.changes + [Checking, Downloading, s'.state]
  {
    var step := Step(t, installs);
    run := [step, step, step, step, step];
    var s2 := Apply(Apply(s, step), step);
    TwoSteps(m, s, run, s2);
    var s5 := Apply(Apply(Apply(s2, step), step), step);
    ThreeSteps(m, s2, run[2..], s5);
    assert run[2..][3..] == [];
  }

  // ----- What each thread waits for -----

  /** Every look at the button finds it released. */
  predicate Released(run: seq<Label>) {
    forall i | 0 <= i < |run| && run[i].thread.Button? :: !run[i].input
  }

  /** As long as the button is not pressed its thread never leaves the loop, whatever the other one does. */
  lemma {:induction false} ReleasedButtonWaits(m: Mode, s: System, run: seq<Label>)
    requires s.button == AtLoop && IsRun(m, s, run) && Released(run)
    ensures Execute(s, run).button == AtLoop
    decreases run
  {
    if run == [] {
    } else {
      ReleasedButtonWaits(m, Apply(s, run[0]), run[1..]);
    }
  }

  /** Nothing has happened: the checker may at most be about to ask for an update. */
  ghost predicate Untouched(s: System) {
    && s.state == Idle && s.changes == [] && s.performs == 0 && !s.restarted
    && s.button == AtLoop && (s.checker == AtLoop || s.checker == AtAvailability)
  }

  lemma {:induction false} UntouchedAlong(m: Mode, s: System, run: seq<Label>)
    requires !m.mayBeAvailable && Untouched(s) && IsRun(m, s, run) && Released(run)
    ensures Untouched(Execute(s, run))
    decreases run
  {
    if run == [] {
    } else {
      UntouchedAlong(m, Apply(s, run[0]), run[1..]);
    }
  }

  /** With the availability stub as written nothing ever happens to a device whose button is not pressed. */
  lemma NoPressNoUpdate(m: Mode, run: seq<Label>)
    requires !m.mayBeAvailable && IsRun(m, Boot(), run) && Released(run)
    ensures var s := Execute(Boot(), run);
      s.button == AtLoop && s.performs == 0 && s.changes == [] && s.state == Idle && !s.restarted
  {
    UntouchedAlong(m, Boot(), run);
  }

  /** A press on an idle device does start an update, and once begun nothing stops it from ending in a restart. */
  lemma PressUpdates(m: Mode, s: System, installs: bool) returns (run: seq<Label>)
    requires s.button == AtLoop && s.checker == AtLoop && s.state == Idle && !s.restarted
    ensures IsRun(m, s, run) && run != [] && run[0] == Step(Button, true)
    ensures var s' := Execute(s, run);
      && s'.restarted && s'.state == (if installs then Success else Failed) && s'.performs == s.performs + 1
      && s'.changes == s.changes + [Checking, Downloading, s'.state]
  {
    var pressed := Apply(s, Step(Button, true));
    var rest := UninterruptedUpdate(m, pressed, Button, installs);
    run := [Step(Button, true)] + rest;
    assert run[1..] == rest;
  }

  /** While an update is under way or over, the checker stays in its loop and does not even ask for another. */
  lemma {:induction false} BusyCheckerRests(m: Mode, s: System, run: seq<Label>)
    requires s.state != Idle && s.checker == AtLoop && IsRun(m, s, run)
    ensures Execute(s, run).checker == AtLoop && Execute(s, run).state != Idle
    decreases run
  {
    if run == [] {
    } else {
      BusyCheckerRests(m, Apply(s, run[0]), run[1..]);
    }
  }

  /** Once the state is not Idle any more, no thread that has not passed the guard yet ever will. */
  lemma {:induction false} BusyDeviceRefuses(m: Mode, s: System, t: Thread, run: seq<Label>)
    requires s.state != Idle && !Updating(PointOf(s, t)) && IsRun(m, s, run)
    ensures !Updating(PointOf(Execute(s, run), t)) && Execute(s, run).state != Idle
    decreases run
  {
    if run == [] {
    } else {
      BusyDeviceRefuses(m, Apply(s, run[0]), t, run[1..]);
    }
  }

  // ----- When it does not -----

  /** Both threads pass the guard while the state is still Idle; the slower one then sets the state back. */
  const DOUBLE_UPDATE: seq<Label> := [
    Step(Checker, false), Step(Checker, true),  // the checker sees Idle and an available update
    Step(Button, true), Step(Button, false),    // the button is pressed and passes the guard
    Step(Checker, false),                       // so does the checker
    Step(Button, false), Step(Button, false),   // Checking, Downloading
    Step(Checker, false)]                       // Checking again

  lemma DoubleUpdate(m: Mode)
    requires !m.atomicGuard && m.mayBeAvailable
    ensures IsRun(m, Boot(), DOUBLE_UPDATE)
    ensures Execute(Boot(), DOUBLE_UPDATE).performs == 2
    ensures !Advancing(Execute(Boot(), DOUBLE_UPDATE).changes)
  {
    var s2 := System(Idle, AtLoop, AtGuard, 0, [], false);
    var s5 := System(Idle, AtPerform, AtPerform, 2, [], false);
    var s8 := System(Checking, AtInstall, AtDownload, 2, [Checking, Downloading, Checking], false);
    TwoSteps(m, Boot(), DOUBLE_UPDATE, s2);
    ThreeSteps(m, s2, DOUBLE_UPDATE[2..], s5);
    ThreeSteps(m, s5, DOUBLE_UPDATE[5..], s8);
    assert DOUBLE_UPDATE[2..][3..] == DOUBLE_UPDATE[5..] && DOUBLE_UPDATE[5..][3..] == [];
    assert s8.changes[2] == Checking;
  }

  lemma TwoSteps(m: Mode, s: System, run: seq<Label>, t: System)
    requires |run| >= 2 && Enabled(m, s, run[0]) && Enabled(m, Apply(s, run[0]), run[1])
    requires t == Apply(Apply(s, run[0]), run[1])
    ensures IsRun(m, t, run[2..]) ==> IsRun(m, s, run)
    ensures Execute(s, run) == Execute(t, run[2..])
  {
    assert run[1..][1..] == run[2..];
  }

  lemma ThreeSteps(m: Mode, s: System, run: seq<Label>, t: System)
    requires |run| >= 3 && Enabled(m, s, run[0]) && Enabled(m, Apply(s, run[0]), run[1])
    requires Enabled(m, Apply(Apply(s, run[0]), run[1]), run[2])
    requires t == Apply(Apply(Apply(s, run[0]), run[1]), run[2])
    ensures IsRun(m, t, run[3..]) ==> IsRun(m, s, run)
    ensures Execute(s, run) == Execute(t, run[3..])
  {
    TwoSteps(m, s, run, Apply(Apply(s, run[0]), run[1]));
    assert run[2..][1..] == run[3..];
  }

  ghost predicate AtMostOneUpdate(m: Mode) {
    forall run: seq<Label> :: IsRun(m, Boot(), run) ==> Execute(Boot(), run).performs <= 1
  }

  /** The exact condition for one update a boot. */
  lemma OneUpdateIff(m: Mode)
    ensures AtMostOneUpdate(m) <==> m.atomicGuard || !m.mayBeAvailable
  {
    if m.atomicGuard || !m.mayBeAvailable {
      forall run: seq<Label> | IsRun(m, Boot(), run) ensures Execute(Boot(), run).performs <= 1 {
        GuardedRuns(m, run);
      }
    } else {
      DoubleUpdate(m);
      assert IsRun(m, Boot(), DOUBLE_UPDATE) && Execute(Boot(), DOUBLE_UPDATE).performs == 2;
    }
  }

  // ----- At any granularity -----

  ghost predicate CountInv(s: System) {
    && s.performs == (if Updating(s.button) then 1 else 0) + (if Updating(s.checker) then 1 else 0)
    && s.button != AtAvailability
  }

  lemma {:induction false} CountAlong(m: Mode, s: System, run: seq<Label>)
    requires CountInv(s) && IsRun(m, s, run)
    ensures CountInv(Execute(s, run))
    decreases run
  {
    if run == [] {
    } else {
      CountAlong(m, Apply(s, run[0]), run[1..]);
    }
  }

  /** Two updates a boot are the worst case: each thread calls performOtaUpdate at most once. */
  lemma AtMostTwoUpdates(m: Mode, run: seq<Label>)
    requires IsRun(m, Boot(), run)
    ensures Execute(Boot(), run).performs <= 2
    ensures forall t :: !Updating(PointOf(Execute(Boot(), run), t)) ==> Execute(Boot(), run).performs <= 1
  {
    CountAlong(m, Boot(), run);
  }

  function StepsOf(run: seq<Label>, t: Thread): nat {
    if run == [] then 0 else (if run[0].thread == t then 1 else 0) + StepsOf(run[1..], t)
  }

  /** The steps a thread that passed the guard still takes up to its restart. */
  function StepsLeft(p: Point): nat {
    match p
    case AtPerform => 4
    case AtDownload => 3
    case AtInstall => 2
    case AtRestart => 1
    case _ => 0
  }

  /**
   * A thread past the guard never turns back: whatever the other one does, its own steps lead straight to
   * the restart, which comes at the latest with the fourth of them.
   */
  lemma {:induction false} UpdateEndsInRestart(m: Mode, s: System, t: Thread, run: seq<Label>)
    requires Updating(PointOf(s, t)) && !s.restarted && IsRun(m, s, run)
    ensures var s' := Execute(s, run);
      && (!s'.restarted ==>
            && Updating(PointOf(s', t))
            && StepsLeft(PointOf(s', t)) == StepsLeft(PointOf(s, t)) - StepsOf(run, t))
      && (StepsOf(run, t) >= StepsLeft(PointOf(s, t)) ==> s'.restarted)
    decreases run
  {
    if run == [] {
    } else {
      var s1 := Apply(s, run[0]);
      if s1.restarted {
        assert run[1..] == [];
      } else {
        UpdateEndsInRestart(m, s1, t, run[1..]);
      }
    }
  }
}

/** What a schedule of the two threads makes of the protocol, seen from one of them. */
module OtaSchedules {
  import opened OtaProtocol

  /** What the other thread's steps read just before my next one, and what that one reads. */
  datatype Turn = Turn(others: seq<bool>, mine: bool)

  /** A thread's next step; the availability answer is true only if the stub may say so. */
  function NextStep(m: Mode, s: System, t: Thread, read: bool): Label {
    Step(t, read && (PointOf(s, t) != AtAvailability || m.mayBeAvailable))
  }

  function Interfere(m: Mode, s: System, t: Thread, others: seq<bool>): System {
    if others == [] then s
    else
      var s1 := Interfere(m, s, t, others[..|others| - 1]);
      if s1.restarted then s1 else Apply(s1, NextStep(m, s1, Other(t), others[|others| - 1]))
  }

  /** One turn: the other thread's steps, and then mine, unless the device has restarted. */
  function TakeTurn(m: Mode, s: System, t: Thread, turn: Turn): System {
    var s1 := Interfere(m, s, t, turn.others);
    if s1.restarted then s1 else Apply(s1, NextStep(m, s1, t, turn.mine))
  }

  function Replay(m: Mode, s: System, t: Thread, schedule: seq<Turn>): System {
    if schedule == [] then s
    else TakeTurn(m, Replay(m, s, t, schedule[..|schedule| - 1]), t, schedule[|schedule| - 1])
  }

  lemma ReplayNext(m: Mode, s: System, t: Thread, schedule: seq<Turn>, n: nat)
    requires n < |schedule|
    ensures Replay(m, s, t, schedule[..n + 1]) == TakeTurn(m, Replay(m, s, t, schedule[..n]), t, schedule[n])
  {
    assert schedule[..n + 1][..n] == schedule[..n];
  }

  ghost predicate Reachable(m: Mode, s: System) {
    exists run :: IsRun(m, Boot(), run) && Execute(Boot(), run) == s
  }

  lemma {:induction false} ExtendRun(m: Mode, s: System, run: seq<Label>, l: Label)
    requires IsRun(m, s, run) && Enabled(m, Execute(s, run), l)
    ensures IsRun(m, s, run + [l]) && Execute(s, run + [l]) == Apply(Execute(s, run), l)
    decreases run
  {
    var longer := run + [l];
    if run == [] {
      assert longer[1..] == [];
    } else {
      assert longer[0] == run[0] && longer[1..] == run[1..] + [l];
      ExtendRun(m, Apply(s, run[0]), run[1..], l);
    }
  }

  lemma StepReachable(m: Mode, s: System, t: Thread, read: bool)
    requires !m.atomicGuard && Reachable(m, s) && !s.restarted
    ensures Reachable(m, Apply(s, NextStep(m, s, t, read)))
  {
    var run :| IsRun(m, Boot(), run) && Execute(Boot(), run) == s;
    ExtendRun(m, Boot(), run, NextStep(m, s, t, read));
  }

  lemma {:induction false} InterfereReachable(m: Mode, s: System, t: Thread, others: seq<bool>)
    requires !m.atomicGuard && Reachable(m, s)
    ensures Reachable(m, Interfere(m, s, t, others))
  {
    if others == [] {
    } else {
      var s1 := Interfere(m, s, t, others[..|others| - 1]);
      InterfereReachable(m, s, t, others[..|others| - 1]);
      if !s1.restarted {
        StepReachable(m, s1, Other(t), others[|others| - 1]);
      }
    }
  }

  /** The other thread leaves this one where it is. */
  lemma {:induction false} InterfereStaysInPlace(m: Mode, s: System, t: Thread, others: seq<bool>)
    ensures PointOf(Interfere(m, s, t, others), t) == PointOf(s, t)
  {
    if others == [] {
    } else {
      InterfereStaysInPlace(m, s, t, others[..|others| - 1]);
    }
  }

  /** Every schedule is a run of the protocol with the bare guard of the source. */
  lemma {:induction false} ReplayReachable(m: Mode, t: Thread, schedule: seq<Turn>)
    requires !m.atomicGuard
    ensures Reachable(m, Replay(m, Boot(), t, schedule))
  {
    if schedule == [] {
      assert IsRun(m, Boot(), []);
    } else {
      var s, turn := Replay(m, Boot(), t, schedule[..|schedule| - 1]), schedule[|schedule| - 1];
      ReplayReachable(m, t, schedule[..|schedule| - 1]);
      InterfereReachable(m, s, t, turn.others);
      if !Interfere(m, s, t, turn.others).restarted {
        StepReachable(m, Interfere(m, s, t, turn.others), t, turn.mine);
      }
    }
  }

  /** The system that a schedule of thread t leads to when steps of the other thread follow its last turn. */
  function Outcome(m: Mode, t: Thread, schedule: seq<Turn>, others: seq<bool>): System {
    Interfere(m, Replay(m, Boot(), t, schedule), t, others)
  }

  lemma {:induction false} SplitRun(m: Mode, s: System, run: seq<Label>, l: Label)
    requires IsRun(m, s, run + [l])
    ensures IsRun(m, s, run) && Enabled(m, Execute(s, run), l)
    ensures Execute(s, run + [l]) == Apply(Execute(s, run), l)
    decreases run
  {
    var longer := run + [l];
    if run == [] {
      assert longer[0] == l && longer[1..] == [];
    } else {
      assert longer[0] == run[0] && longer[1..] == run[1..] + [l];
      SplitRun(m, Apply(s, run[0]), run[1..], l);
    }
  }

  /** Every run is a schedule, seen from either thread. */
  lemma {:induction false} RunIsSchedule(m: Mode, t: Thread, run: seq<Label>)
    returns (schedule: seq<Turn>, others: seq<bool>)
    requires IsRun(m, Boot(), run)
    ensures Outcome(m, t, schedule, others) == Execute(Boot(), run)
  {
    if run == [] {
      schedule, others := [], [];
    } else {
      var front, l := run[..|run| - 1], run[|run| - 1];
      assert run == front + [l];
      SplitRun(m, Boot(), front, l);
      schedule, others := RunIsSchedule(m, t, front);
      if l.thread == t {
        assert (schedule + [Turn(others, l.input)])[..|schedule|] == schedule;
        schedule, others := schedule + [Turn(others, l.input)], [];
      } else {
        assert (others + [l.input])[..|others|] == others;
        others := others + [l.input];
      }
    }
  }

  /** So the schedules of either thread cover exactly the interleavings of the source. */
  lemma SchedulesAreRuns(m: Mode, t: Thread, s: System)
    requires !m.atomicGuard
    ensures Reachable(m, s) <==> exists schedule, others :: Outcome(m, t, schedule, others) == s
  {
    if Reachable(m, s) {
      var run :| IsRun(m, Boot(), run) && Execute(Boot(), run) == s;
      var schedule, others := RunIsSchedule(m, t, run);
    }
    if schedule, others :| Outcome(m, t, schedule, others) == s {
      ReplayReachable(m, t, schedule);
      InterfereReachable(m, Replay(m, Boot(), t, schedule), t, others);
    }
  }

  /** Every look at the button, whichever of the two threads the schedule is seen from, finds it released. */
  predicate ReleasedIn(t: Thread, schedule: seq<Turn>) {
    if t.Button? then forall i | 0 <= i < |schedule| :: !schedule[i].mine
    else forall i, j | 0 <= i < |schedule| && 0 <= j < |schedule[i].others| :: !schedule[i].others[j]
  }

  /** Whatever is available, a button that is not pressed keeps its thread in the loop. */
  lemma {:induction false} ReplayWaits(m: Mode, schedule: seq<Turn>)
    requires ReleasedIn(Button, schedule)
    ensures Replay(m, Boot(), Button, schedule).button == AtLoop
  {
    if schedule == [] {
    } else {
      ReplayWaits(m, schedule[..|schedule| - 1]);
      InterfereStaysInPlace(m, Replay(m, Boot(), Button, schedule[..|schedule| - 1]), Button,
                            schedule[|schedule| - 1].others);
    }
  }

  lemma {:induction false} InterfereUntouched(m: Mode, s: System, t: Thread, others: seq<bool>)
    requires !m.mayBeAvailable && Untouched(s)
    requires t.Checker? ==> forall j | 0 <= j < |others| :: !others[j]
    ensures Untouched(Interfere(m, s, t, others))
  {
    if others == [] {
    } else {
      InterfereUntouched(m, s, t, others[..|others| - 1]);
    }
  }

  /** With the stub as written a schedule in which the button is not pressed leaves the device as it was. */
  lemma {:induction false} ReplayUntouched(m: Mode, t: Thread, schedule: seq<Turn>)
    requires !m.mayBeAvailable && ReleasedIn(t, schedule)
    ensures Untouched(Replay(m, Boot(), t, schedule))
  {
    if schedule == [] {
    } else {
      var s, turn := Replay(m, Boot(), t, schedule[..|schedule| - 1]), schedule[|schedule| - 1];
      ReplayUntouched(m, t, schedule[..|schedule| - 1]);
      InterfereUntouched(m, s, t, turn.others);
    }
  }

  lemma {:induction false} InterfereAfterRestart(m: Mode, s: System, t: Thread, others: seq<bool>)
    requires s.restarted
    ensures Interfere(m, s, t, others) == s
  {
    if others == [] {
    } else {
      InterfereAfterRestart(m, s, t, others[..|others| - 1]);
    }
  }

  /** Nothing happens after the restart. */
  lemma {:induction false} ReplayAfterRestart(m: Mode, s: System, t: Thread, schedule: seq<Turn>, n: nat)
    requires n <= |schedule| && Replay(m, s, t, schedule[..n]).restarted
    ensures Replay(m, s, t, schedule) == Replay(m, s, t, schedule[..n])
  {
    if n == |schedule| {
      assert schedule[..n] == schedule;
    } else {
      var front := schedule[..|schedule| - 1];
      assert front[..n] == schedule[..n];
      ReplayAfterRestart(m, s, t, front, n);
      InterfereAfterRestart(m, Replay(m, s, t, front), t, schedule[|schedule| - 1].others);
    }
  }
}

/**
 * The manager's own methods. One of its two threads is written out; the other one's steps fall before each
 * step of the first as a schedule says, and the methods are proved to do exactly what the protocol makes of it.
 */
module OtaManagers {
  import opened OtaProtocol
  import opened OtaSchedules

  class OtaManager {
    /** The thread whose code is written out. */
    const me: Thread
    const mayBeAvailable: bool
    const schedule: seq<Turn>
    var turn: nat

    var state: OtaState
    var changes: seq<OtaState>
    var performs: nat
    var restarted: bool
    /** Where the other thread stands. */
    var other: Point
    /** The protocol's account of the same history. */
    ghost var model: System

    /** The guard of the source is bare; the availability stub is a parameter. */
    ghost function TheMode(): Mode {
      AS_WRITTEN.(mayBeAvailable := mayBeAvailable)
    }

    /** The fields are those of a system of the protocol. */
    ghost predicate Mirrors(s: System)
      reads this
    {
      && s.state == state && s.changes == changes && s.performs == performs && s.restarted == restarted
      && PointOf(s, Other(me)) == other
    }

    /** Where the written-out thread stands. */
    ghost function MyPoint(): Point
      reads this`model
    {
      PointOf(model, me)
    }

    ghost predicate Valid()
      reads this
    {
      turn <= |schedule| && Mirrors(model)
    }

    /** Between two turns: everything is as the protocol makes it from the turns taken so far. */
    ghost predicate Settled()
      reads this
    {
      Valid() && model == Replay(TheMode(), Boot(), me, schedule[..turn])
    }

    /** Inside a turn: the other thread has had its share, mine is still to come. */
    ghost predicate Shared(before: System)
      reads this
    {
      && Valid() && turn < |schedule| && !restarted
      && before == Replay(TheMode(), Boot(), me, schedule[..turn])
      && model == Interfere(TheMode(), before, me, schedule[turn].others)
      && MyPoint() == PointOf(before, me)
    }

    ghost predicate Over()
      reads this
    {
      turn == |schedule| || restarted
    }

    constructor (me: Thread, mayBeAvailable: bool, schedule: seq<Turn>)
      ensures Settled() && model == Boot() && turn == 0
      ensures this.me == me && this.mayBeAvailable == mayBeAvailable && this.schedule == schedule
    {
      this.me, this.mayBeAvailable, this.schedule := me, mayBeAvailable, schedule;
      turn := 0;
      state, changes, performs, restarted, other := Idle, [], 0, false, AtLoop;
      model := Boot();
    }

    method SetState(newState: OtaState)
      modifies this`state, this`changes
      ensures state == newState
      ensures changes == old(changes) + if old(state) == newState then [] else [newState]
    {
      if state != newState {
        state := newState;
        changes := changes + [newState];
      }
    }

    /** The other thread's next step. */
    method OtherStep(read: bool)
      requires Valid() && !restarted
      modifies this`state, this`changes, this`performs, this`restarted, this`other, this`model
      ensures Valid()
      ensures model == Apply(old(model), Step(Other(me), read && (old(other) != AtAvailability || mayBeAvailable)))
    {
      var input := read && (other != AtAvailability || mayBeAvailable);
      ghost var next := Apply(model, Step(Other(me), input));
      match other {
        case AtLoop =>
          if me.Checker? {
            other := if input then AtGuard else AtLoop;
          } else {
            other := if state == Idle then AtAvailability else AtLoop;
          }
        case AtAvailability =>
          other := if input then AtGuard else AtLoop;
        case AtGuard =>
          if state == Idle {
            performs := performs + 1;
            other := AtPerform;
          } else {
            other := AtLoop;
          }
        case AtPerform =>
          SetState(Checking);
          other := AtDownload;
        case AtDownload =>
          SetState(Downloading);
          other := AtInstall;
        case AtInstall =>
          SetState(if input then Success else Failed);
          other := AtRestart;
        case AtRestart =>
          restarted := true;
      }
      model := next;
    }

    method OtherSteps(others: seq<bool>)
      requires Valid()
      modifies this`state, this`changes, this`performs, this`restarted, this`other, this`model
      ensures Valid() && model == Interfere(TheMode(), old(model), me, others)
    {
      for i := 0 to |others|
        invariant Valid() && model == Interfere(TheMode(), old(model), me, others[..i])
      {
        assert others[..i + 1][..i] == others[..i];
        if !restarted {
          OtherStep(others[i]);
        }
      }
      assert others[..|others|] == others;
    }

    /** The other thread's share of the turn that begins; false when there is no turn or the device restarts. */
    method Others() returns (go: bool)
      requires Settled() && !restarted
      modifies this
      ensures go ==> turn == old(turn) && Shared(old(model))
      ensures !go ==> Settled() && if restarted then turn == old(turn) + 1 else turn == old(turn) == |schedule|
    {
      if turn == |schedule| {
        return false;
      }
      ghost var before := model;
      OtherSteps(schedule[turn].others);
      InterfereStaysInPlace(TheMode(), before, me, schedule[turn].others);
      if restarted {
        Finish(before);
        return false;
      }
      return true;
    }

    /** Ends a turn in which the fields have become what the protocol makes of it. */
    method Finish(ghost before: System)
      requires turn < |schedule| && before == Replay(TheMode(), Boot(), me, schedule[..turn])
      requires Mirrors(TakeTurn(TheMode(), before, me, schedule[turn]))
      modifies this`turn, this`model
      ensures Settled() && turn == old(turn) + 1
      ensures model == TakeTurn(TheMode(), before, me, schedule[old(turn)])
    {
      model := TakeTurn(TheMode(), before, me, schedule[turn]);
      ReplayNext(TheMode(), Boot(), me, schedule, turn);
      turn := turn + 1;
    }

    /** The whole schedule, from what was replayed when it was over. */
    lemma OverIsAll()
      requires Settled() && Over()
      ensures Mirrors(Replay(TheMode(), Boot(), me, schedule))
      ensures Reachable(TheMode(), Replay(TheMode(), Boot(), me, schedule))
      ensures !mayBeAvailable ==> performs <= 1 && Advancing(changes)
      ensures performs <= 2 && (PointOf(Replay(TheMode(), Boot(), me, schedule), me) == AtLoop ==> performs <= 1)
      ensures !mayBeAvailable && ReleasedIn(me, schedule) ==> performs == 0 && changes == [] && !restarted
    {
      if !mayBeAvailable && ReleasedIn(me, schedule) {
        ReplayUntouched(TheMode(), me, schedule);
      }
      ReplayReachable(TheMode(), me, schedule);
      if turn == |schedule| {
        assert schedule[..turn] == schedule;
      } else {
        ReplayAfterRestart(TheMode(), Boot(), me, schedule, turn);
      }
      var run :| IsRun(TheMode(), Boot(), run) && Execute(Boot(), run) == Replay(TheMode(), Boot(), me, schedule);
      AtMostTwoUpdates(TheMode(), run);
      if !mayBeAvailable {
        GuardedRuns(TheMode(), run);
      }
    }

    /** monitorButton: fields end exactly as the protocol makes them from the whole schedule. */
    method MonitorButton()
      requires Settled() && model == Boot() && me.Button?
      modifies this
      ensures Mirrors(Replay(TheMode(), Boot(), me, schedule))
      ensures performs <= 2 && (!mayBeAvailable ==> performs <= 1 && Advancing(changes))
      ensures !mayBeAvailable && ReleasedIn(me, schedule) ==> performs == 0 && changes == [] && !restarted
      ensures ReleasedIn(me, schedule) ==> Replay(TheMode(), Boot(), me, schedule).button == AtLoop && performs <= 1
    {
      var go, pressed := true, false;
      while go
        invariant Settled() && (go ==> !restarted && MyPoint() == AtLoop) && (!go ==> Over())
        decreases |schedule| - turn, go
      {
        ghost var before := model;
        go := Others();
        if go {
          pressed := schedule[turn].mine;
          Finish(before);
          if pressed {
            go := EnterOtaMode();
          }
        }
      }
      OverIsAll();
      if ReleasedIn(me, schedule) {
        ReplayWaits(TheMode(), schedule);
      }
    }

    /** checkForOtaUpdates: the same for the other thread. */
    method CheckForOtaUpdates()
      requires Settled() && model == Boot() && me.Checker?
      modifies this
      ensures Mirrors(Replay(TheMode(), Boot(), me, schedule))
      ensures performs <= 2 && (!mayBeAvailable ==> performs <= 1 && Advancing(changes))
      ensures !mayBeAvailable && ReleasedIn(me, schedule) ==> performs == 0 && changes == [] && !restarted
    {
      var go, idle := true, false;
      while go
        invariant Settled() && (go ==> !restarted && MyPoint() == AtLoop) && (!go ==> Over())
        decreases |schedule| - turn, go
      {
        ghost var before := model;
        go := Others();
        if go {
          idle := state == Idle;
          Finish(before);
          if idle {
            go := AskAndEnter();
          }
        }
      }
      OverIsAll();
    }

    /** checkOtaAvailability, and an update if it answers true. */
    method AskAndEnter() returns (go: bool)
      requires Settled() && !restarted && MyPoint() == AtAvailability
      modifies this
      ensures Settled() && turn >= old(turn)
      ensures if go then !restarted && MyPoint() == AtLoop && turn > old(turn) else Over()
    {
      ghost var before := model;
      go := Others();
      if go {
        var available := schedule[turn].mine && mayBeAvailable;
        Finish(before);
        if available {
          go := EnterOtaMode();
        }
      }
    }

    /** The guard, and the update if the state was still Idle. */
    method EnterOtaMode() returns (go: bool)
      requires Settled() && !restarted && MyPoint() == AtGuard
      modifies this
      ensures Settled() && turn >= old(turn)
      ensures if go then !restarted && MyPoint() == AtLoop && turn == old(turn) + 1 else Over()
      ensures go ==>
                && state != Idle
                && performs == Interfere(TheMode(), old(model), me, schedule[old(turn)].others).performs
    {
      var passed;
      go, passed := PassGuard();
      if go && passed {
        PerformOtaUpdate();
        go := false;
      }
    }

    /** The test of the guard; when the state is Idle, performOtaUpdate is called. */
    method PassGuard() returns (go: bool, passed: bool)
      requires Settled() && !restarted && MyPoint() == AtGuard
      modifies this
      ensures Settled() && turn >= old(turn)
      ensures if go then !restarted && turn == old(turn) + 1 else Over()
      ensures go ==> var seen := Interfere(TheMode(), old(model), me, schedule[old(turn)].others);
                && passed == (seen.state == Idle) && state == seen.state
                && performs == seen.performs + (if passed then 1 else 0)
                && MyPoint() == if passed then AtPerform else AtLoop
    {
      passed := false;
      ghost var before := model;
      go := Others();
      if go {
        passed := state == Idle;
        if passed {
          performs := performs + 1;
        }
        Finish(before);
      }
    }

    /** performOtaUpdate: once it has begun, nothing but the end of the schedule keeps it from the restart. */
    method PerformOtaUpdate()
      requires Settled() && !restarted && MyPoint() == AtPerform
      modifies this
      ensures Settled() && Over() && turn >= old(turn)
      ensures |schedule| >= old(turn) + 4 ==> restarted
    {
      var go := EnterState(Checking);
      if !go { return; }
      go := EnterState(Downloading);
      if !go { return; }
      go := Install();
      if !go { return; }
      RestartDevice();
    }

    /** One of the update's unconditional state changes. */
    method EnterState(newState: OtaState) returns (go: bool)
      requires Settled() && !restarted
      requires (newState == Checking && MyPoint() == AtPerform) || (newState == Downloading && MyPoint() == AtDownload)
      modifies this
      ensures Settled()
      ensures if go then !restarted && turn == old(turn) + 1 else Over() && turn >= old(turn)
      ensures !go && !restarted ==> turn == old(turn) == |schedule|
      ensures go ==> state == newState && MyPoint() == if newState == Checking then AtDownload else AtInstall
    {
      ghost var before := model;
      go := Others();
      if go {
        SetState(newState);
        Finish(before);
      }
    }

    /** Fetches and installs, and enters the state that tells how it went. */
    method Install() returns (go: bool)
      requires Settled() && !restarted && MyPoint() == AtInstall
      modifies this
      ensures Settled()
      ensures if go then !restarted && turn == old(turn) + 1 else Over() && turn >= old(turn)
      ensures !go && !restarted ==> turn == old(turn) == |schedule|
      ensures go ==> state == (if schedule[old(turn)].mine then Success else Failed) && MyPoint() == AtRestart
    {
      ghost var before := model;
      go := Others();
      if go {
        if schedule[turn].mine {
          SetState(Success);
        } else {
          SetState(Failed);
        }
        Finish(before);
      }
    }

    /** The delay is part of the schedule; what remains is the restart. */
    method RestartDevice()
      requires Settled() && !restarted && MyPoint() == AtRestart
      modifies this
      ensures Settled() && Over() && turn >= old(turn)
      ensures old(turn) < |schedule| ==> restarted
    {
      ghost var before := model;
      var go := Others();
      if go {
        restarted := true;
        Finish(before);
      }
    }
  }
}
