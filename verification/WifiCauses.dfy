/** Why the reconnect task acts: what it sees and does, told from what the other threads did before. */
module WifiCauses {
  import opened WifiProtocol
  import opened WifiSchedules

  /** The state that the last setState of a run leaves. */
  function LastSet(before: WifiState, run: seq<Label>): WifiState {
    if run == [] then before
    else
      var l := run[|run| - 1];
      if l.SetDisconnected? then Disconnected
      else if l.StaStart? then Connecting
      else if l.GotIpSetState? then Connected
      else LastSet(before, run[..|run| - 1])
  }

  lemma {:induction false} LastSetFirst(before: WifiState, run: seq<Label>)
    requires run != []
    ensures LastSet(before, run) == LastSet(LastSet(before, [run[0]]), run[1..])
  {
    if |run| == 1 {
      assert run == [run[0]] && run[1..] == [];
    } else {
      var front := run[..|run| - 1];
      LastSetFirst(before, front);
      assert run[1..][..|run| - 2] == front[1..];
    }
  }

  /** In every interleaving the state is that of the last setState, whoever called it. */
  lemma {:induction false} StateIsLastSet(m: Mode, s: System, run: seq<Label>)
    requires IsRun(m, s, run)
    ensures Execute(s, run).state == LastSet(s.state, run)
    decreases run
  {
    if run == [] {
    } else {
      assert [run[0]][..0] == [];
      StateIsLastSet(m, Apply(s, run[0]), run[1..]);
      LastSetFirst(s.state, run);
    }
  }

  /** How often a label occurs. */
  function Times(run: seq<Label>, l: Label): nat {
    if run == [] then 0 else One(run[0] == l) + Times(run[1..], l)
  }

  function One(b: bool): nat {
    if b then 1 else 0
  }

  lemma HandlerStep(m: Mode, s: System, l: Label)
    requires Enabled(m, s, l)
    ensures var t := Apply(s, l);
      && t.disconnecting == s.disconnecting + One(l == SetDisconnected) - One(l == NotifyDisconnected)
      && t.gotIpSet == s.gotIpSet + One(l == GotIpSetState) - One(l == GotIpReset)
      && t.gotIpReset == s.gotIpReset + One(l == GotIpReset) - One(l == GotIpNotify)
  {
  }

  /** No step of a handler is lost or doubled: those under way are the begun ones that have not ended. */
  lemma {:induction false} HandlersAccounted(m: Mode, s: System, run: seq<Label>)
    requires IsRun(m, s, run)
    ensures var t := Execute(s, run);
      && t.disconnecting == s.disconnecting + Times(run, SetDisconnected) - Times(run, NotifyDisconnected)
      && t.gotIpSet == s.gotIpSet + Times(run, GotIpSetState) - Times(run, GotIpReset)
      && t.gotIpReset == s.gotIpReset + Times(run, GotIpReset) - Times(run, GotIpNotify)
    decreases run
  {
    if run == [] {
    } else {
      HandlerStep(m, s, run[0]);
      HandlersAccounted(m, Apply(s, run[0]), run[1..]);
    }
  }

  /** A sleeping task that is notified looks again; any other stays where it is. */
  function Notified(p: Point): Point {
    if p.Parked? then EvalPredicate else p
  }

  /** A caller of reconnect that nobody disturbs is always possible, and this is all it does. */
  lemma UndisturbedDisconnect(m: Mode, s: System)
    requires OthersMayRun(m, s) && !s.point.Halted?
    ensures IsRun(m, s, [SetDisconnected, NotifyDisconnected])
    ensures Execute(s, [SetDisconnected, NotifyDisconnected]) == s.(state := Disconnected, point := Notified(s.point))
  {
    var s1 := Apply(s, SetDisconnected);
    Single(m, s1, NotifyDisconnected);
    assert [SetDisconnected, NotifyDisconnected][1..] == [NotifyDisconnected];
  }

  lemma Single(m: Mode, s: System, l: Label)
    requires Enabled(m, s, l)
    ensures IsRun(m, s, [l]) && Execute(s, [l]) == Apply(s, l)
  {
    assert [l][1..] == [];
  }

  /** The same of a GOT_IP handler. */
  lemma UndisturbedGotIp(m: Mode, s: System)
    requires OthersMayRun(m, s) && !s.point.Halted?
    ensures IsRun(m, s, [GotIpSetState, GotIpReset, GotIpNotify])
    ensures Execute(s, [GotIpSetState, GotIpReset, GotIpNotify])
            == s.(state := Connected, count := 0, log := s.log + [CounterReset], point := Notified(s.point))
  {
    var s1 := Apply(s, GotIpSetState);
    var s2 := Apply(s1, GotIpReset);
    Single(m, s2, GotIpNotify);
    assert [GotIpReset, GotIpNotify][1..] == [GotIpNotify];
    assert [GotIpSetState, GotIpReset, GotIpNotify][1..] == [GotIpReset, GotIpNotify];
  }

  /** The same of a STA_START handler up to its connect call, of a check that fails, and of an unasked wake-up. */
  lemma UndisturbedOthers(m: Mode, s: System)
    requires OthersMayRun(m, s) && !s.point.Halted?
    ensures IsRun(m, s, [StaStart]) && Execute(s, [StaStart]) == s.(state := Connecting)
    ensures IsRun(m, s, [CheckFails]) && Execute(s, [CheckFails]) == s.(point := Halted(FailedCheck))
    ensures s.point.Parked? ==>
              IsRun(m, s, [SpuriousWake]) && Execute(s, [SpuriousWake]) == s.(point := Notified(s.point))
  {
    Single(m, s, StaStart);
    Single(m, s, CheckFails);
    if s.point.Parked? {
      Single(m, s, SpuriousWake);
    }
  }

  /** A look at the predicate begins a round exactly if the last setState before it was of DISCONNECTED. */
  lemma RoundBeginsIff(m: Mode, run: seq<Label>)
    requires IsRun(m, Boot(), run + [Task]) && Execute(Boot(), run).point == EvalPredicate
    ensures Execute(Boot(), run + [Task]).point
            == if LastSet(NotInitialized, run) == Disconnected then TestCount else Parking
  {
    SplitRun(m, Boot(), run, Task);
    StateIsLastSet(m, Boot(), run);
  }

  /** A round is logged as connected exactly if the last setState before its end was of CONNECTED. */
  lemma RoundEndTells(m: Mode, run: seq<Label>)
    requires IsRun(m, Boot(), run + [Task]) && Execute(Boot(), run).point == TestConnected
    ensures Execute(Boot(), run + [Task]).log
            == Execute(Boot(), run).log + [RoundEnd(LastSet(NotInitialized, run) == Connected)]
  {
    SplitRun(m, Boot(), run, Task);
    StateIsLastSet(m, Boot(), run);
  }

  /** Between two rounds, with no disconnect in sight. */
  ghost predicate Resting(s: System) {
    && s.state != Disconnected
    && (s.point.EvalPredicate? || s.point.Parking? || s.point.Parked? || s.point == Halted(FailedCheck))
  }

  lemma RestStep(m: Mode, s: System, l: Label)
    requires Resting(s) && Enabled(m, s, l) && l != SetDisconnected
    ensures var t := Apply(s, l);
      Resting(t) && (t.log == s.log || t.log == s.log + [CounterReset]) && (t.count == 0 || t.count == s.count)
  {
  }

  /**
   * Unless somebody announces a disconnect, a resting task rests: it makes no connect call, no increment, no
   * wait and no restart, whatever else the other threads do and however often it wakes up.
   */
  lemma {:induction false} NoConnectUnasked(m: Mode, s: System, run: seq<Label>)
    requires Resting(s) && IsRun(m, s, run) && SetDisconnected !in run
    ensures Resting(Execute(s, run))
    ensures TaskEvents(Execute(s, run).log) == TaskEvents(s.log)
    ensures ConnectCall !in s.log ==> ConnectCall !in Execute(s, run).log
    ensures s.count == 0 ==> Execute(s, run).count == 0
    decreases run
  {
    if run == [] {
    } else {
      RestStep(m, s, run[0]);
      TaskEventsAppend(s.log, CounterReset);
      NoConnectUnasked(m, Apply(s, run[0]), run[1..]);
    }
  }

  ghost predicate NoDisconnect(schedule: seq<Turn>) {
    forall i | 0 <= i < |schedule| :: SetDisconnected !in schedule[i].others
  }

  lemma {:induction false} InterfereRests(s: System, others: seq<Label>)
    requires Resting(s) && SetDisconnected !in others && forall j | 0 <= j < |others| :: Foreign(others[j])
    ensures Resting(Interfere(s, others))
    ensures s.count == 0 ==> Interfere(s, others).count == 0
  {
    if others == [] {
    } else {
      assert others[|others| - 1] in others;
      InterfereRests(s, others[..|others| - 1]);
    }
  }

  /** The same of schedules: without a disconnect the whole replay is without any event of the task. */
  lemma {:induction false} ReplayRests(schedule: seq<Turn>)
    requires AllForeign(schedule) && NoDisconnect(schedule)
    ensures var s := Replay(Boot(), schedule);
      Resting(s) && TaskEvents(s.log) == [] && s.count == 0
  {
    if schedule == [] {
    } else {
      var s, turn := Replay(Boot(), schedule[..|schedule| - 1]), schedule[|schedule| - 1];
      ReplayRests(schedule[..|schedule| - 1]);
      InterfereRests(s, turn.others);
      InterfereIsSilent(s, turn.others);
    }
  }
}
