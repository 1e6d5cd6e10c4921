/**
 * setState of a logged object (lib/Patterns/StatefulObject.hpp) at its real granularity: any number of
 * threads, each of which tests, stores, reads the state again for its name, and pushes the entry.
 */
module SetStateProtocol {
  import opened LogHistory
  import opened LoggedFleet

  /** Where a call stands once its test has found a different state. */
  datatype Point<S> =
    | Storing(id: string, wanted: S)
    | Naming(id: string)
    | Pushing(id: string, named: S)

  /** Objects, calls in progress by thread, every store so far, and the changes pushed to the log. */
  datatype System<S> = System(
    states: map<string, S>,
    threads: map<nat, Point<S>>,
    stores: seq<Call<S>>,
    changes: seq<Call<S>>)

  /** A thread calls setState and makes its test, or takes the next step of the call it is in. */
  datatype Label<S> = Test(who: nat, call: Call<S>) | Step(who: nat)

  /** atomic: setState with its logging is one step. The source does not lock it. */
  datatype Mode = Mode(atomic: bool)

  function Boot<S>(initial: map<string, S>): System<S> {
    System(initial, map[], [], [])
  }

  predicate Quiescent<S>(s: System<S>) {
    |s.threads| == 0
  }

  predicate Enabled<S>(m: Mode, s: System<S>, l: Label<S>) {
    match l
    case Test(who, call) => who !in s.threads && call.id in s.states && (m.atomic ==> Quiescent(s))
    case Step(who) => who in s.threads && s.threads[who].id in s.states
  }

  function Apply<S(==)>(m: Mode, s: System<S>, l: Label<S>): System<S>
    requires Enabled(m, s, l)
  {
    match l
    case Test(who, call) =>
      if s.states[call.id] == call.state then s
      else s.(threads := s.threads[who := Storing(call.id, call.state)])
    case Step(who) =>
      match s.threads[who]
      case Storing(id, wanted) =>
        s.(states := s.states[id := wanted],
           stores := s.stores + [Call(id, wanted)],
           threads := s.threads[who := Naming(id)])
      case Naming(id) => s.(threads := s.threads[who := Pushing(id, s.states[id])])
      case Pushing(id, named) => s.(threads := s.threads - {who}, changes := s.changes + [Call(id, named)])
  }

  predicate IsRun<S(==)>(m: Mode, s: System<S>, run: seq<Label<S>>)
    decreases run
  {
    run == [] || (Enabled(m, s, run[0]) && IsRun(m, Apply(m, s, run[0]), run[1..]))
  }

  function Execute<S(==)>(m: Mode, s: System<S>, run: seq<Label<S>>): System<S>
    requires IsRun(m, s, run)
    decreases run
  {
    if run == [] then s else Execute(m, Apply(m, s, run[0]), run[1..])
  }

  /** States and log, as the sequential account has them. */
  function FleetOf<S>(s: System<S>): Fleet<S> {
    Fleet(s.states, s.changes)
  }

  // ----- At any granularity -----

  /** The calls on one object that have stored and not yet logged. */
  function Pending<S>(s: System<S>, id: string): set<nat> {
    set who | who in s.threads && s.threads[who].id == id && !s.threads[who].Storing?
  }

  /** The current state of the object is in the log, or on its way into it. */
  ghost predicate Told<S>(s: System<S>, id: string)
    requires id in s.states
  {
    || s.states[id] in StatesOf(s.changes, id)
    || exists who | who in s.threads ::
         s.threads[who] == Naming(id) || s.threads[who] == Pushing(id, s.states[id])
  }

  ghost predicate Inv<S>(start: S, s: System<S>, id: string) {
    var stored, logged := StatesOf(s.stores, id), StatesOf(s.changes, id);
    && id in s.states && s.states[id] == ([start] + stored)[|stored|]
    && |logged| + |Pending(s, id)| == |stored|
    && (forall x | x in logged :: x in stored)
    && (forall who | who in s.threads && s.threads[who].id == id ::
          && (s.threads[who].Naming? ==> stored != [])
          && (s.threads[who].Pushing? ==> s.threads[who].named in stored))
    && (stored != [] ==> Told(s, id))
  }

  /** What happens to other objects is of no account. */
  ghost predicate SameFor<S>(s: System<S>, t: System<S>, id: string)
    requires id in s.states && id in t.states
  {
    && t.states[id] == s.states[id]
    && StatesOf(t.stores, id) == StatesOf(s.stores, id) && StatesOf(t.changes, id) == StatesOf(s.changes, id)
    && (forall who :: who in s.threads && s.threads[who].id == id && !s.threads[who].Storing?
                      <==> who in t.threads && t.threads[who].id == id && !t.threads[who].Storing?)
    && (forall who | who in s.threads && s.threads[who].id == id && !s.threads[who].Storing? ::
          t.threads[who] == s.threads[who])
  }

  lemma InvElsewhere<S>(start: S, s: System<S>, t: System<S>, id: string)
    requires Inv(start, s, id) && id in t.states && SameFor(s, t, id)
    ensures Inv(start, t, id)
  {
    assert Pending(t, id) == Pending(s, id);
  }

  lemma InvTest<S>(m: Mode, start: S, s: System<S>, l: Label<S>, id: string)
    requires Inv(start, s, id) && l.Test? && Enabled(m, s, l)
    ensures Inv(start, Apply(m, s, l), id)
  {
    InvElsewhere(start, s, Apply(m, s, l), id);
  }

  lemma InvStoreElsewhere<S>(m: Mode, start: S, s: System<S>, who: nat, id: string)
    requires Inv(start, s, id) && Enabled(m, s, Step(who)) && s.threads[who].Storing? && s.threads[who].id != id
    ensures Inv(start, Apply(m, s, Step(who)), id)
  {
    StatesOfAppend(s.stores, Call(s.threads[who].id, s.threads[who].wanted), id);
    InvElsewhere(start, s, Apply(m, s, Step(who)), id);
  }

  lemma InvStore<S>(m: Mode, start: S, s: System<S>, who: nat, id: string)
    requires Inv(start, s, id) && Enabled(m, s, Step(who)) && s.threads[who].Storing? && s.threads[who].id == id
    ensures Inv(start, Apply(m, s, Step(who)), id)
  {
    var t, c := Apply(m, s, Step(who)), Call(id, s.threads[who].wanted);
    StatesOfAppend(s.stores, c, id);
    assert Pending(t, id) == Pending(s, id) + {who};
    assert t.threads[who] == Naming(id);
    var stored := StatesOf(t.stores, id);
    assert ([start] + stored)[|stored|] == c.state;
  }

  lemma InvName<S>(m: Mode, start: S, s: System<S>, who: nat, id: string)
    requires Inv(start, s, id) && Enabled(m, s, Step(who)) && s.threads[who].Naming?
    ensures Inv(start, Apply(m, s, Step(who)), id)
  {
    var t := Apply(m, s, Step(who));
    assert Pending(t, id) == Pending(s, id);
    assert forall w | w in s.threads && w != who :: t.threads[w] == s.threads[w];
    assert s.threads[who].id == id ==> t.threads[who] == Pushing(id, s.states[id]);
  }

  lemma InvPushElsewhere<S>(m: Mode, start: S, s: System<S>, who: nat, id: string)
    requires Inv(start, s, id) && Enabled(m, s, Step(who)) && s.threads[who].Pushing? && s.threads[who].id != id
    ensures Inv(start, Apply(m, s, Step(who)), id)
  {
    StatesOfAppend(s.changes, Call(s.threads[who].id, s.threads[who].named), id);
    InvElsewhere(start, s, Apply(m, s, Step(who)), id);
  }

  lemma InvPush<S>(m: Mode, start: S, s: System<S>, who: nat, id: string)
    requires Inv(start, s, id) && Enabled(m, s, Step(who)) && s.threads[who].Pushing? && s.threads[who].id == id
    ensures Inv(start, Apply(m, s, Step(who)), id)
  {
    var t := Apply(m, s, Step(who));
    StatesOfAppend(s.changes, Call(id, s.threads[who].named), id);
    assert Pending(s, id) == Pending(t, id) + {who};
    assert forall w | w in s.threads && w != who :: w in t.threads && t.threads[w] == s.threads[w];
  }

  lemma InvStep<S>(m: Mode, start: S, s: System<S>, l: Label<S>, id: string)
    requires Inv(start, s, id) && Enabled(m, s, l)
    ensures Inv(start, Apply(m, s, l), id)
  {
    if l.Test? {
      InvTest(m, start, s, l, id);
    } else if s.threads[l.who].Naming? {
      InvName(m, start, s, l.who, id);
    } else if s.threads[l.who].Storing? {
      if s.threads[l.who].id == id {
        InvStore(m, start, s, l.who, id);
      } else {
        InvStoreElsewhere(m, start, s, l.who, id);
      }
    } else if s.threads[l.who].id == id {
      InvPush(m, start, s, l.who, id);
    } else {
      InvPushElsewhere(m, start, s, l.who, id);
    }
  }

  lemma {:induction false} InvAlong<S>(m: Mode, start: S, s: System<S>, run: seq<Label<S>>, id: string)
    requires Inv(start, s, id) && IsRun(m, s, run)
    ensures Inv(start, Execute(m, s, run), id)
    decreases run
  {
    if run == [] {
    } else {
      InvStep(m, start, s, run[0], id);
      InvAlong(m, start, Apply(m, s, run[0]), run[1..], id);
    }
  }

  /**
   * Whatever the interleaving, once all calls have returned an object has as many entries as it was stored to,
   * each of them names a state that was stored, and its current state is among them.
   */
  lemma EveryStoreIsLogged<S>(m: Mode, initial: map<string, S>, run: seq<Label<S>>, id: string)
    requires id in initial && IsRun(m, Boot(initial), run)
    requires Quiescent(Execute(m, Boot(initial), run))
    ensures var s := Execute(m, Boot(initial), run);
      var stored, logged := StatesOf(s.stores, id), StatesOf(s.changes, id);
      && |logged| == |stored|
      && (forall x | x in logged :: x in stored)
      && id in s.states && s.states[id] == ([initial[id]] + stored)[|stored|]
      && (stored != [] ==> s.states[id] in logged)
  {
    assert Pending(Boot(initial), id) == {};
    InvAlong(m, initial[id], Boot(initial), run, id);
    var s := Execute(m, Boot(initial), run);
    assert Pending(s, id) == {};
  }

  // ----- When a call is one step -----

  /** What the one call in progress has made of the fleet it found. */
  ghost predicate InFlight<S>(f: Fleet<S>, s: System<S>, point: Point<S>) {
    && point.id in f.states && s.changes == f.changes
    && match point
       case Storing(id, wanted) => s.states == f.states && f.states[id] != wanted
       case Naming(id) => id in s.states && s.states == f.states[id := s.states[id]] && s.states[id] != f.states[id]
       case Pushing(id, named) => s.states == f.states[id := named] && named != f.states[id]
  }

  /** The calls that have returned explain everything but the call in progress. */
  ghost predicate Explained<S>(initial: map<string, S>, calls: seq<Call<S>>, s: System<S>) {
    && AllKnown(initial, calls)
    && var f := Run(initial, calls);
       if Quiescent(s) then FleetOf(s) == f
       else exists who | who in s.threads :: s.threads.Keys == {who} && InFlight(f, s, s.threads[who])
  }

  lemma ExplainedStep<S>(m: Mode, initial: map<string, S>, calls: seq<Call<S>>, s: System<S>, l: Label<S>)
    returns (later: seq<Call<S>>)
    requires m.atomic && Explained(initial, calls, s) && Enabled(m, s, l)
    ensures Explained(initial, later, Apply(m, s, l))
  {
    var f, t := Run(initial, calls), Apply(m, s, l);
    later := calls;
    if l.Test? {
      if s.states[l.call.id] != l.call.state {
        assert t.threads.Keys == {l.who} && InFlight(f, t, t.threads[l.who]);
      }
    } else {
      var point := s.threads[l.who];
      if point.Pushing? {
        var call := Call(point.id, point.named);
        later := calls + [call];
        assert later[..|calls|] == calls;
        assert t.threads == map[];
      } else {
        assert t.threads.Keys == {l.who} && InFlight(f, t, t.threads[l.who]);
      }
    }
  }

  lemma {:induction false} ExplainedAlong<S>(
    m: Mode, initial: map<string, S>, calls: seq<Call<S>>, s: System<S>, run: seq<Label<S>>)
    returns (later: seq<Call<S>>)
    requires m.atomic && Explained(initial, calls, s) && IsRun(m, s, run)
    ensures Explained(initial, later, Execute(m, s, run))
    decreases run
  {
    later := calls;
    if run == [] {
    } else {
      later := ExplainedStep(m, initial, calls, s, run[0]);
      later := ExplainedAlong(m, initial, later, Apply(m, s, run[0]), run[1..]);
    }
  }

  /** If setState with its logging is one step, what the threads leave behind is the work of calls in sequence. */
  lemma AtomicIsSequential<S>(m: Mode, initial: map<string, S>, run: seq<Label<S>>) returns (calls: seq<Call<S>>)
    requires m.atomic && IsRun(m, Boot(initial), run) && Quiescent(Execute(m, Boot(initial), run))
    ensures AllKnown(initial, calls) && FleetOf(Execute(m, Boot(initial), run)) == Run(initial, calls)
  {
    calls := ExplainedAlong(m, initial, [], Boot(initial), run);
  }

  // ----- When only the calls on one object keep apart -----

  /** At most one thread is in a call on this object. */
  ghost predicate OneAtATime<S>(s: System<S>, id: string) {
    forall v, w | v in s.threads && w in s.threads && s.threads[v].id == id && s.threads[w].id == id :: v == w
  }

  ghost predicate NeverOverlaps<S>(m: Mode, s: System<S>, run: seq<Label<S>>, id: string)
    requires IsRun(m, s, run)
    decreases run
  {
    OneAtATime(s, id) && (run != [] ==> NeverOverlaps(m, Apply(m, s, run[0]), run[1..], id))
  }

  /** What the log of the object says while at most one call on it is under way. */
  ghost predicate Truthful<S>(initial: map<string, S>, s: System<S>, id: string)
    requires id in initial
  {
    var lived := Lived(initial, FleetOf(s), id);
    var last := lived[|lived| - 1];
    && id in s.states && NoStutter(lived)
    && (forall who | who in s.threads && s.threads[who].id == id ::
          match s.threads[who]
          case Storing(_, wanted) => last == s.states[id] != wanted
          case Naming(_) => last != s.states[id]
          case Pushing(_, named) => named == s.states[id] != last)
    && ((forall who | who in s.threads :: s.threads[who].id != id) ==> last == s.states[id])
  }

  lemma LivedAppend<S>(initial: map<string, S>, f: Fleet<S>, c: Call<S>, id: string)
    requires id in initial
    ensures Lived(initial, f.(changes := f.changes + [c]), id)
            == Lived(initial, f, id) + if c.id == id then [c.state] else []
  {
    StatesOfAppend(f.changes, c, id);
  }

  lemma TruthfulTest<S>(m: Mode, initial: map<string, S>, s: System<S>, l: Label<S>, id: string)
    requires id in initial && Truthful(initial, s, id) && l.Test? && Enabled(m, s, l)
    requires OneAtATime(Apply(m, s, l), id)
    ensures Truthful(initial, Apply(m, s, l), id)
  {
    var t := Apply(m, s, l);
    if l.call.id == id && t != s {
      assert t.threads[l.who].id == id;
      assert forall w | w in s.threads :: w in t.threads && t.threads[w] == s.threads[w];
    } else {
      assert forall w | w in s.threads :: w in t.threads && t.threads[w] == s.threads[w];
    }
  }

  lemma TruthfulStep<S>(m: Mode, initial: map<string, S>, s: System<S>, who: nat, id: string)
    requires id in initial && Truthful(initial, s, id) && Enabled(m, s, Step(who)) && OneAtATime(s, id)
    requires !s.threads[who].Pushing?
    ensures Truthful(initial, Apply(m, s, Step(who)), id)
  {
    var t := Apply(m, s, Step(who));
    assert forall w | w in s.threads && w != who :: w in t.threads && t.threads[w] == s.threads[w];
    assert t.threads[who].id == s.threads[who].id;
  }

  lemma TruthfulPush<S>(m: Mode, initial: map<string, S>, s: System<S>, who: nat, id: string)
    requires id in initial && Truthful(initial, s, id) && Enabled(m, s, Step(who)) && OneAtATime(s, id)
    requires s.threads[who].Pushing?
    ensures Truthful(initial, Apply(m, s, Step(who)), id)
  {
    var t, c := Apply(m, s, Step(who)), Call(s.threads[who].id, s.threads[who].named);
    LivedAppend(initial, FleetOf(s), c, id);
    assert forall w | w in s.threads && w != who :: w in t.threads && t.threads[w] == s.threads[w];
    if c.id == id {
      NoStutterAppend(Lived(initial, FleetOf(s), id), c.state);
    }
  }

  lemma {:induction false} TruthfulAlong<S>(
    m: Mode, initial: map<string, S>, s: System<S>, run: seq<Label<S>>, id: string)
    requires id in initial && Truthful(initial, s, id) && IsRun(m, s, run) && NeverOverlaps(m, s, run, id)
    ensures Truthful(initial, Execute(m, s, run), id)
    decreases run
  {
    if run == [] {
    } else {
      if run[0].Test? {
        TruthfulTest(m, initial, s, run[0], id);
      } else if s.threads[run[0].who].Pushing? {
        TruthfulPush(m, initial, s, run[0].who, id);
      } else {
        TruthfulStep(m, initial, s, run[0].who, id);
      }
      TruthfulAlong(m, initial, Apply(m, s, run[0]), run[1..], id);
    }
  }

  /**
   * At the granularity of the source: an object's log is faithful as soon as the calls on that object keep
   * apart, however the calls on other objects overlap with them and with each other.
   */
  lemma KeptApartIsFaithful<S>(m: Mode, initial: map<string, S>, run: seq<Label<S>>, id: string)
    requires id in initial && IsRun(m, Boot(initial), run) && NeverOverlaps(m, Boot(initial), run, id)
    requires forall who | who in Execute(m, Boot(initial), run).threads ::
               Execute(m, Boot(initial), run).threads[who].id != id
    ensures Faithful(initial, FleetOf(Execute(m, Boot(initial), run)), id)
  {
    TruthfulAlong(m, initial, Boot(initial), run, id);
  }

  // ----- Runs -----

  lemma {:induction false} Concatenate<S>(m: Mode, s: System<S>, run: seq<Label<S>>, more: seq<Label<S>>)
    requires IsRun(m, s, run) && IsRun(m, Execute(m, s, run), more)
    ensures IsRun(m, s, run + more) && Execute(m, s, run + more) == Execute(m, Execute(m, s, run), more)
    decreases run
  {
    var whole := run + more;
    if run == [] {
      assert whole == more;
    } else {
      assert whole[0] == run[0] && whole[1..] == run[1..] + more;
      Concatenate(m, Apply(m, s, run[0]), run[1..], more);
    }
  }

  lemma One<S>(m: Mode, s: System<S>, l: Label<S>)
    requires Enabled(m, s, l)
    ensures IsRun(m, s, [l]) && Execute(m, s, [l]) == Apply(m, s, l)
  {
    assert [l][1..] == [];
  }

  lemma Extend<S>(m: Mode, s: System<S>, run: seq<Label<S>>, l: Label<S>)
    requires IsRun(m, s, run) && Enabled(m, Execute(m, s, run), l)
    ensures IsRun(m, s, run + [l]) && Execute(m, s, run + [l]) == Apply(m, Execute(m, s, run), l)
  {
    One(m, Execute(m, s, run), l);
    Concatenate(m, s, run, [l]);
  }

  /** The rest of a call that stores and is not disturbed. */
  lemma Complete<S>(m: Mode, s: System<S>, who: nat)
    requires who in s.threads && s.threads[who].Storing? && s.threads[who].id in s.states
    ensures var run := [Step(who), Step(who), Step(who)];
      var c := Call(s.threads[who].id, s.threads[who].wanted);
      && IsRun(m, s, run)
      && Execute(m, s, run)
         == System(s.states[c.id := c.state], s.threads - {who}, s.stores + [c], s.changes + [c])
  {
    var l: Label<S> := Step(who);
    One(m, s, l);
    Extend(m, s, [l], l);
    assert [l] + [l] == [l, l];
    Extend(m, s, [l, l], l);
    assert [l, l] + [l] == [l, l, l];
    assert Execute(m, s, [l, l, l]).threads == s.threads - {who};
  }

  /** In every mode, calls that follow one another do what the fleet's setState does. */
  lemma {:induction false} SequentialIsRun<S>(m: Mode, initial: map<string, S>, calls: seq<Call<S>>)
    returns (run: seq<Label<S>>)
    requires AllKnown(initial, calls)
    ensures IsRun(m, Boot(initial), run) && Execute(m, Boot(initial), run).threads == map[]
    ensures FleetOf(Execute(m, Boot(initial), run)) == Run(initial, calls)
  {
    run := [];
    if calls == [] {
    } else {
      var call := calls[|calls| - 1];
      var before := SequentialIsRun(m, initial, calls[..|calls| - 1]);
      var s := Execute(m, Boot(initial), before);
      Extend(m, Boot(initial), before, Test(0, call));
      run := before + [Test(0, call)];
      if s.states[call.id] != call.state {
        var t := Apply(m, s, Test(0, call));
        Complete(m, t, 0);
        assert t.threads - {0} == map[];
        Concatenate(m, Boot(initial), run, [Step(0), Step(0), Step(0)]);
        run := run + [Step(0), Step(0), Step(0)];
      }
    }
  }

  /** Two threads pass the test with the same new state, and both log it. */
  lemma Stutter<S>(m: Mode, initial: map<string, S>, id: string, state: S) returns (run: seq<Label<S>>)
    requires !m.atomic && id in initial && state != initial[id]
    ensures IsRun(m, Boot(initial), run) && Execute(m, Boot(initial), run).threads == map[]
    ensures Execute(m, Boot(initial), run).changes == [Call(id, state), Call(id, state)]
  {
    var s0, c := Boot(initial), Call(id, state);
    One(m, s0, Test(0, c));
    Extend(m, s0, [Test(0, c)], Test(1, c));
    run := [Test(0, c)] + [Test(1, c)];
    var s2 := Execute(m, s0, run);
    assert s2.threads[0] == s2.threads[1] == Storing(id, state) && s2.changes == [];
    Complete(m, s2, 0);
    Concatenate(m, s0, run, [Step(0), Step(0), Step(0)]);
    run := run + [Step(0), Step(0), Step(0)];
    var s5 := Execute(m, s0, run);
    assert s5.threads[1] == Storing(id, state) && s5.changes == [c];
    Complete(m, s5, 1);
    Concatenate(m, s0, run, [Step(1), Step(1), Step(1)]);
    run := run + [Step(1), Step(1), Step(1)];
    assert Execute(m, s0, run).threads == map[];
  }

  /** A thread is overtaken between the name and the push by a call that sets the first state again. */
  lemma StaleEntry<S>(m: Mode, initial: map<string, S>, id: string, state: S) returns (run: seq<Label<S>>)
    requires !m.atomic && id in initial && state != initial[id]
    ensures IsRun(m, Boot(initial), run) && Execute(m, Boot(initial), run).threads == map[]
    ensures Execute(m, Boot(initial), run).changes == [Call(id, initial[id]), Call(id, state)]
    ensures Execute(m, Boot(initial), run).states == initial
  {
    var s0, c, back := Boot(initial), Call(id, state), Call(id, initial[id]);
    One(m, s0, Test(0, c));
    Extend(m, s0, [Test(0, c)], Step(0));
    run := [Test(0, c)] + [Step(0)];
    Extend(m, s0, run, Step(0));
    run := run + [Step(0)];
    Extend(m, s0, run, Test(1, back));
    run := run + [Test(1, back)];
    var s4 := Execute(m, s0, run);
    assert s4.threads == map[0 := Pushing(id, state), 1 := Storing(id, initial[id])] && s4.changes == [];
    Complete(m, s4, 1);
    Concatenate(m, s0, run, [Step(1), Step(1), Step(1)]);
    run := run + [Step(1), Step(1), Step(1)];
    var s7 := Execute(m, s0, run);
    assert s7.threads[0] == Pushing(id, state) && s7.changes == [back];
    assert s7.states == initial;
    Extend(m, s0, run, Step(0));
    run := run + [Step(0)];
    assert Execute(m, s0, run).threads == map[];
  }

  /** A thread is overtaken between the store and the name: both entries name the second state. */
  lemma StoredStateUnlogged<S>(m: Mode, initial: map<string, S>, id: string, state: S) returns (run: seq<Label<S>>)
    requires !m.atomic && id in initial && state != initial[id]
    ensures IsRun(m, Boot(initial), run) && Execute(m, Boot(initial), run).threads == map[]
    ensures var s, back := Execute(m, Boot(initial), run), Call(id, initial[id]);
      s.stores == [Call(id, state), back] && s.changes == [back, back]
  {
    var s0, c, back := Boot(initial), Call(id, state), Call(id, initial[id]);
    One(m, s0, Test(0, c));
    Extend(m, s0, [Test(0, c)], Step(0));
    run := [Test(0, c)] + [Step(0)];
    Extend(m, s0, run, Test(1, back));
    run := run + [Test(1, back)];
    var s3 := Execute(m, s0, run);
    assert s3.threads == map[0 := Naming(id), 1 := Storing(id, initial[id])];
    assert s3.stores == [c] && s3.changes == [];
    Complete(m, s3, 1);
    Concatenate(m, s0, run, [Step(1), Step(1), Step(1)]);
    run := run + [Step(1), Step(1), Step(1)];
    var s6 := Execute(m, s0, run);
    assert s6.threads[0] == Naming(id) && s6.states[id] == initial[id] && s6.changes == [back];
    Extend(m, s0, run, Step(0));
    run := run + [Step(0)];
    Extend(m, s0, run, Step(0));
    run := run + [Step(0)];
    assert Execute(m, s0, run).threads == map[];
  }

  // ----- Exactly when the log tells the truth -----

  /** Nothing is in progress, and the fleet is f. */
  ghost predicate Leaves<S(!new)>(m: Mode, initial: map<string, S>, f: Fleet<S>) {
    exists run: seq<Label<S>> ::
      && IsRun(m, Boot(initial), run) && Quiescent(Execute(m, Boot(initial), run))
      && FleetOf(Execute(m, Boot(initial), run)) == f
  }

  /** With atomic calls exactly the fleets of call sequences are left behind. */
  lemma AtomicLeavesSequential<S(!new)>(m: Mode, initial: map<string, S>, f: Fleet<S>)
    requires m.atomic
    ensures Leaves(m, initial, f) <==> exists calls :: AllKnown(initial, calls) && Run(initial, calls) == f
  {
    if Leaves(m, initial, f) {
      var run: seq<Label<S>> :|
        && IsRun(m, Boot(initial), run) && Quiescent(Execute(m, Boot(initial), run))
        && FleetOf(Execute(m, Boot(initial), run)) == f;
      var calls := AtomicIsSequential(m, initial, run);
    }
    if calls :| AllKnown(initial, calls) && Run(initial, calls) == f {
      var run := SequentialIsRun(m, initial, calls);
    }
  }

  /** No object's log repeats a state, exactly when setState with its logging is one step. */
  lemma NoStutterIff<S(!new)>(m: Mode, initial: map<string, S>, id: string, other: S)
    requires id in initial && other != initial[id]
    ensures (forall f | Leaves(m, initial, f) :: NoStutter(Lived(initial, f, id))) <==> m.atomic
  {
    if m.atomic {
      forall f | Leaves(m, initial, f) ensures NoStutter(Lived(initial, f, id)) {
        AtomicLeavesSequential(m, initial, f);
        var calls :| AllKnown(initial, calls) && Run(initial, calls) == f;
        HistoryIsFaithful(initial, calls, id);
      }
    } else {
      var run := Stutter(m, initial, id, other);
      var f := FleetOf(Execute(m, Boot(initial), run));
      assert Leaves(m, initial, f);
      TwoEntries(initial, f, id, other, other);
      assert Lived(initial, f, id)[1] == Lived(initial, f, id)[1 + 1];
    }
  }

  /** An object's last entry names its current state, exactly when setState with its logging is one step. */
  lemma EndsInCurrentIff<S(!new)>(m: Mode, initial: map<string, S>, id: string, other: S)
    requires id in initial && other != initial[id]
    ensures (forall f | Leaves(m, initial, f) :: EndsInCurrent(initial, f, id)) <==> m.atomic
  {
    if m.atomic {
      forall f | Leaves(m, initial, f) ensures EndsInCurrent(initial, f, id) {
        AtomicLeavesSequential(m, initial, f);
        var calls :| AllKnown(initial, calls) && Run(initial, calls) == f;
        HistoryIsFaithful(initial, calls, id);
      }
    } else {
      var run := StaleEntry(m, initial, id, other);
      var f := FleetOf(Execute(m, Boot(initial), run));
      assert Leaves(m, initial, f);
      TwoEntries(initial, f, id, initial[id], other);
    }
  }

  lemma TwoEntries<S>(initial: map<string, S>, f: Fleet<S>, id: string, a: S, b: S)
    requires id in initial && f.changes == [Call(id, a), Call(id, b)]
    ensures Lived(initial, f, id) == [initial[id], a, b]
  {
    var first := [Call(id, a)];
    assert first[..0] == [];
    assert StatesOf(first, id) == [a];
    StatesOfAppend(first, Call(id, b), id);
    assert f.changes == first + [Call(id, b)];
  }

  /** With one call at a time the stores are the entries, but for the call in progress. */
  ghost predicate StoresLogged<S>(s: System<S>) {
    if Quiescent(s) then s.stores == s.changes
    else exists who | who in s.threads :: s.threads.Keys == {who} && StoresUpTo(s, s.threads[who])
  }

  ghost predicate StoresUpTo<S>(s: System<S>, point: Point<S>) {
    match point
    case Storing(id, wanted) => s.stores == s.changes
    case Naming(id) => id in s.states && s.stores == s.changes + [Call(id, s.states[id])]
    case Pushing(id, named) => s.stores == s.changes + [Call(id, named)]
  }

  lemma StoresLoggedStep<S>(m: Mode, s: System<S>, l: Label<S>)
    requires m.atomic && StoresLogged(s) && Enabled(m, s, l)
    ensures StoresLogged(Apply(m, s, l))
  {
    var t := Apply(m, s, l);
    if l.Test? {
      if t != s {
        assert t.threads.Keys == {l.who} && StoresUpTo(t, t.threads[l.who]);
      }
    } else if s.threads[l.who].Pushing? {
      assert t.threads == map[];
    } else {
      assert t.threads.Keys == {l.who} && StoresUpTo(t, t.threads[l.who]);
    }
  }

  lemma {:induction false} StoresLoggedAlong<S>(m: Mode, s: System<S>, run: seq<Label<S>>)
    requires m.atomic && StoresLogged(s) && IsRun(m, s, run)
    ensures StoresLogged(Execute(m, s, run))
    decreases run
  {
    if run == [] {
    } else {
      StoresLoggedStep(m, s, run[0]);
      StoresLoggedAlong(m, Apply(m, s, run[0]), run[1..]);
    }
  }

  ghost predicate LogIsStores<S(!new)>(m: Mode, initial: map<string, S>) {
    forall run: seq<Label<S>> | IsRun(m, Boot(initial), run) && Quiescent(Execute(m, Boot(initial), run)) ::
      Execute(m, Boot(initial), run).changes == Execute(m, Boot(initial), run).stores
  }

  /** The log is the stores in the order they happened exactly when setState with its logging is one step. */
  lemma LogIsStoresIff<S(!new)>(m: Mode, initial: map<string, S>, id: string, other: S)
    requires id in initial && other != initial[id]
    ensures LogIsStores(m, initial) <==> m.atomic
  {
    if m.atomic {
      forall run: seq<Label<S>> | IsRun(m, Boot(initial), run) && Quiescent(Execute(m, Boot(initial), run))
        ensures Execute(m, Boot(initial), run).changes == Execute(m, Boot(initial), run).stores
      {
        StoresLoggedAlong(m, Boot(initial), run);
      }
    } else {
      var run := StoredStateUnlogged(m, initial, id, other);
      assert Quiescent(Execute(m, Boot(initial), run));
      assert Execute(m, Boot(initial), run).stores[0].state == other;
    }
  }

  /** The object's newest entry in the ring, if it has one there, is the entry of its current state. */
  ghost predicate WindowTells<S>(f: Fleet<S>, name: S -> string, id: string) {
    forall k: nat | NewestAt(f.changes, id, k) && k + LOG_CAPACITY >= |f.changes| ::
      var window := WindowOf(Records(f.changes, name));
      && |f.changes| - k <= |window| && id in f.states
      && window[|window| - (|f.changes| - k)] == Format(Record(id, name(f.states[id])))
  }

  lemma WindowEntry<S>(f: Fleet<S>, name: S -> string, id: string, k: nat)
    requires NewestAt(f.changes, id, k) && k + LOG_CAPACITY >= |f.changes|
    ensures var window := WindowOf(Records(f.changes, name));
      && |f.changes| - k <= |window|
      && window[|window| - (|f.changes| - k)] == Format(Record(id, name(f.changes[k].state)))
  {
    var kept := if |f.changes| <= LOG_CAPACITY then |f.changes| else LOG_CAPACITY;
    WindowIsNewestChanges(f.changes, name, kept - (|f.changes| - k));
  }

  /**
   * The ring can be trusted with an object's current state exactly when setState with its logging is one
   * step, or the entries of the object show nothing of its state anyway.
   */
  lemma WindowTellsIff<S(!new)>(m: Mode, initial: map<string, S>, name: S -> string, id: string)
    requires id in initial
    ensures (forall f | Leaves(m, initial, f) :: WindowTells(f, name, id))
            <==> m.atomic || forall x :: Shown(id, name(x)) == Shown(id, name(initial[id]))
  {
    if m.atomic {
      forall f | Leaves(m, initial, f) ensures WindowTells(f, name, id) {
        AtomicLeavesSequential(m, initial, f);
        var calls :| AllKnown(initial, calls) && Run(initial, calls) == f;
        forall k: nat | NewestAt(f.changes, id, k) && k + LOG_CAPACITY >= |f.changes|
          ensures f.changes[k].state == f.states[id]
        {
          NewestIsCurrent(initial, calls, id, k);
        }
        EntriesTell(f, name, id);
      }
    } else if x :| Shown(id, name(x)) != Shown(id, name(initial[id])) {
      var run := StaleEntry(m, initial, id, x);
      var f := FleetOf(Execute(m, Boot(initial), run));
      assert Leaves(m, initial, f);
      assert NewestAt(f.changes, id, 1);
      WindowEntry(f, name, id, 1);
      SameEntryIff(id, name(x), name(initial[id]));
    } else {
      forall f | Leaves(m, initial, f) ensures WindowTells(f, name, id) {
        KnownIds(m, initial, f);
        forall k: nat | NewestAt(f.changes, id, k)
          ensures Shown(id, name(f.changes[k].state)) == Shown(id, name(f.states[id]))
        {
        }
        EntriesTell(f, name, id);
      }
    }
  }

  lemma EntriesTell<S>(f: Fleet<S>, name: S -> string, id: string)
    requires id in f.states
    requires forall k: nat | NewestAt(f.changes, id, k) && k + LOG_CAPACITY >= |f.changes| ::
               Shown(id, name(f.changes[k].state)) == Shown(id, name(f.states[id]))
    ensures WindowTells(f, name, id)
  {
    forall k: nat | NewestAt(f.changes, id, k) && k + LOG_CAPACITY >= |f.changes|
      ensures var window := WindowOf(Records(f.changes, name));
        && |f.changes| - k <= |window|
        && window[|window| - (|f.changes| - k)] == Format(Record(id, name(f.states[id])))
    {
      WindowEntry(f, name, id, k);
      SameEntryIff(id, name(f.changes[k].state), name(f.states[id]));
    }
  }

  lemma KnownIds<S(!new)>(m: Mode, initial: map<string, S>, f: Fleet<S>)
    requires Leaves(m, initial, f)
    ensures f.states.Keys == initial.Keys
  {
    var run: seq<Label<S>> :|
      && IsRun(m, Boot(initial), run) && Quiescent(Execute(m, Boot(initial), run))
      && FleetOf(Execute(m, Boot(initial), run)) == f;
    KeysAlong(m, Boot(initial), run);
  }

  lemma {:induction false} KeysAlong<S>(m: Mode, s: System<S>, run: seq<Label<S>>)
    requires IsRun(m, s, run)
    ensures Execute(m, s, run).states.Keys == s.states.Keys
    decreases run
  {
    if run == [] {
    } else {
      KeysAlong(m, Apply(m, s, run[0]), run[1..]);
    }
  }

  // ----- The states alone -----

  lemma StateAfterCall<S>(f: Fleet<S>, c: Call<S>)
    requires c.id in f.states
    ensures LoggedFleet.SetState(f, c).states == f.states[c.id := c.state]
  {
  }

  lemma SequentialStore<S>(initial: map<string, S>, calls: seq<Call<S>>, c: Call<S>)
    requires AllKnown(initial, calls) && c.id in initial
    ensures AllKnown(initial, calls + [c])
    ensures Run(initial, calls + [c]).states == Run(initial, calls).states[c.id := c.state]
  {
    assert (calls + [c])[..|calls|] == calls && (calls + [c])[|calls|] == c;
    assert Run(initial, calls + [c]) == LoggedFleet.SetState(Run(initial, calls), c);
    StateAfterCall(Run(initial, calls), c);
  }

  lemma StoreIsCall<S>(m: Mode, initial: map<string, S>, s: System<S>, l: Label<S>)
    requires AllKnown(initial, s.stores) && s.states == Run(initial, s.stores).states && Enabled(m, s, l)
    ensures var t := Apply(m, s, l); AllKnown(initial, t.stores) && t.states == Run(initial, t.stores).states
  {
    if l.Step? && s.threads[l.who].Storing? {
      SequentialStore(initial, s.stores, Call(s.threads[l.who].id, s.threads[l.who].wanted));
    }
  }

  /**
   * For the states, if not for their log, a call does act in one step whatever the interleaving: they are
   * what the stores make of them in the order they happened.
   */
  lemma {:induction false} StatesFollowStores<S>(m: Mode, initial: map<string, S>, s: System<S>, run: seq<Label<S>>)
    requires AllKnown(initial, s.stores) && s.states == Run(initial, s.stores).states && IsRun(m, s, run)
    ensures var t := Execute(m, s, run); AllKnown(initial, t.stores) && t.states == Run(initial, t.stores).states
    decreases run
  {
    if run == [] {
    } else {
      var t := Apply(m, s, run[0]);
      StoreIsCall(m, initial, s, run[0]);
      StatesFollowStores(m, initial, t, run[1..]);
    }
  }
}
