/** lib/Patterns/StateMachine.hpp: the registered relation, stored twice, and the machine that uses it. */
module Registrations {

  datatype Registration<S, C> = Registration(from: S, to: S, callback: C)

  /** stateTransitions[from]: the targets in registration order, duplicates included. */
  function Targets<S(==), C>(regs: seq<Registration<S, C>>, from: S): seq<S> {
    if regs == [] then []
    else
      var r := regs[|regs| - 1];
      Targets(regs[..|regs| - 1], from) + if r.from == from then [r.to] else []
  }

  /** stateChangeCallbacks: one entry an edge, the last registration winning. */
  function Callbacks<S(==), C>(regs: seq<Registration<S, C>>): map<(S, S), C> {
    if regs == [] then map[]
    else
      var r := regs[|regs| - 1];
      Callbacks(regs[..|regs| - 1])[(r.from, r.to) := r.callback]
  }

  /** Whether an edge was registered at all. */
  ghost predicate Registered<S, C>(regs: seq<Registration<S, C>>, from: S, to: S) {
    exists i :: 0 <= i < |regs| && regs[i].from == from && regs[i].to == to
  }

  /** Whether registration i is the last one for its edge. */
  ghost predicate LastFor<S, C>(regs: seq<Registration<S, C>>, i: nat)
    requires i < |regs|
  {
    forall j | i < j < |regs| :: regs[j].from != regs[i].from || regs[j].to != regs[i].to
  }

  /** One more registration extends one adjacency list and sets one callback. */
  lemma TargetsAppend<S(!new), C>(regs: seq<Registration<S, C>>, r: Registration<S, C>)
    ensures Callbacks(regs + [r]) == Callbacks(regs)[(r.from, r.to) := r.callback]
    ensures forall from :: Targets(regs + [r], from) == Targets(regs, from) + if r.from == from then [r.to] else []
  {
    assert (regs + [r])[..|regs|] == regs;
  }

  /** After any registrations, both stored forms hold exactly the registered edges. */
  lemma {:induction false} FormsAgree<S, C>(regs: seq<Registration<S, C>>, from: S, to: S)
    ensures to in Targets(regs, from) <==> Registered(regs, from, to)
    ensures (from, to) in Callbacks(regs) <==> Registered(regs, from, to)
  {
    if regs == [] {
    } else {
      var front, r := regs[..|regs| - 1], regs[|regs| - 1];
      FormsAgree(front, from, to);
      if Registered(front, from, to) {
        var i :| 0 <= i < |front| && front[i].from == from && front[i].to == to;
        assert regs[i].from == from && regs[i].to == to;
      }
      if r.from == from && r.to == to {
        assert Registered(regs, from, to);
      }
    }
  }

  /** How often an edge was registered. */
  function Occurrences<S(==), C>(regs: seq<Registration<S, C>>, from: S, to: S): nat {
    if regs == [] then 0
    else (if regs[0].from == from && regs[0].to == to then 1 else 0) + Occurrences(regs[1..], from, to)
  }

  lemma {:induction false} OccurrencesLast<S, C>(regs: seq<Registration<S, C>>, from: S, to: S)
    requires regs != []
    ensures var r := regs[|regs| - 1];
      Occurrences(regs, from, to)
      == Occurrences(regs[..|regs| - 1], from, to) + if r.from == from && r.to == to then 1 else 0
  {
    if |regs| == 1 {
      assert regs[1..] == [] && regs[..0] == [];
    } else {
      OccurrencesLast(regs[1..], from, to);
      assert regs[..|regs| - 1][1..] == regs[1..][..|regs| - 2];
    }
  }

  /** A target is listed once for each time its edge was registered. */
  lemma {:induction false} ListedAsOftenAsRegistered<S, C>(regs: seq<Registration<S, C>>, from: S, to: S)
    ensures multiset(Targets(regs, from))[to] == Occurrences(regs, from, to)
  {
    if regs == [] {
    } else {
      ListedAsOftenAsRegistered(regs[..|regs| - 1], from, to);
      OccurrencesLast(regs, from, to);
    }
  }

  /** The callback found for an edge is the one registered last. */
  lemma {:induction false} LastCallbackWins<S, C>(regs: seq<Registration<S, C>>, i: nat)
    requires i < |regs| && LastFor(regs, i)
    ensures (regs[i].from, regs[i].to) in Callbacks(regs)
    ensures Callbacks(regs)[(regs[i].from, regs[i].to)] == regs[i].callback
  {
    var front := regs[..|regs| - 1];
    if i < |front| {
      assert front[i] == regs[i];
      LastCallbackWins(front, i);
    }
  }
}

module StateMachines {
  import opened Prelude
  import opened ChangeTrees
  import opened Registrations

  class Observer<S> {
    var seen: seq<Edge<S>>

    constructor ()
      ensures seen == []
    {
      seen := [];
    }

    method Notify(from: S, to: S)
      modifies this`seen
      ensures seen == old(seen) + [(from, to)]
    {
      seen := seen + [(from, to)];
    }
  }

  /** Each report repeated n times: an observer registered n times is notified n times. */
  function Repeated<T>(reports: seq<T>, n: nat): seq<T> {
    if reports == [] then [] else Times(reports[0], n) + Repeated(reports[1..], n)
  }

  function Times<T>(x: T, n: nat): seq<T> {
    seq(n, _ => x)
  }

  lemma {:induction false} RepeatedAppend<T>(a: seq<T>, b: seq<T>, n: nat)
    ensures Repeated(a + b, n) == Repeated(a, n) + Repeated(b, n)
  {
    if a == [] {
      assert a + b == b;
    } else {
      RepeatedAppend(a[1..], b, n);
      assert (a + b)[0] == a[0] && (a + b)[1..] == a[1..] + b;
      Associative(Times(a[0], n), Repeated(a[1..], n), Repeated(b, n));
    }
  }

  lemma {:induction false} RepeatedOnce<T>(a: seq<T>)
    ensures Repeated(a, 1) == a
  {
    if a == [] {
    } else {
      RepeatedOnce(a[1..]);
      assert Times(a[0], 1) == [a[0]];
    }
  }

  /** What the outside sees of a machine: a callback is called, an observer is told. */
  datatype Happening<S, C> =
    | Called(callback: C, from: S, to: S)
    | Told(observer: Observer<S>, from: S, to: S)

  /** Every observer on the list is told, in the order of registration. */
  function Tells<S, C>(observers: seq<Observer<S>>, e: Edge<S>): seq<Happening<S, C>> {
    if observers == [] then []
    else Tells(observers[..|observers| - 1], e) + [Told(observers[|observers| - 1], e.0, e.1)]
  }

  function Calls<S(==), C>(callbacks: map<(S, S), C>, e: Edge<S>): seq<Happening<S, C>> {
    if e in callbacks then [Called(callbacks[e], e.0, e.1)] else []
  }

  lemma TellsNext<S, C>(observers: seq<Observer<S>>, i: nat, e: Edge<S>)
    requires i < |observers|
    ensures Tells<S, C>(observers[..i + 1], e) == Tells(observers[..i], e) + [Told(observers[i], e.0, e.1)]
    ensures forall o | o in observers ::
              Times(e, multiset(observers[..i + 1])[o])
              == Times(e, multiset(observers[..i])[o]) + if o == observers[i] then [e] else []
  {
    assert observers[..i + 1] == observers[..i] + [observers[i]];
    assert observers[..i + 1][..i] == observers[..i];
  }

  /**
   * What changes make happen: the callback of each is called, then happens what the changes nested in it make
   * happen, and only then are the observers told, in the order of their registration.
   */
  function Happenings<S(==), C>(callbacks: map<(S, S), C>, observers: seq<Observer<S>>,
                                changes: seq<Change<S>>): seq<Happening<S, C>>
    decreases changes, 0
  {
    if changes == [] then []
    else Around(callbacks, observers, changes[0]) + Happenings(callbacks, observers, changes[1..])
  }

  function Around<S(==), C>(callbacks: map<(S, S), C>, observers: seq<Observer<S>>,
                            change: Change<S>): seq<Happening<S, C>>
    decreases change, 1
  {
    var e := (change.from, change.to);
    Calls(callbacks, e) + Happenings(callbacks, observers, change.nested) + Tells(observers, e)
  }

  lemma {:induction false} HappeningsAppend<S, C>(callbacks: map<(S, S), C>, observers: seq<Observer<S>>,
                                                  a: seq<Change<S>>, b: seq<Change<S>>)
    ensures Happenings(callbacks, observers, a + b)
         == Happenings(callbacks, observers, a) + Happenings(callbacks, observers, b)
  {
    if a == [] {
      assert a + b == b;
    } else {
      HappeningsAppend(callbacks, observers, a[1..], b);
      assert (a + b)[0] == a[0] && (a + b)[1..] == a[1..] + b;
      Associative(Around(callbacks, observers, a[0]), Happenings(callbacks, observers, a[1..]),
                  Happenings(callbacks, observers, b));
    }
  }

  lemma HappeningsOfOne<S, C>(callbacks: map<(S, S), C>, observers: seq<Observer<S>>, change: Change<S>)
    ensures Happenings(callbacks, observers, [change]) == Around(callbacks, observers, change)
  {
    assert [change][1..] == [];
  }

  /** The calls among what happened. */
  function CallsIn<S, C>(happened: seq<Happening<S, C>>): seq<Happening<S, C>> {
    if happened == [] then []
    else (if happened[0].Called? then [happened[0]] else []) + CallsIn(happened[1..])
  }

  lemma {:induction false} CallsInAppend<S, C>(a: seq<Happening<S, C>>, b: seq<Happening<S, C>>)
    ensures CallsIn(a + b) == CallsIn(a) + CallsIn(b)
  {
    if a == [] {
      assert a + b == b;
    } else {
      CallsInAppend(a[1..], b);
      var ab, first := a + b, if a[0].Called? then [a[0]] else [];
      assert ab[0] == a[0] && ab[1..] == a[1..] + b;
      Associative(first, CallsIn(a[1..]), CallsIn(b));
    }
  }

  /** The calls of the callbacks on record for a path of edges. */
  function CallEach<S(==), C>(callbacks: map<(S, S), C>, path: seq<Edge<S>>): seq<Happening<S, C>> {
    if path == [] then [] else Calls(callbacks, path[0]) + CallEach(callbacks, path[1..])
  }

  lemma {:induction false} CallEachAppend<S, C>(callbacks: map<(S, S), C>, a: seq<Edge<S>>, b: seq<Edge<S>>)
    ensures CallEach(callbacks, a + b) == CallEach(callbacks, a) + CallEach(callbacks, b)
  {
    if a == [] {
      assert a + b == b;
    } else {
      CallEachAppend(callbacks, a[1..], b);
      assert (a + b)[0] == a[0] && (a + b)[1..] == a[1..] + b;
      Associative(Calls(callbacks, a[0]), CallEach(callbacks, a[1..]), CallEach(callbacks, b));
    }
  }

  lemma {:induction false} CallEachOnRecord<S, C>(callbacks: map<(S, S), C>, path: seq<Edge<S>>)
    requires forall k | 0 <= k < |path| :: path[k] in callbacks
    ensures |CallEach(callbacks, path)| == |path|
    ensures forall k | 0 <= k < |path| ::
              CallEach(callbacks, path)[k] == Called(callbacks[path[k]], path[k].0, path[k].1)
  {
    if path == [] {
    } else {
      CallEachOnRecord(callbacks, path[1..]);
    }
  }

  /** What one observer was told. */
  ghost function ToldTo<S, C>(o: Observer<S>, happened: seq<Happening<S, C>>): seq<Edge<S>> {
    if happened == [] then []
    else
      var h := happened[0];
      (if h.Told? && h.observer == o then [(h.from, h.to)] else []) + ToldTo(o, happened[1..])
  }

  lemma {:induction false} ToldToAppend<S, C>(o: Observer<S>, a: seq<Happening<S, C>>, b: seq<Happening<S, C>>)
    ensures ToldTo(o, a + b) == ToldTo(o, a) + ToldTo(o, b)
  {
    if a == [] {
      assert a + b == b;
    } else {
      ToldToAppend(o, a[1..], b);
      var ab, h := a + b, a[0];
      assert ab[0] == h && ab[1..] == a[1..] + b;
      var first := if h.Told? && h.observer == o then [(h.from, h.to)] else [];
      Associative(first, ToldTo(o, a[1..]), ToldTo(o, b));
    }
  }

  lemma {:induction false} CallsAlong<S, C>(callbacks: map<(S, S), C>, observers: seq<Observer<S>>,
                                            changes: seq<Change<S>>)
    ensures CallsIn(Happenings(callbacks, observers, changes)) == CallEach(callbacks, PreOrder(changes))
  {
    if changes == [] {
    } else {
      var e := (changes[0].from, changes[0].to);
      var nested, rest := changes[0].nested, changes[1..];
      CallsAlong(callbacks, observers, nested);
      CallsAlong(callbacks, observers, rest);
      CallsOfChange(callbacks, observers, e, Happenings(callbacks, observers, nested),
                    Happenings(callbacks, observers, rest));
      CallEachAppend(callbacks, [e] + PreOrder(nested), PreOrder(rest));
      CallEachAppend(callbacks, [e], PreOrder(nested));
      assert [e][1..] == [];
    }
  }

  lemma CallsOfChange<S, C>(callbacks: map<(S, S), C>, observers: seq<Observer<S>>, e: Edge<S>,
                            nested: seq<Happening<S, C>>, rest: seq<Happening<S, C>>)
    ensures CallsIn(Calls(callbacks, e) + nested + Tells(observers, e) + rest)
         == Calls(callbacks, e) + CallsIn(nested) + CallsIn(rest)
  {
    var a, c := Calls(callbacks, e), Tells<S, C>(observers, e);
    assert a != [] ==> a[1..] == [];
    assert CallsIn(a) == a;
    TellsIsNoCall<S, C>(observers, e);
    CallsInAppend(a + nested + c, rest);
    CallsInAppend(a + nested, c);
    CallsInAppend(a, nested);
  }

  lemma {:induction false} TellsIsNoCall<S, C>(observers: seq<Observer<S>>, e: Edge<S>)
    ensures CallsIn(Tells<S, C>(observers, e)) == []
  {
    if observers == [] {
    } else {
      var front, last := observers[..|observers| - 1], observers[|observers| - 1];
      TellsIsNoCall<S, C>(front, e);
      CallsInAppend(Tells<S, C>(front, e), [Told(last, e.0, e.1)]);
    }
  }

  /** Out of everything that happens, the callbacks on record for the changes are called in pre-order. */
  lemma CalledInPreOrder<S, C>(callbacks: map<(S, S), C>, observers: seq<Observer<S>>,
                               state: S, requests: seq<Request<S>>)
    ensures var changes := Accept(callbacks.Keys, state, requests).0;
      var calls, order := CallsIn(Happenings(callbacks, observers, changes)), PreOrder(changes);
      && |calls| == |order|
      && forall k | 0 <= k < |order| ::
           order[k] in callbacks && calls[k] == Called(callbacks[order[k]], order[k].0, order[k].1)
  {
    var (changes, final) := Accept(callbacks.Keys, state, requests);
    var order := PreOrder(changes);
    PreOrderIsWalk(callbacks.Keys, state, requests);
    forall k | 0 <= k < |order| ensures order[k] in callbacks {
      WalkSplit(callbacks.Keys, state, order, final, k);
    }
    CallsAlong(callbacks, observers, changes);
    CallEachOnRecord(callbacks, order);
  }

  /** And every observer is told the same changes in post-order, once for each time it is on the list. */
  lemma {:induction false} ToldInPostOrder<S, C>(callbacks: map<(S, S), C>, observers: seq<Observer<S>>,
                                                 changes: seq<Change<S>>, o: Observer<S>)
    ensures ToldTo(o, Happenings(callbacks, observers, changes))
         == Repeated(PostOrder(changes), multiset(observers)[o])
  {
    if changes == [] {
    } else {
      var e, n := (changes[0].from, changes[0].to), multiset(observers)[o];
      var nested, rest := changes[0].nested, changes[1..];
      ToldInPostOrder(callbacks, observers, nested, o);
      ToldInPostOrder(callbacks, observers, rest, o);
      ToldAround(callbacks, observers, changes[0], o);
      ToldToAppend(o, Around(callbacks, observers, changes[0]), Happenings(callbacks, observers, rest));
      RepeatedLast(PostOrder(nested), e, PostOrder(rest), n);
    }
  }

  lemma ToldAround<S, C>(callbacks: map<(S, S), C>, observers: seq<Observer<S>>, change: Change<S>, o: Observer<S>)
    ensures ToldTo(o, Around(callbacks, observers, change))
         == ToldTo(o, Happenings(callbacks, observers, change.nested))
            + Times((change.from, change.to), multiset(observers)[o])
  {
    var e := (change.from, change.to);
    var a, b := Calls(callbacks, e), Happenings(callbacks, observers, change.nested);
    ToldToAppend(o, a + b, Tells(observers, e));
    ToldToAppend(o, a, b);
    CallTellsNobody(callbacks, e, o);
    TellsEach<S, C>(observers, e, o);
  }

  lemma CallTellsNobody<S, C>(callbacks: map<(S, S), C>, e: Edge<S>, o: Observer<S>)
    ensures ToldTo(o, Calls(callbacks, e)) == []
  {
  }

  lemma {:induction false} TellsEach<S, C>(observers: seq<Observer<S>>, e: Edge<S>, o: Observer<S>)
    ensures ToldTo<S, C>(o, Tells(observers, e)) == Times(e, multiset(observers)[o])
  {
    if observers == [] {
    } else {
      var front, last := observers[..|observers| - 1], observers[|observers| - 1];
      assert observers == front + [last];
      TellsEach<S, C>(front, e, o);
      var one: seq<Happening<S, C>> := [Told(last, e.0, e.1)];
      ToldToAppend(o, Tells(front, e), one);
      assert one[1..] == [];
    }
  }

  lemma RepeatedLast<T>(a: seq<T>, x: T, b: seq<T>, n: nat)
    ensures Repeated(a + [x] + b, n) == Repeated(a, n) + Times(x, n) + Repeated(b, n)
  {
    RepeatedAppend(a + [x], b, n);
    RepeatedAppend(a, [x], n);
    RepeatedSingle(x, n);
  }

  class StateMachine<S(==, !new), C> {
    var currentState: S
    var stateTransitions: map<S, seq<S>>
    var stateChangeCallbacks: map<(S, S), C>
    var observers: seq<Observer<S>>
    /** Everything that happened, in order. */
    var happened: seq<Happening<S, C>>
    ghost var registrations: seq<Registration<S, C>>

    ghost predicate Valid()
      reads this
    {
      && (forall from :: from in stateTransitions <==> Targets(registrations, from) != [])
      && (forall from | from in stateTransitions :: stateTransitions[from] == Targets(registrations, from))
      && stateChangeCallbacks == Callbacks(registrations)
    }

    ghost function Edges(): set<Edge<S>>
      reads this`stateChangeCallbacks
    {
      stateChangeCallbacks.Keys
    }

    constructor (initial: S)
      ensures Valid() && registrations == [] && currentState == initial && observers == [] && happened == []
    {
      currentState := initial;
      stateTransitions, stateChangeCallbacks := map[], map[];
      observers, happened := [], [];
      registrations := [];
    }

    method RegisterStateTransition(from: S, to: S, callback: C)
      requires Valid()
      modifies this`stateTransitions, this`stateChangeCallbacks, this`registrations
      ensures Valid() && registrations == old(registrations) + [Registration(from, to, callback)]
    {
      var known := if from in stateTransitions then stateTransitions[from] else [];
      stateTransitions := stateTransitions[from := known + [to]];
      stateChangeCallbacks := stateChangeCallbacks[(from, to) := callback];
      registrations := registrations + [Registration(from, to, callback)];
      TargetsAppend(old(registrations), Registration(from, to, callback));
    }

    method RegisterObserver(observer: Observer<S>)
      modifies this`observers
      ensures observers == old(observers) + [observer]
    {
      observers := observers + [observer];
    }

    /** Scans the adjacency list; the answer is whether the edge was ever registered. */
    method IsValidTransition(from: S, to: S) returns (valid: bool)
      requires Valid()
      ensures valid <==> (from, to) in Edges()
      ensures valid <==> Registered(registrations, from, to)
    {
      FormsAgree(registrations, from, to);
      if from in stateTransitions {
        var targets := stateTransitions[from];
        for i := 0 to |targets|
          invariant to !in targets[..i]
        {
          if targets[i] == to {
            return true;
          }
        }
      }
      return false;
    }

    /** How often an observer is on the list. */
    ghost function Count(o: Observer<S>): nat
      reads this`observers
    {
      multiset(observers)[o]
    }

    /** What the changes of these requests make happen. */
    ghost function HappeningsOf(state: S, requests: seq<Request<S>>): seq<Happening<S, C>>
      reads this`stateChangeCallbacks, this`observers
    {
      Happenings(stateChangeCallbacks, observers, Accept(Edges(), state, requests).0)
    }

    /**
     * One call with everything its callbacks request in turn. The state ends where the walk of accepted
     * changes ends; callbacks run in pre-order; every observer is told the same changes in post-order.
     */
    method ChangeToState(request: Request<S>) returns (accepted: bool)
      requires Valid()
      modifies this`currentState, this`happened, (set o | o in observers)`seen
      ensures accepted <==> (old(currentState), request.target) in Edges()
      ensures currentState == Accept(Edges(), old(currentState), [request]).1
      ensures happened == old(happened) + HappeningsOf(old(currentState), [request])
      ensures forall o | o in observers ::
                o.seen == old(o.seen) + Repeated(PostOrder(Accept(Edges(), old(currentState), [request]).0), Count(o))
      decreases request, 1
    {
      accepted := IsValidTransition(currentState, request.target);
      AcceptSingle(Edges(), currentState, request);
      if accepted {
        var oldState := currentState;
        currentState := request.target;
        NotifyStateChange(oldState, request);
        ghost var (inner, final) := Accept(Edges(), request.target, request.nested);
        ghost var changes := [Change(oldState, request.target, inner)];
        assert changes[1..] == [];
        HappeningsOfOne(stateChangeCallbacks, observers, changes[0]);
        assert PostOrder(changes) == PostOrder(inner) + [(oldState, request.target)];
      }
    }

    /** The callback of the edge, with its requests, and then the observers. */
    method NotifyStateChange(oldState: S, request: Request<S>)
      requires Valid() && (oldState, request.target) in Edges() && currentState == request.target
      modifies this`currentState, this`happened, (set o | o in observers)`seen
      ensures currentState == Accept(Edges(), request.target, request.nested).1
      ensures happened == old(happened) + (Calls(stateChangeCallbacks, (oldState, request.target))
                + HappeningsOf(request.target, request.nested) + Tells(observers, (oldState, request.target)))
      ensures forall o | o in observers ::
                o.seen == old(o.seen) + Repeated(
                  PostOrder(Accept(Edges(), request.target, request.nested).0) + [(oldState, request.target)], Count(o))
      decreases request, 0
    {
      if (oldState, request.target) in stateChangeCallbacks {
        happened := happened + [Called(stateChangeCallbacks[(oldState, request.target)], oldState, request.target)];
        RunRequests(request.nested);
      }
      NotifyObservers(oldState, request.target);
      ghost var reports := PostOrder(Accept(Edges(), request.target, request.nested).0);
      forall o | o in observers
        ensures Repeated(reports + [(oldState, request.target)], Count(o))
             == Repeated(reports, Count(o)) + Times((oldState, request.target), Count(o))
      {
        RepeatedAppend(reports, [(oldState, request.target)], Count(o));
        RepeatedSingle((oldState, request.target), Count(o));
      }
    }

    method Tell(observer: Observer<S>, from: S, to: S)
      modifies this`happened, observer`seen
      ensures happened == old(happened) + [Told(observer, from, to)]
      ensures observer.seen == old(observer.seen) + [(from, to)]
    {
      observer.Notify(from, to);
      happened := happened + [Told(observer, from, to)];
    }

    method NotifyObservers(from: S, to: S)
      modifies this`happened, (set o | o in observers)`seen
      ensures happened == old(happened) + Tells(observers, (from, to))
      ensures forall o | o in observers :: o.seen == old(o.seen) + Times((from, to), Count(o))
    {
      for i := 0 to |observers|
        invariant forall o | o in observers :: o.seen == old(o.seen) + Times((from, to), multiset(observers[..i])[o])
        invariant happened == old(happened) + Tells(observers[..i], (from, to))
      {
        TellsNext<S, C>(observers, i, (from, to));
        Tell(observers[i], from, to);
      }
      assert observers[..|observers|] == observers;
    }

    /** The requests of one callback, in order. */
    method RunRequests(requests: seq<Request<S>>)
      requires Valid()
      modifies this`currentState, this`happened, (set o | o in observers)`seen
      ensures currentState == Accept(Edges(), old(currentState), requests).1
      ensures happened == old(happened) + HappeningsOf(old(currentState), requests)
      ensures forall o | o in observers ::
                o.seen == old(o.seen) + Repeated(PostOrder(Accept(Edges(), old(currentState), requests).0), Count(o))
      decreases requests
    {
      if requests != [] {
        ghost var c1, c2, s1 := OneThenOthers(stateChangeCallbacks, observers, currentState, requests);
        var accepted := ChangeToState(requests[0]);
        RunRequests(requests[1..]);
        Associative(old(happened), Happenings(stateChangeCallbacks, observers, c1),
                    Happenings(stateChangeCallbacks, observers, c2));
        forall o | o in observers
          ensures o.seen == old(o.seen) + (Repeated(PostOrder(c1), Count(o)) + Repeated(PostOrder(c2), Count(o)))
        {
          Associative(old(o.seen), Repeated(PostOrder(c1), Count(o)), Repeated(PostOrder(c2), Count(o)));
        }
      }
    }
  }

  /** The first request, the others, and what both together amount to. */
  lemma OneThenOthers<S(!new), C>(callbacks: map<(S, S), C>, observers: seq<Observer<S>>,
                                  state: S, requests: seq<Request<S>>)
    returns (c1: seq<Change<S>>, c2: seq<Change<S>>, s1: S)
    requires requests != []
    ensures Accept(callbacks.Keys, state, [requests[0]]) == (c1, s1)
    ensures Accept(callbacks.Keys, s1, requests[1..]).0 == c2
    ensures Accept(callbacks.Keys, state, requests).1 == Accept(callbacks.Keys, s1, requests[1..]).1
    ensures Happenings(callbacks, observers, Accept(callbacks.Keys, state, requests).0)
         == Happenings(callbacks, observers, c1) + Happenings(callbacks, observers, c2)
    ensures forall n: nat :: Repeated(PostOrder(Accept(callbacks.Keys, state, requests).0), n)
                             == Repeated(PostOrder(c1), n) + Repeated(PostOrder(c2), n)
  {
    assert requests == [requests[0]] + requests[1..];
    AcceptInTurn(callbacks.Keys, state, [requests[0]], requests[1..]);
    c1, s1 := Accept(callbacks.Keys, state, [requests[0]]).0, Accept(callbacks.Keys, state, [requests[0]]).1;
    c2 := Accept(callbacks.Keys, s1, requests[1..]).0;
    HappeningsAppend(callbacks, observers, c1, c2);
    PostOrderAppend(c1, c2);
    forall n: nat
      ensures Repeated(PostOrder(c1 + c2), n) == Repeated(PostOrder(c1), n) + Repeated(PostOrder(c2), n)
    {
      RepeatedAppend(PostOrder(c1), PostOrder(c2), n);
    }
  }

  lemma RepeatedSingle<T>(x: T, n: nat)
    ensures Repeated([x], n) == Times(x, n)
  {
    assert [x][1..] == [];
  }
}
