/**
 * What re-entrant calls of changeToState mean (lib/Patterns/StateMachine.hpp): a callback may itself
 * request changes, so the requests of one outermost call form a tree, and so do the accepted changes.
 */
module ChangeTrees {
  import opened Prelude

  /** A requested target, and the requests its callback makes if the change is accepted. */
  datatype Request<S> = Request(target: S, nested: seq<Request<S>>)

  /** An accepted change, and the changes accepted while its callback ran. */
  datatype Change<S> = Change(from: S, to: S, nested: seq<Change<S>>)

  type Edge<S> = (S, S)

  /** The changes that a sequence of requests brings about from a given state, and the state it ends in. */
  function Accept<S(==)>(edges: set<Edge<S>>, state: S, requests: seq<Request<S>>): (seq<Change<S>>, S) {
    if requests == [] then ([], state)
    else if (state, requests[0].target) in edges then
      var (inner, s1) := Accept(edges, requests[0].target, requests[0].nested);
      var (later, s2) := Accept(edges, s1, requests[1..]);
      ([Change(state, requests[0].target, inner)] + later, s2)
    else
      Accept(edges, state, requests[1..])
  }

  /** Each change before the changes nested in it. */
  function PreOrder<S>(changes: seq<Change<S>>): seq<Edge<S>> {
    if changes == [] then []
    else [(changes[0].from, changes[0].to)] + PreOrder(changes[0].nested) + PreOrder(changes[1..])
  }

  /** Each change after the changes nested in it. */
  function PostOrder<S>(changes: seq<Change<S>>): seq<Edge<S>> {
    if changes == [] then []
    else PostOrder(changes[0].nested) + [(changes[0].from, changes[0].to)] + PostOrder(changes[1..])
  }

  lemma {:induction false} PostOrderAppend<S>(a: seq<Change<S>>, b: seq<Change<S>>)
    ensures PostOrder(a + b) == PostOrder(a) + PostOrder(b)
  {
    if a == [] {
      assert a + b == b;
    } else {
      PostOrderAppend(a[1..], b);
      assert (a + b)[0] == a[0] && (a + b)[1..] == a[1..] + b;
      Associative(PostOrder(a[0].nested) + [(a[0].from, a[0].to)], PostOrder(a[1..]), PostOrder(b));
    }
  }

  /** A single request is accepted exactly when its edge is registered, and then as one outermost change. */
  lemma AcceptSingle<S>(edges: set<Edge<S>>, state: S, r: Request<S>)
    ensures Accept(edges, state, [r]) ==
              if (state, r.target) in edges then
                var (inner, final) := Accept(edges, r.target, r.nested);
                ([Change(state, r.target, inner)], final)
              else ([], state)
  {
    var requests := [r];
    assert requests[0] == r && requests[1..] == [];
    if (state, r.target) in edges {
      var (inner, final) := Accept(edges, r.target, r.nested);
      assert Accept(edges, final, requests[1..]) == ([], final);
      assert [Change(state, r.target, inner)] + [] == [Change(state, r.target, inner)];
    }
  }

  /**
   * Requests in a row act one after the other: those from any point on act in the state that those before it,
   * with everything nested in them, led to.
   */
  lemma {:induction false} AcceptInTurn<S>(edges: set<Edge<S>>, state: S, a: seq<Request<S>>, b: seq<Request<S>>)
    ensures var (c1, s1) := Accept(edges, state, a);
      var (c2, s2) := Accept(edges, s1, b);
      Accept(edges, state, a + b) == (c1 + c2, s2)
    decreases a
  {
    var (c1, s1) := Accept(edges, state, a);
    var (c2, s2) := Accept(edges, s1, b);
    if a == [] {
      assert a + b == b && c1 + c2 == c2;
    } else {
      assert (a + b)[0] == a[0] && (a + b)[1..] == a[1..] + b;
      if (state, a[0].target) in edges {
        var (inner, s0) := Accept(edges, a[0].target, a[0].nested);
        AcceptInTurn(edges, s0, a[1..], b);
        Associative([Change(state, a[0].target, inner)], Accept(edges, s0, a[1..]).0, c2);
      } else {
        AcceptInTurn(edges, state, a[1..], b);
      }
    }
  }

  function Depth<S>(changes: seq<Change<S>>): nat {
    if changes == [] then 0
    else
      var first, rest := 1 + Depth(changes[0].nested), Depth(changes[1..]);
      if first >= rest then first else rest
  }

  /** A connected walk of edges from one state to another. */
  ghost predicate Walk<S>(edges: set<Edge<S>>, from: S, path: seq<Edge<S>>, to: S) {
    if path == [] then from == to
    else path[0] in edges && path[0].0 == from && Walk(edges, path[0].1, path[1..], to)
  }

  lemma {:induction false} WalkAppend<S>(edges: set<Edge<S>>, a: S, p: seq<Edge<S>>, b: S, q: seq<Edge<S>>, c: S)
    requires Walk(edges, a, p, b) && Walk(edges, b, q, c)
    ensures Walk(edges, a, p + q, c)
    decreases p
  {
    if p == [] {
      assert p + q == q;
    } else {
      WalkAppend(edges, p[0].1, p[1..], b, q, c);
      assert (p + q)[1..] == p[1..] + q;
    }
  }

  lemma WalkOverChange<S>(edges: set<Edge<S>>, head: Change<S>, mid: S, later: seq<Change<S>>, to: S)
    requires (head.from, head.to) in edges
    requires Walk(edges, head.to, PreOrder(head.nested), mid) && Walk(edges, mid, PreOrder(later), to)
    ensures Walk(edges, head.from, PreOrder([head] + later), to)
  {
    WalkAppend(edges, head.to, PreOrder(head.nested), mid, PreOrder(later), to);
    var all := [head] + later;
    assert all[1..] == later;
    assert PreOrder(all)[0] == (head.from, head.to);
    assert PreOrder(all)[1..] == PreOrder(head.nested) + PreOrder(later);
  }

  /** In pre-order the accepted changes are a connected walk of registered edges to the final state. */
  lemma {:induction false} PreOrderIsWalk<S>(edges: set<Edge<S>>, state: S, requests: seq<Request<S>>)
    ensures var (changes, final) := Accept(edges, state, requests);
      Walk(edges, state, PreOrder(changes), final)
  {
    if requests == [] {
    } else {
      if (state, requests[0].target) in edges {
        var t := requests[0].target;
        var (inner, s1) := Accept(edges, t, requests[0].nested);
        var (later, s2) := Accept(edges, s1, requests[1..]);
        PreOrderIsWalk(edges, t, requests[0].nested);
        PreOrderIsWalk(edges, s1, requests[1..]);
        WalkOverChange(edges, Change(state, t, inner), s1, later, s2);
      } else {
        PreOrderIsWalk(edges, state, requests[1..]);
      }
    }
  }

  /** Both orders list exactly the same changes. */
  lemma {:induction false} OrdersAgree<S>(changes: seq<Change<S>>)
    ensures multiset(PreOrder(changes)) == multiset(PostOrder(changes))
    ensures |PreOrder(changes)| == |PostOrder(changes)|
  {
    if changes == [] {
    } else {
      OrdersAgree(changes[0].nested);
      OrdersAgree(changes[1..]);
    }
  }

  /** Without nesting the two orders are one. */
  lemma {:induction false} FlatOrdersCoincide<S>(changes: seq<Change<S>>)
    requires Depth(changes) <= 1
    ensures PreOrder(changes) == PostOrder(changes)
  {
    if changes == [] {
    } else {
      assert changes[0].nested == [];
      FlatOrdersCoincide(changes[1..]);
    }
  }

  function Last<T>(s: seq<T>): T
    requires s != []
  {
    s[|s| - 1]
  }

  /**
   * The last report an observer gets is the last outermost change; the state may have moved on since, by
   * the changes nested in it.
   */
  lemma {:induction false} LastReport<S>(edges: set<Edge<S>>, state: S, requests: seq<Request<S>>)
    ensures var (changes, final) := Accept(edges, state, requests);
      if changes == [] then final == state
      else
        && PostOrder(changes) != []
        && Last(PostOrder(changes)) == (Last(changes).from, Last(changes).to)
        && Walk(edges, Last(changes).to, PreOrder(Last(changes).nested), final)
  {
    if requests == [] {
    } else {
      if (state, requests[0].target) in edges {
        var t := requests[0].target;
        var (inner, s1) := Accept(edges, t, requests[0].nested);
        var (later, s2) := Accept(edges, s1, requests[1..]);
        PreOrderIsWalk(edges, t, requests[0].nested);
        LastReport(edges, s1, requests[1..]);
        var all := [Change(state, t, inner)] + later;
        assert all[1..] == later;
      } else {
        LastReport(edges, state, requests[1..]);
      }
    }
  }

  // ----- Cycles of registered edges -----

  /** No state that can be reached from this one can be reached from itself by one or more edges. */
  ghost predicate NoCycleFrom<S(!new)>(edges: set<Edge<S>>, s: S) {
    forall path: seq<Edge<S>>, t: S, loop: seq<Edge<S>> ::
      Walk(edges, s, path, t) && Walk(edges, t, loop, t) ==> loop == []
  }

  lemma NoCycleOnward<S(!new)>(edges: set<Edge<S>>, s: S, path: seq<Edge<S>>, t: S)
    requires NoCycleFrom(edges, s) && Walk(edges, s, path, t)
    ensures NoCycleFrom(edges, t)
  {
    forall onward: seq<Edge<S>>, u: S, loop: seq<Edge<S>> | Walk(edges, t, onward, u) && Walk(edges, u, loop, u)
      ensures loop == []
    {
      WalkAppend(edges, s, path, t, onward, u);
    }
  }

  lemma ClosedWalkIsEmpty<S(!new)>(edges: set<Edge<S>>, s: S, path: seq<Edge<S>>, t: S, loop: seq<Edge<S>>)
    requires NoCycleFrom(edges, s) && Walk(edges, s, path, t) && Walk(edges, t, loop, t)
    ensures |loop| == 0
  {
  }

  lemma OneEdge<S>(edges: set<Edge<S>>, from: S, to: S)
    requires (from, to) in edges
    ensures Walk(edges, from, [(from, to)], to)
  {
    assert [(from, to)][1..] == [];
  }

  lemma {:induction false} WalkSplit<S>(edges: set<Edge<S>>, from: S, path: seq<Edge<S>>, to: S, i: nat)
    requires Walk(edges, from, path, to) && i < |path|
    ensures path[i] in edges
    ensures Walk(edges, from, path[..i], path[i].0) && Walk(edges, path[i].0, path[i..], to)
    decreases path
  {
    if i == 0 {
      assert path[..0] == [] && path[0..] == path;
    } else {
      WalkSplit(edges, path[0].1, path[1..], to, i - 1);
      assert path[..i][1..] == path[1..][..i - 1] && path[1..][i - 1..] == path[i..];
    }
  }

  /** A walk that takes no cycle takes no edge twice. */
  lemma NoEdgeTwice<S(!new)>(edges: set<Edge<S>>, from: S, path: seq<Edge<S>>, to: S, i: nat, j: nat)
    requires NoCycleFrom(edges, from) && Walk(edges, from, path, to) && i < j < |path|
    ensures path[i] != path[j]
  {
    if path[i] == path[j] {
      WalkSplit(edges, from, path, to, j);
      WalkSplit(edges, from, path[..j], path[j].0, i);
      ClosedWalkIsEmpty(edges, from, path[..j][..i], path[i].0, path[..j][i..]);
    }
  }

  lemma {:induction false} Pigeonhole<T>(path: seq<T>, holes: set<T>)
    requires forall i | 0 <= i < |path| :: path[i] in holes
    requires forall i, j | 0 <= i < j < |path| :: path[i] != path[j]
    ensures |path| <= |holes|
  {
    if path == [] {
    } else {
      Pigeonhole(path[1..], holes - {path[0]});
    }
  }

  lemma WalkWithoutCycleIsShort<S(!new)>(edges: set<Edge<S>>, from: S, path: seq<Edge<S>>, to: S)
    requires NoCycleFrom(edges, from) && Walk(edges, from, path, to)
    ensures |path| <= |edges|
  {
    forall i | 0 <= i < |path| ensures path[i] in edges {
      WalkSplit(edges, from, path, to, i);
    }
    forall i, j | 0 <= i < j < |path| ensures path[i] != path[j] {
      NoEdgeTwice(edges, from, path, to, i, j);
    }
    Pigeonhole(path, edges);
  }

  // ----- When callbacks and observers agree -----

  /** Nothing is accepted exactly when no request is a registered edge from the present state. */
  lemma {:induction false} NothingAcceptedIff<S>(edges: set<Edge<S>>, state: S, requests: seq<Request<S>>)
    ensures Accept(edges, state, requests).0 == []
            <==> forall k | 0 <= k < |requests| :: (state, requests[k].target) !in edges
  {
    if requests == [] {
    } else if (state, requests[0].target) in edges {
      assert Accept(edges, state, requests).0 != [];
    } else {
      NothingAcceptedIff(edges, state, requests[1..]);
      assert forall k | 1 <= k < |requests| :: requests[k] == requests[1..][k - 1];
      assert forall k | 0 <= k < |requests| - 1 :: requests[1..][k] == requests[k + 1];
    }
  }

  /** Without cycles, no change nested in another is that other change again. */
  lemma NotNestedInItself<S(!new)>(edges: set<Edge<S>>, from: S, to: S, path: seq<Edge<S>>, final: S)
    requires NoCycleFrom(edges, from) && (from, to) in edges && Walk(edges, to, path, final)
    ensures (from, to) !in path
  {
    if i: nat :| i < |path| && path[i] == (from, to) {
      WalkSplit(edges, to, path, final, i);
      OneEdge(edges, from, to);
      WalkAppend(edges, from, [(from, to)], to, path[..i], from);
      ClosedWalkIsEmpty(edges, from, [], from, [(from, to)] + path[..i]);
    }
  }

  lemma FirstDiffers<S(!new)>(edges: set<Edge<S>>, from: S, to: S, requests: seq<Request<S>>)
    requires NoCycleFrom(edges, from) && (from, to) in edges
    requires Accept(edges, to, requests).0 != []
    ensures var reports := PostOrder(Accept(edges, to, requests).0);
      reports != [] && reports[0] != (from, to)
  {
    var (inner, final) := Accept(edges, to, requests);
    PreOrderIsWalk(edges, to, requests);
    NotNestedInItself(edges, from, to, PreOrder(inner), final);
    OrdersAgree(inner);
    assert PreOrder(inner) != [];
    assert PostOrder(inner)[0] in multiset(PostOrder(inner));
    assert (from, to) !in multiset(PreOrder(inner));
  }

  lemma FlatHead<S>(head: Change<S>, later: seq<Change<S>>)
    requires head.nested == []
    ensures PreOrder([head] + later) == PostOrder([head] + later) <==> PreOrder(later) == PostOrder(later)
    ensures Depth([head] + later) <= 1 <==> Depth(later) <= 1
  {
    var all, e := [head] + later, (head.from, head.to);
    assert all[0] == head && all[1..] == later;
    assert PreOrder(head.nested) == [] && PostOrder(head.nested) == [];
    assert PreOrder(all) == [e] + PreOrder(later);
    assert PostOrder(all) == [e] + PostOrder(later);
    assert ([e] + PreOrder(later))[1..] == PreOrder(later);
    assert ([e] + PostOrder(later))[1..] == PostOrder(later);
  }

  /** From an accepted first change on, everything happens in states that were reachable already. */
  lemma AfterFirst<S(!new)>(edges: set<Edge<S>>, state: S, r: Request<S>)
    requires NoCycleFrom(edges, state) && (state, r.target) in edges
    ensures NoCycleFrom(edges, Accept(edges, r.target, r.nested).1)
  {
    var (inner, s1) := Accept(edges, r.target, r.nested);
    PreOrderIsWalk(edges, r.target, r.nested);
    OneEdge(edges, state, r.target);
    NoCycleOnward(edges, state, [(state, r.target)], r.target);
    NoCycleOnward(edges, r.target, PreOrder(inner), s1);
  }

  /** Without cycles, callbacks and observers are told the changes in the same order exactly when none is nested. */
  lemma {:induction false} OrdersCoincideIffFlat<S(!new)>(edges: set<Edge<S>>, state: S, requests: seq<Request<S>>)
    requires NoCycleFrom(edges, state)
    ensures var changes := Accept(edges, state, requests).0;
      PreOrder(changes) == PostOrder(changes) <==> Depth(changes) <= 1
  {
    if requests == [] {
    } else if (state, requests[0].target) in edges {
      var (inner, s1) := Accept(edges, requests[0].target, requests[0].nested);
      var later := Accept(edges, s1, requests[1..]).0;
      var all := [Change(state, requests[0].target, inner)] + later;
      assert all[1..] == later;
      AfterFirst(edges, state, requests[0]);
      OrdersCoincideIffFlat(edges, s1, requests[1..]);
      if inner == [] {
        FlatHead(all[0], later);
      } else {
        FirstDiffers(edges, state, requests[0].target, requests[0].nested);
        assert PostOrder(all)[0] == PostOrder(inner)[0] && PreOrder(all)[0] == (state, requests[0].target);
      }
    } else {
      OrdersCoincideIffFlat(edges, state, requests[1..]);
    }
  }

  /** The callback of this request asks for no change that is registered from the state it finds. */
  predicate CallbackIsQuiet<S(==)>(edges: set<Edge<S>>, r: Request<S>) {
    forall k | 0 <= k < |r.nested| :: (r.target, r.nested[k].target) !in edges
  }

  /** One accepted call without cycles: both are told the same order exactly when the callback asks for nothing new. */
  lemma CallOrderIff<S(!new)>(edges: set<Edge<S>>, state: S, r: Request<S>)
    requires (state, r.target) in edges && NoCycleFrom(edges, state)
    ensures var changes := Accept(edges, state, [r]).0;
      PreOrder(changes) == PostOrder(changes) <==> CallbackIsQuiet(edges, r)
  {
    AcceptSingle(edges, state, r);
    NothingAcceptedIff(edges, r.target, r.nested);
    OrdersCoincideIffFlat(edges, state, [r]);
    var changes := Accept(edges, state, [r]).0;
    assert changes[1..] == [];
    assert Depth(changes) == 1 + Depth(changes[0].nested);
    assert changes[0].nested != [] ==> Depth(changes[0].nested) >= 1;
  }

  /** One accepted call: the last report is of the state the call ends in. */
  ghost predicate LastReportIsCurrent<S>(edges: set<Edge<S>>, state: S, r: Request<S>)
    requires (state, r.target) in edges
  {
    var (changes, final) := Accept(edges, state, [r]);
    PostOrder(changes) != [] && Last(PostOrder(changes)).1 == final
  }

  lemma CallEnds<S>(edges: set<Edge<S>>, state: S, r: Request<S>)
    requires (state, r.target) in edges
    ensures LastReportIsCurrent(edges, state, r) <==> r.target == Accept(edges, r.target, r.nested).1
  {
    AcceptSingle(edges, state, r);
    LastReport(edges, state, [r]);
  }

  /** Every way of leaving a state by edges leads elsewhere. */
  ghost predicate NoCycleAt<S(!new)>(edges: set<Edge<S>>, t: S) {
    forall loop: seq<Edge<S>> :: Walk(edges, t, loop, t) ==> loop == []
  }

  lemma CurrentIffQuiet<S(!new)>(edges: set<Edge<S>>, state: S, r: Request<S>)
    requires (state, r.target) in edges && NoCycleAt(edges, r.target)
    ensures LastReportIsCurrent(edges, state, r) <==> CallbackIsQuiet(edges, r)
  {
    CallEnds(edges, state, r);
    NothingAcceptedIff(edges, r.target, r.nested);
    PreOrderIsWalk(edges, r.target, r.nested);
    var (inner, final) := Accept(edges, r.target, r.nested);
    if inner != [] {
      assert PreOrder(inner) != [];
    }
  }

  ghost predicate LastReportTells<S(!new)>(edges: set<Edge<S>>, state: S, target: S)
    requires (state, target) in edges
  {
    forall r: Request<S> | r.target == target ::
      LastReportIsCurrent(edges, state, r) <==> CallbackIsQuiet(edges, r)
  }

  /**
   * For the calls that enter a state by an edge, the last report is current exactly if the callback asks for
   * no registered change: true of all of them exactly when no cycle leads back to that state.
   */
  lemma LastReportTellsIff<S(!new)>(edges: set<Edge<S>>, state: S, target: S)
    requires (state, target) in edges
    ensures LastReportTells(edges, state, target) <==> NoCycleAt(edges, target)
  {
    if NoCycleAt(edges, target) {
      forall r: Request<S> | r.target == target
        ensures LastReportIsCurrent(edges, state, r) <==> CallbackIsQuiet(edges, r)
      {
        CurrentIffQuiet(edges, state, r);
      }
    } else {
      var loop: seq<Edge<S>> :| Walk(edges, target, loop, target) && loop != [];
      var r := Request(target, Chase(loop));
      ChaseNests(edges, target, loop, target);
      CallEnds(edges, state, r);
      NothingAcceptedIff(edges, target, r.nested);
      assert LastReportIsCurrent(edges, state, r) && !CallbackIsQuiet(edges, r);
    }
  }

  // ----- When nesting must end -----

  lemma {:induction false} DepthWithinSize<S>(changes: seq<Change<S>>)
    ensures Depth(changes) <= |PreOrder(changes)|
  {
    if changes == [] {
    } else {
      DepthWithinSize(changes[0].nested);
      DepthWithinSize(changes[1..]);
    }
  }

  /** Without cycles one call nests at most as deep, and changes the state as often, as there are edges. */
  lemma EdgesBoundNesting<S(!new)>(edges: set<Edge<S>>, state: S, requests: seq<Request<S>>)
    requires NoCycleFrom(edges, state)
    ensures var changes := Accept(edges, state, requests).0;
      Depth(changes) <= |PreOrder(changes)| <= |edges|
  {
    var (changes, final) := Accept(edges, state, requests);
    PreOrderIsWalk(edges, state, requests);
    WalkWithoutCycleIsShort(edges, state, PreOrder(changes), final);
    DepthWithinSize(changes);
  }

  /** Each callback on the path requests the next state of the path. */
  function Chase<S>(path: seq<Edge<S>>): seq<Request<S>> {
    if path == [] then [] else [Request(path[0].1, Chase(path[1..]))]
  }

  lemma {:induction false} ChaseNests<S>(edges: set<Edge<S>>, from: S, path: seq<Edge<S>>, to: S)
    requires Walk(edges, from, path, to)
    ensures Depth(Accept(edges, from, Chase(path)).0) == |path|
    ensures Accept(edges, from, Chase(path)).1 == to
    decreases path
  {
    if path == [] {
    } else {
      ChaseNests(edges, path[0].1, path[1..], to);
      assert Chase(path)[1..] == [];
      var changes := [Change(from, path[0].1, Accept(edges, path[0].1, Chase(path[1..])).0)];
      assert Accept(edges, from, Chase(path)).0 == changes + [];
      assert changes[1..] == [];
    }
  }

  lemma {:induction false} LongWalk<S>(edges: set<Edge<S>>, s: S, loop: seq<Edge<S>>, n: nat)
    returns (path: seq<Edge<S>>)
    requires loop != [] && Walk(edges, s, loop, s)
    ensures Walk(edges, s, path, s) && |path| == n * |loop|
  {
    if n == 0 {
      path := [];
    } else {
      var rest := LongWalk(edges, s, loop, n - 1);
      WalkAppend(edges, s, loop, s, rest, s);
      path := loop + rest;
    }
  }

  /** Along any cycle that can be reached requests nest deeper than any n. */
  lemma CycleNestsWithoutBound<S>(edges: set<Edge<S>>, s: S, path: seq<Edge<S>>, t: S, loop: seq<Edge<S>>, n: nat)
    returns (requests: seq<Request<S>>)
    requires Walk(edges, s, path, t) && loop != [] && Walk(edges, t, loop, t)
    ensures Depth(Accept(edges, s, requests).0) >= n
    ensures Accept(edges, s, requests).1 == t
  {
    var rounds := LongWalk(edges, t, loop, n);
    WalkAppend(edges, s, path, t, rounds, t);
    ChaseNests(edges, s, path + rounds, t);
    assert n * |loop| >= n;
    requests := Chase(path + rounds);
  }

  ghost predicate NestsAtMost<S(!new)>(edges: set<Edge<S>>, s: S, n: nat) {
    forall requests: seq<Request<S>> :: Depth(Accept(edges, s, requests).0) <= n
  }

  /** The nesting has a bound, and then the number of edges is one, exactly when no cycle can be reached. */
  lemma NestingBoundedIff<S(!new)>(edges: set<Edge<S>>, s: S)
    ensures (exists n: nat :: NestsAtMost(edges, s, n)) <==> NoCycleFrom(edges, s)
    ensures NoCycleFrom(edges, s) ==> NestsAtMost(edges, s, |edges|)
  {
    if NoCycleFrom(edges, s) {
      forall requests: seq<Request<S>> ensures Depth(Accept(edges, s, requests).0) <= |edges| {
        EdgesBoundNesting(edges, s, requests);
      }
      assert NestsAtMost(edges, s, |edges|);
    } else {
      var path: seq<Edge<S>>, t: S, loop: seq<Edge<S>> :|
        Walk(edges, s, path, t) && Walk(edges, t, loop, t) && loop != [];
      forall n: nat ensures !NestsAtMost(edges, s, n) {
        var requests := CycleNestsWithoutBound(edges, s, path, t, loop, n + 1);
      }
    }
  }

  // ----- Ranks -----

  ghost predicate Decreasing<S(!new)>(edges: set<Edge<S>>, rank: S -> nat) {
    forall e | e in edges :: rank(e.1) < rank(e.0)
  }

  /** Along decreasing edges a walk cannot be longer than the rank it gives up. */
  lemma {:induction false} WalkSpendsRank<S(!new)>(edges: set<Edge<S>>, rank: S -> nat,
                                                  from: S, path: seq<Edge<S>>, to: S)
    requires Decreasing(edges, rank) && Walk(edges, from, path, to)
    ensures |path| + rank(to) <= rank(from)
    decreases path
  {
    if path == [] {
    } else {
      WalkSpendsRank(edges, rank, path[0].1, path[1..], to);
    }
  }

  /** Some walk from s has n edges. */
  ghost predicate HasWalk<S(!new)>(edges: set<Edge<S>>, s: S, n: nat) {
    exists path: seq<Edge<S>>, t: S :: Walk(edges, s, path, t) && |path| == n
  }

  /** The length of the longest walk from s, if it is at most n. */
  ghost function Height<S(!new)>(edges: set<Edge<S>>, s: S, n: nat): (h: nat)
    ensures h <= n
    ensures HasWalk(edges, s, h)
    ensures forall k | h < k <= n :: !HasWalk(edges, s, k)
    decreases n
  {
    var none: seq<Edge<S>> := [];
    assert Walk(edges, s, none, s) && |none| == 0;
    if n == 0 || HasWalk(edges, s, n) then n else Height(edges, s, n - 1)
  }

  lemma HeightDecreases<S(!new)>(edges: set<Edge<S>>, e: Edge<S>)
    requires forall s :: NoCycleFrom(edges, s)
    requires e in edges
    ensures Height(edges, e.1, |edges|) < Height(edges, e.0, |edges|)
  {
    var h := Height(edges, e.1, |edges|);
    assert HasWalk(edges, e.1, h);
    var path: seq<Edge<S>>, t: S :| Walk(edges, e.1, path, t) && |path| == h;
    OneEdge(edges, e.0, e.1);
    WalkAppend(edges, e.0, [(e.0, e.1)], e.1, path, t);
    WalkWithoutCycleIsShort(edges, e.0, [(e.0, e.1)] + path, t);
    assert HasWalk(edges, e.0, |path| + 1);
  }

  /** The edges decrease some rank exactly when they have no cycle anywhere. */
  lemma RankIffNoCycle<S(!new)>(edges: set<Edge<S>>)
    ensures (exists rank: S -> nat :: Decreasing(edges, rank)) <==> forall s :: NoCycleFrom(edges, s)
  {
    if rank: S -> nat :| Decreasing(edges, rank) {
      forall s ensures NoCycleFrom(edges, s) {
        forall path: seq<Edge<S>>, t: S, loop: seq<Edge<S>> | Walk(edges, s, path, t) && Walk(edges, t, loop, t)
          ensures loop == []
        {
          WalkSpendsRank(edges, rank, t, loop, t);
        }
      }
    }
    if forall s :: NoCycleFrom(edges, s) {
      var rank: S -> nat := s => Height(edges, s, |edges|);
      forall e | e in edges ensures rank(e.1) < rank(e.0) {
        HeightDecreases(edges, e);
      }
      assert Decreasing(edges, rank);
    }
  }

  /** Under a rank, nesting is at most as deep, and the accepted changes as many, as the rank given up. */
  lemma RankBoundsNesting<S(!new)>(edges: set<Edge<S>>, rank: S -> nat, state: S, requests: seq<Request<S>>)
    requires Decreasing(edges, rank)
    ensures var (changes, final) := Accept(edges, state, requests);
      Depth(changes) <= |PreOrder(changes)| <= rank(state) - rank(final)
  {
    var (changes, final) := Accept(edges, state, requests);
    PreOrderIsWalk(edges, state, requests);
    WalkSpendsRank(edges, rank, state, PreOrder(changes), final);
    DepthWithinSize(changes);
  }

  /** Under a rank, the last report names the current state exactly when its callback changed nothing. */
  lemma LastReportCurrentIffFlat<S(!new)>(edges: set<Edge<S>>, rank: S -> nat, state: S, requests: seq<Request<S>>)
    requires Decreasing(edges, rank) && Accept(edges, state, requests).0 != []
    ensures var (changes, final) := Accept(edges, state, requests);
      Last(PostOrder(changes)).1 == final <==> Last(changes).nested == []
  {
    var (changes, final) := Accept(edges, state, requests);
    LastReport(edges, state, requests);
    var last := Last(changes);
    WalkSpendsRank(edges, rank, last.to, PreOrder(last.nested), final);
    if last.nested != [] {
      assert |PreOrder(last.nested)| >= 1;
    }
  }

  // ----- Callbacks that decide as they go -----

  /** What has happened so far: callbacks entered and left, and requests refused. */
  datatype Report<S> = Entered(edge: Edge<S>) | Refused(edge: Edge<S>) | Returned

  function Entries<S>(trace: seq<Report<S>>): seq<Edge<S>> {
    if trace == [] then []
    else
      var last := trace[|trace| - 1];
      Entries(trace[..|trace| - 1]) + if last.Entered? then [last.edge] else []
  }

  /**
   * What callbacks do: the one that runs chooses its next target, or to return, from everything that happened
   * so far, the outcome of its own earlier requests included. When it is entered, `most` bounds how many
   * requests it will make: a callback that asks for ever is not covered.
   */
  datatype Script<!S> = Script(most: seq<Report<S>> -> nat, next: seq<Report<S>> -> Option<S>)

  datatype Outcome<S> = Outcome(requests: seq<Request<S>>, changes: seq<Change<S>>, final: S, trace: seq<Report<S>>)

  /**
   * At most `left` requests of the callback that runs, with no bound on the nesting: that this is a function
   * at all says that re-entrant changes terminate when every edge decreases a rank.
   */
  ghost function Follow<S(!new)>(edges: set<Edge<S>>, rank: S -> nat, script: Script<S>,
                                 trace: seq<Report<S>>, state: S, left: nat): (o: Outcome<S>)
    requires Decreasing(edges, rank)
    ensures rank(o.final) <= rank(state)
    decreases rank(state), left
  {
    if left == 0 || script.next(trace).None? then Outcome([], [], state, trace)
    else
      var target := script.next(trace).value;
      if (state, target) in edges then
        var entered := trace + [Entered((state, target))];
        var inner := Follow(edges, rank, script, entered, target, script.most(entered));
        var later := Follow(edges, rank, script, inner.trace + [Returned], inner.final, left - 1);
        Outcome([Request(target, inner.requests)] + later.requests,
                [Change(state, target, inner.changes)] + later.changes,
                later.final, later.trace)
      else
        var later := Follow(edges, rank, script, trace + [Refused((state, target))], state, left - 1);
        Outcome([Request(target, [])] + later.requests, later.changes, later.final, later.trace)
  }

  lemma EntriesAppend<S>(trace: seq<Report<S>>, r: Report<S>)
    ensures Entries(trace + [r]) == Entries(trace) + if r.Entered? then [r.edge] else []
  {
    assert (trace + [r])[..|trace|] == trace;
  }

  lemma AcceptNested<S>(edges: set<Edge<S>>, state: S, r: Request<S>, later: seq<Request<S>>)
    ensures Accept(edges, state, [r] + later) ==
              if (state, r.target) in edges then
                var (inner, s1) := Accept(edges, r.target, r.nested);
                var (changes, final) := Accept(edges, s1, later);
                ([Change(state, r.target, inner)] + changes, final)
              else Accept(edges, state, later)
  {
    assert ([r] + later)[0] == r && ([r] + later)[1..] == later;
  }

  lemma ExtendNested<S>(head: Change<S>, later: seq<Change<S>>, history: seq<Edge<S>>)
    ensures history + PreOrder([head] + later) ==
              (history + [(head.from, head.to)]) + PreOrder(head.nested) + PreOrder(later)
  {
    assert ([head] + later)[1..] == later;
  }

  /** What an outcome must be for the requests it unfolds to. */
  ghost predicate Faithful<S>(edges: set<Edge<S>>, trace: seq<Report<S>>, state: S, o: Outcome<S>) {
    && Accept(edges, state, o.requests) == (o.changes, o.final)
    && Entries(o.trace) == Entries(trace) + PreOrder(o.changes)
  }

  lemma FaithfulNested<S>(edges: set<Edge<S>>, trace: seq<Report<S>>, state: S, target: S,
                          inner: Outcome<S>, later: Outcome<S>)
    requires (state, target) in edges
    requires Faithful(edges, trace + [Entered((state, target))], target, inner)
    requires Faithful(edges, inner.trace + [Returned], inner.final, later)
    ensures Faithful(edges, trace, state,
                     Outcome([Request(target, inner.requests)] + later.requests,
                             [Change(state, target, inner.changes)] + later.changes, later.final, later.trace))
  {
    EntriesAppend(trace, Entered((state, target)));
    EntriesAppend(inner.trace, Returned);
    AcceptNested(edges, state, Request(target, inner.requests), later.requests);
    ExtendNested(Change(state, target, inner.changes), later.changes, Entries(trace));
  }

  lemma FaithfulRefused<S>(edges: set<Edge<S>>, trace: seq<Report<S>>, state: S, target: S, later: Outcome<S>)
    requires (state, target) !in edges
    requires Faithful(edges, trace + [Refused((state, target))], state, later)
    ensures Faithful(edges, trace, state, later.(requests := [Request(target, [])] + later.requests))
  {
    EntriesAppend(trace, Refused((state, target)));
    AcceptNested(edges, state, Request(target, []), later.requests);
  }

  /** The scripted run is the run of the request tree it unfolds to. */
  lemma {:induction false} FollowIsAccept<S(!new)>(edges: set<Edge<S>>, rank: S -> nat, script: Script<S>,
                                                  trace: seq<Report<S>>, state: S, left: nat)
    requires Decreasing(edges, rank)
    ensures Faithful(edges, trace, state, Follow(edges, rank, script, trace, state, left))
    decreases rank(state), left
  {
    if left == 0 || script.next(trace).None? {
    } else {
      var target := script.next(trace).value;
      if (state, target) in edges {
        var entered := trace + [Entered((state, target))];
        var inner := Follow(edges, rank, script, entered, target, script.most(entered));
        var later := Follow(edges, rank, script, inner.trace + [Returned], inner.final, left - 1);
        FollowIsAccept(edges, rank, script, entered, target, script.most(entered));
        FollowIsAccept(edges, rank, script, inner.trace + [Returned], inner.final, left - 1);
        FaithfulNested(edges, trace, state, target, inner, later);
      } else {
        var refused := trace + [Refused((state, target))];
        FollowIsAccept(edges, rank, script, refused, state, left - 1);
        FaithfulRefused(edges, trace, state, target, Follow(edges, rank, script, refused, state, left - 1));
      }
    }
  }

  // ----- What the run owes to the script -----

  /**
   * How deep the callbacks entered here stand, and how many requests were made at depth 0: of a report that
   * a callback was entered and of what follows it until it returns, the latter are its own requests.
   */
  function Ledger<S>(reports: seq<Report<S>>): (int, int) {
    if reports == [] then (0, 0)
    else
      var (depth, own) := Ledger(reports[..|reports| - 1]);
      var asked := if depth == 0 then own + 1 else own;
      match reports[|reports| - 1]
      case Entered(_) => (depth + 1, asked)
      case Refused(_) => (depth, asked)
      case Returned => (depth - 1, own)
  }

  lemma LedgerAppend<S>(reports: seq<Report<S>>, r: Report<S>)
    ensures var (depth, own) := Ledger(reports);
      var asked := if depth == 0 then own + 1 else own;
      Ledger(reports + [r]) == match r
                               case Entered(_) => (depth + 1, asked)
                               case Refused(_) => (depth, asked)
                               case Returned => (depth - 1, own)
  {
    assert (reports + [r])[..|reports|] == reports;
  }

  /** A callback with this many requests at its disposal may stop after `own` of them. */
  ghost predicate MayStop<S>(script: Script<S>, trace: seq<Report<S>>, own: int, most: nat) {
    own <= most && (own == most || script.next(trace).None?)
  }

  /** The callback entered at j returns at i: everything in between is its own requests and what they led to. */
  ghost predicate ReturnsAt<S>(script: Script<S>, trace: seq<Report<S>>, j: nat, i: nat)
    requires j < i < |trace|
  {
    && trace[j].Entered?
    && Ledger(trace[j + 1..i]).0 == 0
    && MayStop(script, trace[..i], Ledger(trace[j + 1..i]).1, script.most(trace[..j + 1]))
  }

  /** The i-th report is what the script asked for, and was granted exactly if its edge is registered. */
  ghost predicate ObeysAt<S>(edges: set<Edge<S>>, script: Script<S>, trace: seq<Report<S>>, i: nat)
    requires i < |trace|
  {
    match trace[i]
    case Entered(edge) => script.next(trace[..i]) == Some(edge.1) && edge in edges
    case Refused(edge) => script.next(trace[..i]) == Some(edge.1) && edge !in edges
    case Returned => exists j | 0 <= j < i :: ReturnsAt(script, trace, j, i)
  }

  /** Everything reported since a trace obeys the script. */
  ghost predicate Obeys<S>(edges: set<Edge<S>>, script: Script<S>, trace: seq<Report<S>>, longer: seq<Report<S>>) {
    && trace <= longer
    && forall i | |trace| <= i < |longer| :: ObeysAt(edges, script, longer, i)
  }

  lemma ObeysOnward<S>(edges: set<Edge<S>>, script: Script<S>, trace: seq<Report<S>>, longer: seq<Report<S>>, i: nat)
    requires trace <= longer && i < |trace| && ObeysAt(edges, script, trace, i)
    ensures ObeysAt(edges, script, longer, i)
  {
    assert longer[..i] == trace[..i];
    if trace[i].Returned? {
      var j :| 0 <= j < i && ReturnsAt(script, trace, j, i);
      assert longer[j + 1..i] == trace[j + 1..i] && longer[..j + 1] == trace[..j + 1];
      assert ReturnsAt(script, longer, j, i);
    }
  }

  lemma ObeysInTurn<S>(edges: set<Edge<S>>, script: Script<S>,
                       a: seq<Report<S>>, b: seq<Report<S>>, c: seq<Report<S>>)
    requires Obeys(edges, script, a, b) && Obeys(edges, script, b, c)
    ensures Obeys(edges, script, a, c)
  {
    forall i | |a| <= i < |c| ensures ObeysAt(edges, script, c, i) {
      if i < |b| {
        ObeysOnward(edges, script, b, c, i);
      }
    }
  }

  lemma ObeysOne<S>(edges: set<Edge<S>>, script: Script<S>, trace: seq<Report<S>>, r: Report<S>)
    requires r.Returned? || (script.next(trace) == Some(r.edge.1) && (r.Entered? <==> r.edge in edges))
    requires r.Returned? ==> exists j | 0 <= j < |trace| :: ReturnsAt(script, trace + [r], j, |trace|)
    ensures Obeys(edges, script, trace, trace + [r])
  {
    assert (trace + [r])[..|trace|] == trace;
  }

  /** The later reports add n requests at the depth of the earlier ones, and leave that depth. */
  ghost predicate Adds<S>(earlier: seq<Report<S>>, later: seq<Report<S>>, n: nat) {
    var (depth, own) := Ledger(earlier);
    Ledger(later) == (depth, if depth == 0 then own + n else own)
  }

  lemma EnteredIsDeeper<S>(trace: seq<Report<S>>, edge: Edge<S>, base: nat)
    requires base <= |trace| && Ledger(trace[base..]).0 >= 0
    ensures Ledger((trace + [Entered(edge)])[base..]).0 == Ledger(trace[base..]).0 + 1
  {
    LedgerAppend(trace[base..], Entered(edge));
    assert (trace + [Entered(edge)])[base..] == trace[base..] + [Entered(edge)];
  }

  /** A callback's own requests do not count where it was called from, where they stand one deeper. */
  lemma AddsCall<S>(trace: seq<Report<S>>, edge: Edge<S>, inner: seq<Report<S>>, base: nat, n: nat)
    requires base <= |trace| && base <= |inner| && Ledger(trace[base..]).0 >= 0
    requires Adds((trace + [Entered(edge)])[base..], inner[base..], n)
    ensures Adds(trace[base..], (inner + [Returned])[base..], 1)
  {
    LedgerAppend(trace[base..], Entered(edge));
    assert (trace + [Entered(edge)])[base..] == trace[base..] + [Entered(edge)];
    LedgerAppend(inner[base..], Returned);
    assert (inner + [Returned])[base..] == inner[base..] + [Returned];
  }

  lemma AddsRefusal<S>(trace: seq<Report<S>>, edge: Edge<S>, base: nat)
    requires base <= |trace|
    ensures Adds(trace[base..], (trace + [Refused(edge)])[base..], 1)
  {
    LedgerAppend(trace[base..], Refused(edge));
    assert (trace + [Refused(edge)])[base..] == trace[base..] + [Refused(edge)];
  }

  lemma AddsInTurn<S>(a: seq<Report<S>>, b: seq<Report<S>>, c: seq<Report<S>>, m: nat, n: nat)
    requires Adds(a, b, m) && Adds(b, c, n)
    ensures Adds(a, c, m + n)
  {
  }

  /** Since `base` the reports of a run add its own requests to whatever was there, and leave the depth. */
  lemma {:induction false} FollowLedger<S(!new)>(edges: set<Edge<S>>, rank: S -> nat, script: Script<S>,
                                                trace: seq<Report<S>>, state: S, left: nat, base: nat)
    requires Decreasing(edges, rank) && base <= |trace| && Ledger(trace[base..]).0 >= 0
    ensures var o := Follow(edges, rank, script, trace, state, left);
      |trace| <= |o.trace| && Adds(trace[base..], o.trace[base..], |o.requests|)
    decreases rank(state), left, 1
  {
    if left == 0 || script.next(trace).None? {
    } else {
      var edge := (state, script.next(trace).value);
      if edge in edges {
        CallLedger(edges, rank, script, trace, edge, left, base);
      } else {
        var refused := trace + [Refused(edge)];
        AddsRefusal(trace, edge, base);
        FollowLedger(edges, rank, script, refused, state, left - 1, base);
        var later := Follow(edges, rank, script, refused, state, left - 1);
        AddsInTurn(trace[base..], refused[base..], later.trace[base..], 1, |later.requests|);
      }
    }
  }

  lemma {:induction false} CallLedger<S(!new)>(edges: set<Edge<S>>, rank: S -> nat, script: Script<S>,
                                              trace: seq<Report<S>>, edge: Edge<S>, left: nat, base: nat)
    requires Decreasing(edges, rank) && base <= |trace| && Ledger(trace[base..]).0 >= 0
    requires left > 0 && edge in edges
    ensures var entered := trace + [Entered(edge)];
      var inner := Follow(edges, rank, script, entered, edge.1, script.most(entered));
      var later := Follow(edges, rank, script, inner.trace + [Returned], inner.final, left - 1);
      |trace| <= |later.trace| && Adds(trace[base..], later.trace[base..], 1 + |later.requests|)
    decreases rank(edge.0), left, 0
  {
    var entered := trace + [Entered(edge)];
    var inner := Follow(edges, rank, script, entered, edge.1, script.most(entered));
    var returned := inner.trace + [Returned];
    var later := Follow(edges, rank, script, returned, inner.final, left - 1);
    EnteredIsDeeper(trace, edge, base);
    FollowLedger(edges, rank, script, entered, edge.1, script.most(entered), base);
    AddsCall(trace, edge, inner.trace, base, |inner.requests|);
    FollowLedger(edges, rank, script, returned, inner.final, left - 1, base);
    AddsInTurn(trace[base..], returned[base..], later.trace[base..], 1, |later.requests|);
  }

  /**
   * A scripted run obeys its script: every request is the one the script makes of the trace before it, and it
   * is granted exactly if registered; a callback returns, and the run itself stops, only when its requests
   * are used up or the script has no further one.
   */
  lemma {:induction false} FollowObeys<S(!new)>(edges: set<Edge<S>>, rank: S -> nat, script: Script<S>,
                                               trace: seq<Report<S>>, state: S, left: nat)
    requires Decreasing(edges, rank)
    ensures var o := Follow(edges, rank, script, trace, state, left);
      Obeys(edges, script, trace, o.trace) && MayStop(script, o.trace, |o.requests|, left)
    decreases rank(state), left
  {
    if left == 0 || script.next(trace).None? {
    } else {
      var target := script.next(trace).value;
      if (state, target) in edges {
        var entered := trace + [Entered((state, target))];
        var inner := Follow(edges, rank, script, entered, target, script.most(entered));
        ObeysOne(edges, script, trace, Entered((state, target)));
        FollowObeys(edges, rank, script, entered, target, script.most(entered));
        ReturnObeys(edges, rank, script, trace, state, target);
        FollowObeys(edges, rank, script, inner.trace + [Returned], inner.final, left - 1);
        ObeysInTurn(edges, script, trace, entered, inner.trace);
        ObeysInTurn(edges, script, trace, inner.trace, inner.trace + [Returned]);
        ObeysInTurn(edges, script, trace, inner.trace + [Returned],
                    Follow(edges, rank, script, inner.trace + [Returned], inner.final, left - 1).trace);
      } else {
        var refused := trace + [Refused((state, target))];
        ObeysOne(edges, script, trace, Refused((state, target)));
        FollowObeys(edges, rank, script, refused, state, left - 1);
        ObeysInTurn(edges, script, trace, refused, Follow(edges, rank, script, refused, state, left - 1).trace);
      }
    }
  }

  lemma ReturnObeys<S(!new)>(edges: set<Edge<S>>, rank: S -> nat, script: Script<S>,
                            trace: seq<Report<S>>, state: S, target: S)
    requires Decreasing(edges, rank) && (state, target) in edges
    requires var entered := trace + [Entered((state, target))];
      var inner := Follow(edges, rank, script, entered, target, script.most(entered));
      Obeys(edges, script, entered, inner.trace) && MayStop(script, inner.trace, |inner.requests|, script.most(entered))
    ensures var entered := trace + [Entered((state, target))];
      var inner := Follow(edges, rank, script, entered, target, script.most(entered));
      Obeys(edges, script, inner.trace, inner.trace + [Returned])
  {
    var entered := trace + [Entered((state, target))];
    var inner := Follow(edges, rank, script, entered, target, script.most(entered));
    assert entered[|entered|..] == [];
    assert Ledger(entered[|entered|..]) == (0, 0);
    FollowLedger(edges, rank, script, entered, target, script.most(entered), |entered|);
    var whole, j, i := inner.trace + [Returned], |trace|, |inner.trace|;
    assert whole[..i] == inner.trace && whole[j + 1..i] == inner.trace[|entered|..];
    assert whole[..j + 1] == entered && whole[j] == entered[j];
    assert ReturnsAt(script, whole, j, i);
    ObeysOne(edges, script, inner.trace, Returned);
  }
}
