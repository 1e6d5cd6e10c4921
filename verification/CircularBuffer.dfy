/** The simple queue that lib/Patterns/CircularBuffer.hpp promises to be, and its whole runs. */
module BoundedQueue {
  import opened Prelude

  datatype Op<T> = Push(item: T) | Pop

  /** An item together with its position in push order, so that equal items stay apart. */
  datatype Tagged<T> = Tagged(position: nat, item: T)

  /** An item that was overwritten, and the position of the push that overwrote it. */
  datatype Loss<T> = Loss(victim: Tagged<T>, overwriter: nat)

  /** Everything that happened to a queue since it was created. */
  datatype Run<T> = Run(pushed: seq<T>, live: seq<Tagged<T>>, popped: seq<Tagged<T>>, lost: seq<Loss<T>>)

  function EmptyRun<T>(): Run<T> {
    Run([], [], [], [])
  }

  /** One operation of a queue of capacity n: push is "append, then keep the last n". */
  function Step<T>(n: nat, r: Run<T>, op: Op<T>): Run<T> {
    match op
    case Push(x) =>
      var arrival := Tagged(|r.pushed|, x);
      var grown := r.live + [arrival];
      Run(r.pushed + [x],
          KeepLast(grown, n),
          r.popped,
          if |grown| <= n then r.lost else r.lost + [Loss(grown[0], |r.pushed|)])
    case Pop =>
      if r.live == [] then r else r.(live := r.live[1..], popped := r.popped + [r.live[0]])
  }

  function RunOps<T>(n: nat, ops: seq<Op<T>>): Run<T> {
    if ops == [] then EmptyRun()
    else Step(n, RunOps(n, ops[..|ops| - 1]), ops[|ops| - 1])
  }

  function Items<T>(s: seq<Tagged<T>>): (items: seq<T>)
    ensures |items| == |s|
    ensures forall i | 0 <= i < |s| :: items[i] == s[i].item
  {
    seq(|s|, i requires 0 <= i < |s| => s[i].item)
  }

  /** Forgetting push positions, a push is "append, then keep the last n". */
  lemma ItemsOfPush<T>(n: nat, r: Run<T>, x: T)
    ensures Items(Step(n, r, Push(x)).live) == KeepLast(Items(r.live) + [x], n)
  {
  }

  // ----- Conservation over whole runs -----

  /** Retained items are a contiguous suffix of everything pushed. */
  ghost predicate LiveIsSuffix<T>(r: Run<T>) {
    && |r.live| <= |r.pushed|
    && forall i | 0 <= i < |r.live| ::
         r.live[i] == Tagged(|r.pushed| - |r.live| + i, r.pushed[|r.pushed| - |r.live| + i])
  }

  /** Popped items leave in strictly increasing push order, before anything still live. */
  ghost predicate PoppedInOrder<T>(r: Run<T>) {
    && (forall i, j | 0 <= i < j < |r.popped| :: r.popped[i].position < r.popped[j].position)
    && (forall i | 0 <= i < |r.popped| ::
          r.popped[i].position < |r.pushed| - |r.live| && r.popped[i].item == r.pushed[r.popped[i].position])
  }

  /** An item is overwritten only by the push that comes exactly n positions later, so n items were live. */
  ghost predicate LossesAreForced<T>(n: nat, r: Run<T>) {
    && (forall i, j | 0 <= i < j < |r.lost| :: r.lost[i].victim.position < r.lost[j].victim.position)
    && (forall i | 0 <= i < |r.lost| ::
          && r.lost[i].overwriter == r.lost[i].victim.position + n < |r.pushed|
          && r.lost[i].victim.position < |r.pushed| - |r.live|
          && r.lost[i].victim.item == r.pushed[r.lost[i].victim.position])
  }

  /** Every push is accounted for exactly once. */
  ghost predicate Accounted<T>(r: Run<T>) {
    && |r.pushed| == |r.popped| + |r.lost| + |r.live|
    && (forall i, j | 0 <= i < |r.popped| && 0 <= j < |r.lost| ::
          r.popped[i].position != r.lost[j].victim.position)
  }

  ghost predicate Conserved<T>(n: nat, r: Run<T>) {
    && |r.live| <= n
    && LiveIsSuffix(r)
    && PoppedInOrder(r)
    && LossesAreForced(n, r)
    && Accounted(r)
  }

  lemma PushKeepsSuffix<T>(n: nat, r: Run<T>, x: T)
    requires |r.live| <= n && LiveIsSuffix(r)
    ensures LiveIsSuffix(Step(n, r, Push(x)))
  {
    var r' := Step(n, r, Push(x));
    var grown := r.live + [Tagged(|r.pushed|, x)];
    forall i | 0 <= i < |r'.live|
      ensures r'.live[i] == Tagged(|r'.pushed| - |r'.live| + i, r'.pushed[|r'.pushed| - |r'.live| + i])
    {
      var k := if |grown| <= n then i else i + 1;
      assert r'.live[i] == grown[k];
      if k < |r.live| {
        assert grown[k] == r.live[k];
      }
    }
  }

  lemma PushKeepsPopped<T>(n: nat, r: Run<T>, x: T)
    requires |r.live| <= n && LiveIsSuffix(r) && PoppedInOrder(r)
    ensures PoppedInOrder(Step(n, r, Push(x)))
  {
  }

  lemma PushKeepsLosses<T>(n: nat, r: Run<T>, x: T)
    requires |r.live| <= n && LiveIsSuffix(r) && PoppedInOrder(r) && LossesAreForced(n, r) && Accounted(r)
    ensures LossesAreForced(n, Step(n, r, Push(x))) && Accounted(Step(n, r, Push(x)))
  {
    var r' := Step(n, r, Push(x));
    if |r.live| == n {
      var victim := (r.live + [Tagged(|r.pushed|, x)])[0];
      assert victim == Tagged(|r.pushed| - n, r'.pushed[|r.pushed| - n]);
      assert r'.lost == r.lost + [Loss(victim, |r.pushed|)];
    }
  }

  lemma PushConserves<T>(n: nat, r: Run<T>, x: T)
    requires Conserved(n, r)
    ensures Conserved(n, Step(n, r, Push(x)))
  {
    PushKeepsSuffix(n, r, x);
    PushKeepsPopped(n, r, x);
    PushKeepsLosses(n, r, x);
  }

  lemma PopConserves<T>(n: nat, r: Run<T>)
    requires Conserved(n, r)
    ensures Conserved(n, Step(n, r, Pop))
  {
    var r' := Step(n, r, Pop);
    if r.live != [] {
      assert r.live[0].position == |r.pushed| - |r.live|;
      assert PoppedInOrder(r');
      assert LossesAreForced(n, r');
      assert Accounted(r');
    }
  }

  lemma StepConserves<T>(n: nat, r: Run<T>, op: Op<T>)
    requires Conserved(n, r)
    ensures Conserved(n, Step(n, r, op))
  {
    match op
    case Push(x) => PushConserves(n, r, x);
    case Pop => PopConserves(n, r);
  }

  lemma {:induction false} RunConserves<T>(n: nat, ops: seq<Op<T>>)
    ensures Conserved(n, RunOps(n, ops))
  {
    if ops == [] {
    } else {
      RunConserves(n, ops[..|ops| - 1]);
      StepConserves(n, RunOps(n, ops[..|ops| - 1]), ops[|ops| - 1]);
    }
  }

  /** Every position ever pushed is popped, overwritten or still live. */
  ghost predicate Located<T>(r: Run<T>, p: nat) {
    || (exists i :: 0 <= i < |r.popped| && r.popped[i].position == p)
    || (exists i :: 0 <= i < |r.lost| && r.lost[i].victim.position == p)
    || (exists i :: 0 <= i < |r.live| && r.live[i].position == p)
  }

  lemma PushLocates<T>(n: nat, r: Run<T>, x: T, p: nat)
    requires Conserved(n, r) && p <= |r.pushed| && (p < |r.pushed| ==> Located(r, p))
    ensures Located(Step(n, r, Push(x)), p)
  {
    var r' := Step(n, r, Push(x));
    PushConserves(n, r, x);
    if p >= |r'.pushed| - |r'.live| {
      assert r'.live[p - (|r'.pushed| - |r'.live|)].position == p;
    } else if p >= |r.pushed| - |r.live| {
      // p was the oldest live item, or the arriving one when n is 0: it was overwritten just now
      assert r'.lost[|r'.lost| - 1].victim.position == p;
    } else if i :| 0 <= i < |r.lost| && r.lost[i].victim.position == p {
      assert r'.lost[i].victim.position == p;
    }
  }

  lemma PopLocates<T>(n: nat, r: Run<T>, p: nat)
    requires Conserved(n, r) && Located(r, p)
    ensures Located(Step(n, r, Pop), p)
  {
    var r' := Step(n, r, Pop);
    if r.live != [] {
      if i :| 0 <= i < |r.popped| && r.popped[i].position == p {
        assert r'.popped[i].position == p;
      } else if i :| 0 <= i < |r.live| && r.live[i].position == p {
        if i == 0 {
          assert r'.popped[|r.popped|].position == p;
        } else {
          assert r'.live[i - 1].position == p;
        }
      }
    }
  }

  lemma {:induction false} NothingVanishes<T>(n: nat, ops: seq<Op<T>>, p: nat)
    requires p < |RunOps(n, ops).pushed|
    ensures Located(RunOps(n, ops), p)
  {
    if ops == [] {
    } else {
      var r := RunOps(n, ops[..|ops| - 1]);
      RunConserves(n, ops[..|ops| - 1]);
      if p < |r.pushed| {
        NothingVanishes(n, ops[..|ops| - 1], p);
      }
      match ops[|ops| - 1]
      case Push(x) => PushLocates(n, r, x, p);
      case Pop => PopLocates(n, r, p);
    }
  }

  /** An item survives until it is popped exactly as long as fewer than n later items arrive. */
  lemma {:induction false} OverwrittenIffOutrun<T>(n: nat, ops: seq<Op<T>>, p: nat)
    requires p < |RunOps(n, ops).pushed|
    requires forall i | 0 <= i < |RunOps(n, ops).popped| :: RunOps(n, ops).popped[i].position != p
    ensures (exists i :: 0 <= i < |RunOps(n, ops).lost| && RunOps(n, ops).lost[i].victim.position == p)
            <==> p + n < |RunOps(n, ops).pushed|
  {
    var r := RunOps(n, ops);
    RunConserves(n, ops);
    NothingVanishes(n, ops, p);
    if p + n < |r.pushed| {
      assert forall i | 0 <= i < |r.live| :: r.live[i].position > p;
    }
  }
}

/** The array form of lib/Patterns/CircularBuffer.hpp. */
module CircularBuffers {
  import opened Prelude
  import opened BoundedQueue

  /** size_t on the target is 32 bits wide and wraps. */
  const SIZE_T_RANGE := 0x1_0000_0000
  /** No object, hence no array of slots, is larger than this. */
  const OBJECT_LIMIT := 0x7FFF_FFFF

  function WrapSize(x: int): (r: nat)
    ensures r < SIZE_T_RANGE
  {
    x % SIZE_T_RANGE
  }

  /** The slot after i, going round. */
  function Advance(capacity: nat, i: nat): (next: nat)
    requires i <= capacity
    ensures next <= capacity
  {
    if i == capacity then 0 else i + 1
  }

  method NextIndex(capacity: nat, i: nat) returns (next: nat)
    requires i <= capacity < OBJECT_LIMIT
    ensures next == Advance(capacity, i)
  {
    next := WrapSize(i + 1) % (capacity + 1);
    if i == capacity {
      ModOnce(i + 1, capacity + 1);
    } else {
      SmallMod(i + 1, capacity + 1);
    }
  }

  /** Unsigned ++ and --, with the wrap that a buffer of capacity 0 relies on. */
  method Incremented(n: nat) returns (r: nat)
    requires n < SIZE_T_RANGE
    ensures r == if n == SIZE_T_RANGE - 1 then 0 else n + 1
  {
    r := WrapSize(n + 1);
  }

  method Decremented(n: nat) returns (r: nat)
    requires n < SIZE_T_RANGE
    ensures r == if n == 0 then SIZE_T_RANGE - 1 else n - 1
  {
    r := WrapSize(n - 1);
  }

  lemma SmallMod(x: nat, m: nat)
    requires x < m
    ensures x % m == x
  {
  }

  /** The slot i places after tail. */
  function Slot(capacity: nat, tail: nat, i: nat): (k: nat)
    requires tail <= capacity && i <= capacity
    ensures k <= capacity
  {
    if tail + i <= capacity then tail + i else tail + i - (capacity + 1)
  }

  /** How many slots lie from tail up to, not including, head: head - tail modulo capacity + 1. */
  function Window(capacity: nat, head: nat, tail: nat): (w: nat)
    requires head <= capacity && tail <= capacity
    ensures w <= capacity && Slot(capacity, tail, w) == head
  {
    if tail <= head then head - tail else head + capacity + 1 - tail
  }

  lemma ModNegative(x: int, m: int)
    requires 0 < m && -m <= x < 0
    ensures x % m == x + m
  {
    QuotientIsMinusOne(x, x / m, x % m, m);
  }

  lemma QuotientIsMinusOne(x: int, q: int, r: int, m: int)
    requires 0 < m && -m <= x < 0 && 0 <= r < m && x == q * m + r
    ensures q == -1 && r == x + m
  {
    assert q * m < 0 && q * m > -2 * m;
  }

  lemma WindowIsDifference(capacity: nat, head: nat, tail: nat)
    requires head <= capacity && tail <= capacity
    ensures Window(capacity, head, tail) == (head - tail) % (capacity + 1)
  {
    if tail <= head {
      SmallMod(head - tail, capacity + 1);
    } else {
      ModNegative(head - tail, capacity + 1);
    }
  }

  lemma ModOnce(x: nat, m: nat)
    requires 0 < m <= x < 2 * m
    ensures x % m == x - m
  {
    var y := x - m;
    SmallMod(y, m);
    assert (y + m) % m == y % m;
  }

  lemma SlotIsSumModulo(capacity: nat, tail: nat, i: nat)
    requires tail <= capacity && i <= capacity < OBJECT_LIMIT
    ensures WrapSize(tail + i) % (capacity + 1) == Slot(capacity, tail, i)
  {
    var x := tail + i;
    assert WrapSize(x) == x;
    if x <= capacity {
      SmallMod(x, capacity + 1);
    } else {
      ModOnce(x, capacity + 1);
    }
  }

  /** Any index goes round to one within the ring; one that overflows size_t goes round from there. */
  function Round(capacity: nat, tail: nat, index: nat): (i: nat)
    requires tail <= capacity
    ensures i <= capacity
  {
    (if tail + index < SIZE_T_RANGE then index else index - SIZE_T_RANGE) % (capacity + 1)
  }

  /** A remainder is known by its range. */
  lemma ModIs(x: int, q: int, r: int, m: int)
    requires 0 <= r < m && x == q * m + r
    ensures x % m == r
  {
    var k := x / m;
    if q > k {
      QuotientsDiffer(k, x % m, q, r, m);
    } else if q < k {
      QuotientsDiffer(q, r, k, x % m, m);
    }
  }

  lemma QuotientsDiffer(p: int, r: int, q: int, s: int, m: int)
    requires p < q && 0 <= r < m && 0 <= s < m
    ensures p * m + r != q * m + s
  {
    Distribute(p, q - p, m);
    MultipleIsLarge(q - p, m);
  }

  lemma {:induction false} MultipleIsLarge(d: nat, m: nat)
    requires d >= 1
    ensures d * m >= m
  {
    if d == 1 {
    } else {
      MultipleIsLarge(d - 1, m);
      Distribute(d - 1, 1, m);
    }
  }

  lemma ModPlus(a: int, b: int, m: int)
    requires m > 0
    ensures (a + b) % m == (a + b % m) % m
  {
    var x := a + b % m;
    Distribute(b / m, x / m, m);
    ModIs(a + b, b / m + x / m, x % m, m);
  }

  lemma Distribute(a: int, b: int, m: int)
    ensures (a + b) * m == a * m + b * m
  {
  }

  lemma RoundSlot(capacity: nat, tail: nat, index: nat)
    requires tail <= capacity < OBJECT_LIMIT && index < SIZE_T_RANGE
    ensures WrapSize(tail + index) % (capacity + 1) == Slot(capacity, tail, Round(capacity, tail, index))
  {
    var offset := if tail + index < SIZE_T_RANGE then index else index - SIZE_T_RANGE;
    assert WrapSize(tail + index) == tail + offset;
    ModPlus(tail, offset, capacity + 1);
    var i := Round(capacity, tail, index);
    SlotIsSumModulo(capacity, tail, i);
    assert WrapSize(tail + i) == tail + i;
  }

  /** The live window of the slots, from tail on, holds exactly these items, oldest first. */
  ghost predicate Holds<T>(slots: seq<Option<T>>, tail: nat, items: seq<T>) {
    && tail < |slots| && |items| < |slots|
    && forall i | 0 <= i < |items| :: slots[Slot(|slots| - 1, tail, i)] == Some(items[i])
  }

  /** What the slot k places after head was last given, if anything: pop leaves its item behind. */
  function LastGiven<T>(capacity: nat, pushed: seq<T>, k: nat): Option<T>
    requires k <= capacity
  {
    if |pushed| + k > capacity then Some(pushed[|pushed| + k - capacity - 1]) else None
  }

  ghost predicate Remembers<T>(capacity: nat, slots: seq<Option<T>>, head: nat, pushed: seq<T>) {
    && head <= capacity && |slots| == capacity + 1
    && forall k | 0 <= k <= capacity :: slots[Slot(capacity, head, k)] == LastGiven(capacity, pushed, k)
  }

  lemma PushRemembers<T>(capacity: nat, slots: seq<Option<T>>, head: nat, pushed: seq<T>, x: T)
    requires Remembers(capacity, slots, head, pushed)
    ensures Remembers(capacity, slots[head := Some(x)], Advance(capacity, head), pushed + [x])
  {
    forall k | 0 <= k <= capacity
      ensures slots[head := Some(x)][Slot(capacity, Advance(capacity, head), k)]
              == LastGiven(capacity, pushed + [x], k)
    {
      if k == capacity {
        assert Slot(capacity, Advance(capacity, head), k) == head;
      } else {
        assert Slot(capacity, Advance(capacity, head), k) == Slot(capacity, head, k + 1) != head;
        assert LastGiven(capacity, pushed + [x], k) == LastGiven(capacity, pushed, k + 1);
      }
    }
  }

  /** The slots and the three counters agree with each other and with the run so far. */
  ghost predicate Consistent<T>(capacity: nat, slots: seq<Option<T>>, head: nat, tail: nat, size: nat, run: Run<T>) {
    && capacity < OBJECT_LIMIT
    && |slots| == capacity + 1
    && head <= capacity && tail <= capacity
    && size == Window(capacity, head, tail) == |run.live|
    && Conserved(capacity, run)
    && Holds(slots, tail, Items(run.live))
    && Remembers(capacity, slots, head, run.pushed)
  }

  /** Storing at head extends the window by one item, even when head would then meet tail. */
  lemma StoreAtHead<T>(slots: seq<Option<T>>, tail: nat, items: seq<T>, head: nat, x: T, i: nat)
    requires Holds(slots, tail, items) && head == Slot(|slots| - 1, tail, |items|) && i <= |items|
    ensures slots[head := Some(x)][Slot(|slots| - 1, tail, i)] == Some((items + [x])[i])
  {
  }

  /** Storing at head and, when full, moving tail leaves a window that holds the trimmed append. */
  lemma PushHolds<T>(slots: seq<Option<T>>, tail: nat, items: seq<T>, head: nat, x: T)
    requires Holds(slots, tail, items) && head == Slot(|slots| - 1, tail, |items|)
    ensures var c := |slots| - 1;
      Holds(slots[head := Some(x)],
            if |items| == c then Advance(c, tail) else tail,
            KeepLast(items + [x], c))
  {
    var c := |slots| - 1;
    var items' := KeepLast(items + [x], c);
    var tail' := if |items| == c then Advance(c, tail) else tail;
    forall i | 0 <= i < |items'|
      ensures slots[head := Some(x)][Slot(c, tail', i)] == Some(items'[i])
    {
      if |items| == c {
        assert Slot(c, tail', i) == Slot(c, tail, i + 1);
        StoreAtHead(slots, tail, items, head, x, i + 1);
      } else {
        StoreAtHead(slots, tail, items, head, x, i);
      }
    }
  }

  lemma PopHolds<T>(slots: seq<Option<T>>, tail: nat, items: seq<T>)
    requires Holds(slots, tail, items) && items != []
    ensures slots[tail] == Some(items[0])
    ensures Holds(slots, Advance(|slots| - 1, tail), items[1..])
  {
    var c := |slots| - 1;
    assert Slot(c, tail, 0) == tail;
    assert forall i | 0 <= i < |items| - 1 :: Slot(c, Advance(c, tail), i) == Slot(c, tail, i + 1);
  }

  lemma PushConsistent<T>(capacity: nat, slots: seq<Option<T>>, head: nat, tail: nat, size: nat, run: Run<T>, x: T)
    requires Consistent(capacity, slots, head, tail, size, run)
    ensures Advance(capacity, head) == tail <==> size == capacity
    ensures Consistent(capacity, slots[head := Some(x)], Advance(capacity, head),
                       if size == capacity then Advance(capacity, tail) else tail,
                       if size == capacity then capacity else size + 1,
                       Step(capacity, run, Push(x)))
  {
    PushConserves(capacity, run, x);
    ItemsOfPush(capacity, run, x);
    PushHolds(slots, tail, Items(run.live), head, x);
    PushRemembers(capacity, slots, head, run.pushed, x);
  }

  lemma PopConsistent<T>(capacity: nat, slots: seq<Option<T>>, head: nat, tail: nat, size: nat, run: Run<T>)
    requires Consistent(capacity, slots, head, tail, size, run) && head != tail
    ensures size > 0 && slots[tail] == Some(Items(run.live)[0])
    ensures Items(Step(capacity, run, Pop).live) == Items(run.live)[1..]
    ensures Consistent(capacity, slots, head, Advance(capacity, tail), size - 1, Step(capacity, run, Pop))
  {
    PopConserves(capacity, run);
    PopHolds(slots, tail, Items(run.live));
    assert Items(Step(capacity, run, Pop).live) == Items(run.live)[1..];
  }

  class CircularBuffer<T> {
    const capacity: nat
    const buffer: array<Option<T>>
    var head: nat
    var tail: nat
    var size: nat
    /** Everything that happened to this buffer since it was created. */
    ghost var run: Run<T>

    ghost predicate Valid()
      reads this, buffer
    {
      Consistent(capacity, buffer[..], head, tail, size, run)
    }

    ghost function Contents(): (s: seq<T>)
      requires Valid()
      reads this, buffer
      ensures |s| == size
    {
      Items(run.live)
    }

    constructor (capacity: nat)
      requires capacity < OBJECT_LIMIT
      ensures Valid() && this.capacity == capacity && fresh(buffer)
      ensures run == EmptyRun() && Contents() == []
    {
      this.capacity := capacity;
      buffer := new Option<T>[capacity + 1](_ => None);
      head, tail, size := 0, 0, 0;
      run := EmptyRun();
    }

    method IsEmpty() returns (empty: bool)
      requires Valid()
      ensures empty <==> Contents() == []
    {
      empty := head == tail;
    }

    method IsMax() returns (full: bool)
      requires Valid()
      ensures full <==> |Contents()| == capacity
    {
      var nextHead := NextIndex(capacity, head);
      full := nextHead == tail;
    }

    method Size() returns (n: nat)
      requires Valid()
      ensures n == |Contents()|
      ensures n == (head - tail) % (capacity + 1)
    {
      WindowIsDifference(capacity, head, tail);
      n := size;
    }

    /** The live items from the oldest on, behind them what the other slots were last given, and round again. */
    method At(index: nat) returns (slot: Option<T>)
      requires Valid() && index < SIZE_T_RANGE
      ensures var i := Round(capacity, tail, index);
        slot == if i < |Contents()| then Some(Contents()[i]) else LastGiven(capacity, run.pushed, i - |Contents()|)
      ensures index < |Contents()| ==> slot == Some(Contents()[index])
    {
      RoundSlot(capacity, tail, index);
      ghost var i := Round(capacity, tail, index);
      if size <= i {
        assert Slot(capacity, tail, i) == Slot(capacity, head, i - size);
      }
      if index < size {
        SmallMod(index, capacity + 1);
      }
      slot := buffer[WrapSize(tail + index) % (capacity + 1)];
    }

    /** Appends, and keeps only the newest `capacity` items. Always reports success. */
    method Push(item: T) returns (ok: bool)
      requires Valid()
      modifies this`head, this`tail, this`size, this`run, buffer
      ensures Valid() && ok
      ensures Contents() == KeepLast(old(Contents()) + [item], capacity)
      ensures run == Step(capacity, old(run), BoundedQueue.Push(item))
    {
      ghost var was, size0 := buffer[..], size;
      PushConsistent(capacity, was, head, tail, size, run, item);
      ItemsOfPush(capacity, run, item);
      var nextHead := NextIndex(capacity, head);
      if nextHead == tail {
        tail := NextIndex(capacity, tail);
        size := Decremented(size);
      }
      buffer[head] := Some(item);
      assert buffer[..] == was[head := Some(item)];
      head := nextHead;
      size := Incremented(size);
      run := Step(capacity, run, BoundedQueue.Push(item));
      assert size == if size0 == capacity then capacity else size0 + 1;
      return true;
    }

    /** Removes the oldest item, or reports that there is none. */
    method Pop() returns (item: Option<T>)
      requires Valid()
      modifies this`tail, this`size, this`run
      ensures Valid()
      ensures old(Contents()) == [] ==> item == None && Contents() == []
      ensures old(Contents()) != [] ==> item == Some(old(Contents())[0]) && Contents() == old(Contents())[1..]
      ensures run == Step(capacity, old(run), BoundedQueue.Pop)
    {
      if head == tail {
        return None;
      }
      PopConsistent(capacity, buffer[..], head, tail, size, run);
      item := buffer[tail];
      tail := NextIndex(capacity, tail);
      size := Decremented(size);
      run := Step(capacity, run, BoundedQueue.Pop);
    }
  }
}
