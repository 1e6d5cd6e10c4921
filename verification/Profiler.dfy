/** lib/Profiler/TaskProfiler.cpp: per-task statistics, snapshots and their differences in 32-bit arithmetic. */
module TaskProfiler {
  import opened Prelude

  /** Task handles are the keys of an ordered map. */
  type Handle = nat

  const UINT32_RANGE := 0x1_0000_0000

  type Word = x: nat | x < UINT32_RANGE

  /** The result of adding or subtracting in uint32_t, or in size_t, which has 32 bits on the ESP32. */
  function Wrap(x: int): Word {
    x % UINT32_RANGE
  }

  datatype TaskStats = TaskStats(name: string, executionTime: int, cpuUsage: Word, stackMark: Word, heapFree: Word)

  datatype Diff = Diff(executionTime: int, cpuUsage: Word, stackMark: Word, heapFree: Word)

  /** What the two diff printers show. */
  function DiffOf(now: TaskStats, earlier: TaskStats): Diff {
    Diff(now.executionTime - earlier.executionTime,
         Wrap(now.cpuUsage - earlier.cpuUsage),
         Wrap(now.stackMark - earlier.stackMark),
         Wrap(now.heapFree - earlier.heapFree))
  }

  const NO_STATS := TaskStats("", 0, 0, 0, 0)

  // ----- Sums over a set of handles -----

  ghost function Sum(f: Handle -> int, hs: set<Handle>): int {
    if hs == {} then 0
    else
      var h :| h in hs;
      f(h) + Sum(f, hs - {h})
  }

  /** Any handle may be taken first: the order of the map does not matter. */
  lemma {:induction false} SumTake(f: Handle -> int, hs: set<Handle>, h: Handle)
    requires h in hs
    ensures Sum(f, hs) == f(h) + Sum(f, hs - {h})
    decreases hs
  {
    var g :| g in hs && Sum(f, hs) == f(g) + Sum(f, hs - {g});
    if g != h {
      SumTake(f, hs - {g}, h);
      SumTake(f, hs - {h}, g);
      assert hs - {g} - {h} == hs - {h} - {g};
    }
  }

  lemma {:induction false} SumSplit(f: Handle -> int, a: set<Handle>, b: set<Handle>)
    requires a !! b
    ensures Sum(f, a + b) == Sum(f, a) + Sum(f, b)
    decreases b
  {
    if b == {} {
      assert a + b == a;
    } else {
      var h :| h in b;
      SumTake(f, b, h);
      SumTake(f, a + b, h);
      assert a + b - {h} == a + (b - {h});
      SumSplit(f, a, b - {h});
    }
  }

  lemma {:induction false} SumDifference(f: Handle -> int, g: Handle -> int, d: Handle -> int, hs: set<Handle>)
    requires forall h | h in hs :: Wrap(d(h)) == Wrap(f(h) - g(h))
    ensures Wrap(Sum(d, hs)) == Wrap(Sum(f, hs) - Sum(g, hs))
    decreases hs
  {
    if hs == {} {
    } else {
      var h :| h in hs;
      SumTake(d, hs, h);
      SumTake(f, hs, h);
      SumTake(g, hs, h);
      SumDifference(f, g, d, hs - {h});
      WrapSum(d(h), Sum(d, hs - {h}), f(h) - g(h), Sum(f, hs - {h}) - Sum(g, hs - {h}));
    }
  }

  /** Wrapping respects addition. */
  lemma WrapSum(a: int, b: int, c: int, d: int)
    requires Wrap(a) == Wrap(c) && Wrap(b) == Wrap(d)
    ensures Wrap(a + b) == Wrap(c + d)
  {
  }

  lemma {:induction false} SumMinus(f: Handle -> int, g: Handle -> int, d: Handle -> int, hs: set<Handle>)
    requires forall h | h in hs :: d(h) == f(h) - g(h)
    ensures Sum(d, hs) == Sum(f, hs) - Sum(g, hs)
    decreases hs
  {
    if hs == {} {
    } else {
      var h :| h in hs;
      SumTake(d, hs, h);
      SumTake(f, hs, h);
      SumTake(g, hs, h);
      SumMinus(f, g, d, hs - {h});
    }
  }

  // ----- One column of a table of statistics -----

  datatype Column = ExecutionTime | CpuUsage | StackMark

  function Cell(c: Column, s: TaskStats): int {
    match c
    case ExecutionTime => s.executionTime
    case CpuUsage => s.cpuUsage
    case StackMark => s.stackMark
  }

  ghost function Values(c: Column, m: map<Handle, TaskStats>): Handle -> int {
    h => if h in m then Cell(c, m[h]) else 0
  }

  ghost function Total(c: Column, m: map<Handle, TaskStats>): int {
    Sum(Values(c, m), m.Keys)
  }

  /** The difference a task shows on its own: wrapped for the 32-bit columns, exact for the time. */
  function TaskDiff(c: Column, now: TaskStats, earlier: TaskStats): int {
    if c.ExecutionTime? then Cell(c, now) - Cell(c, earlier) else Wrap(Cell(c, now) - Cell(c, earlier))
  }

  ghost function TaskDiffs(c: Column, now: map<Handle, TaskStats>, earlier: map<Handle, TaskStats>): Handle -> int {
    h => if h in now && h in earlier then TaskDiff(c, now[h], earlier[h]) else 0
  }

  /** The sum of the single-task differences, plus the full values of the tasks added since. */
  ghost function DiffByTask(c: Column, now: map<Handle, TaskStats>, earlier: map<Handle, TaskStats>): int {
    Sum(TaskDiffs(c, now, earlier), earlier.Keys) + Sum(Values(c, now), now.Keys - earlier.Keys)
  }

  /** A total splits into the tasks that were there and the tasks added since. */
  lemma TotalSplits(c: Column, now: map<Handle, TaskStats>, earlier: map<Handle, TaskStats>)
    requires earlier.Keys <= now.Keys
    ensures Total(c, now) == Sum(Values(c, now), earlier.Keys) + Sum(Values(c, now), now.Keys - earlier.Keys)
  {
    assert earlier.Keys + (now.Keys - earlier.Keys) == now.Keys;
    SumSplit(Values(c, now), earlier.Keys, now.Keys - earlier.Keys);
  }

  /** The time difference of two totals is exactly the single-task differences and the added tasks. */
  lemma TimesDiffer(now: map<Handle, TaskStats>, earlier: map<Handle, TaskStats>)
    requires earlier.Keys <= now.Keys
    ensures Total(ExecutionTime, now) - Total(ExecutionTime, earlier) == DiffByTask(ExecutionTime, now, earlier)
  {
    TotalSplits(ExecutionTime, now, earlier);
    SumMinus(Values(ExecutionTime, now), Values(ExecutionTime, earlier),
             TaskDiffs(ExecutionTime, now, earlier), earlier.Keys);
  }

  lemma KeptDiffer(c: Column, now: map<Handle, TaskStats>, earlier: map<Handle, TaskStats>)
    requires earlier.Keys <= now.Keys && !c.ExecutionTime?
    ensures Wrap(Sum(TaskDiffs(c, now, earlier), earlier.Keys))
            == Wrap(Sum(Values(c, now), earlier.Keys) - Total(c, earlier))
  {
    forall h | h in earlier.Keys
      ensures Wrap(TaskDiffs(c, now, earlier)(h)) == Wrap(Values(c, now)(h) - Values(c, earlier)(h))
    {
      TaskDiffWraps(c, now, earlier, h);
    }
    SumDifference(Values(c, now), Values(c, earlier), TaskDiffs(c, now, earlier), earlier.Keys);
  }

  /** In the 32-bit columns the same holds modulo 2^32, although every single-task difference wraps on its own. */
  lemma TotalsDiffer(c: Column, now: map<Handle, TaskStats>, earlier: map<Handle, TaskStats>)
    requires earlier.Keys <= now.Keys && !c.ExecutionTime?
    ensures Wrap(Total(c, now) - Total(c, earlier)) == Wrap(DiffByTask(c, now, earlier))
  {
    TotalSplits(c, now, earlier);
    KeptDiffer(c, now, earlier);
    var kept, added := Sum(Values(c, now), earlier.Keys), Sum(Values(c, now), now.Keys - earlier.Keys);
    WrapSum(Sum(TaskDiffs(c, now, earlier), earlier.Keys), added, kept - Total(c, earlier), added);
  }

  lemma TaskDiffWraps(c: Column, now: map<Handle, TaskStats>, earlier: map<Handle, TaskStats>, h: Handle)
    requires h in now && h in earlier && !c.ExecutionTime?
    ensures Wrap(TaskDiffs(c, now, earlier)(h)) == Wrap(Values(c, now)(h) - Values(c, earlier)(h))
  {
    WrapTwice(Cell(c, now[h]) - Cell(c, earlier[h]));
  }

  lemma WrapTwice(x: int)
    ensures Wrap(Wrap(x)) == Wrap(x)
  {
  }

  /** The application's difference, computed from wrapped totals. */
  lemma WrappedTotalsDiffer(c: Column, now: map<Handle, TaskStats>, earlier: map<Handle, TaskStats>,
                            total: Word, saved: Word)
    requires earlier.Keys <= now.Keys && !c.ExecutionTime?
    requires total == Wrap(Total(c, now)) && saved == Wrap(Total(c, earlier))
    ensures Wrap(total - saved) == Wrap(DiffByTask(c, now, earlier))
  {
    WrapDifference(Total(c, now), Total(c, earlier));
    TotalsDiffer(c, now, earlier);
  }

  lemma WrapDifference(a: int, b: int)
    ensures Wrap(Wrap(a) - Wrap(b)) == Wrap(a - b)
  {
  }

  lemma WrapPlus(a: int, b: int)
    ensures Wrap(Wrap(a) + b) == Wrap(a + b)
  {
  }

  // ----- The loop over the ordered map -----

  ghost predicate IsLeast(h: Handle, hs: set<Handle>) {
    h in hs && forall k | k in hs :: h <= k
  }

  lemma {:induction false} LeastExists(hs: set<Handle>) returns (least: Handle)
    requires hs != {}
    ensures IsLeast(least, hs)
    decreases hs
  {
    var g :| g in hs;
    least := g;
    assert forall k | k in hs :: k == g || k in hs - {g};
    if hs - {g} != {} {
      var h := LeastExists(hs - {g});
      if h < g {
        least := h;
      }
    }
  }

  /** The fields of t are the sums of the same fields of the tasks done so far. */
  ghost predicate SumsOf(t: TaskStats, m: map<Handle, TaskStats>, done: set<Handle>) {
    && t.executionTime == Sum(h => if h in m then m[h].executionTime else 0, done)
    && t.cpuUsage == Wrap(Sum(h => if h in m then m[h].cpuUsage else 0, done))
    && t.stackMark == Wrap(Sum(h => if h in m then m[h].stackMark else 0, done))
  }

  lemma {:induction false} SumSame(f: Handle -> int, g: Handle -> int, hs: set<Handle>)
    requires forall h | h in hs :: f(h) == g(h)
    ensures Sum(f, hs) == Sum(g, hs)
    decreases hs
  {
    if hs == {} {
    } else {
      var h :| h in hs;
      SumTake(f, hs, h);
      SumTake(g, hs, h);
      SumSame(f, g, hs - {h});
    }
  }

  /** The columns that the differences are about are those fields. */
  lemma SumsByColumn(t: TaskStats, m: map<Handle, TaskStats>, done: set<Handle>)
    ensures SumsOf(t, m, done) <==>
              && t.executionTime == Sum(Values(ExecutionTime, m), done)
              && t.cpuUsage == Wrap(Sum(Values(CpuUsage, m), done))
              && t.stackMark == Wrap(Sum(Values(StackMark, m), done))
  {
    SumSame(h => if h in m then m[h].executionTime else 0, Values(ExecutionTime, m), done);
    SumSame(h => if h in m then m[h].cpuUsage else 0, Values(CpuUsage, m), done);
    SumSame(h => if h in m then m[h].stackMark else 0, Values(StackMark, m), done);
  }

  function AddRow(t: TaskStats, row: TaskStats): TaskStats {
    TaskStats(t.name, t.executionTime + row.executionTime, Wrap(t.cpuUsage + row.cpuUsage),
              Wrap(t.stackMark + row.stackMark), row.heapFree)
  }

  lemma AddTime(t: TaskStats, m: map<Handle, TaskStats>, done: set<Handle>, h: Handle)
    requires h in m && h !in done && t.executionTime == Sum(Values(ExecutionTime, m), done)
    ensures AddRow(t, m[h]).executionTime == Sum(Values(ExecutionTime, m), done + {h})
  {
    assert done + {h} - {h} == done;
    SumTake(Values(ExecutionTime, m), done + {h}, h);
  }

  lemma AddWord(c: Column, sum: Word, m: map<Handle, TaskStats>, done: set<Handle>, h: Handle)
    requires h in m && h !in done && sum == Wrap(Sum(Values(c, m), done))
    ensures Wrap(sum + Cell(c, m[h])) == Wrap(Sum(Values(c, m), done + {h}))
  {
    assert done + {h} - {h} == done;
    SumTake(Values(c, m), done + {h}, h);
    WrapPlus(Sum(Values(c, m), done), Cell(c, m[h]));
  }

  lemma AddRowSums(t: TaskStats, m: map<Handle, TaskStats>, done: set<Handle>, h: Handle)
    requires h in m && h !in done && SumsOf(t, m, done)
    ensures SumsOf(AddRow(t, m[h]), m, done + {h})
  {
    SumsByColumn(t, m, done);
    SumsByColumn(AddRow(t, m[h]), m, done + {h});
    AddTime(t, m, done, h);
    AddWord(CpuUsage, t.cpuUsage, m, done, h);
    AddWord(StackMark, t.stackMark, m, done, h);
  }

  /** The free heap is that of the task with the greatest handle. */
  ghost predicate HeapOfLast(heapFree: Word, m: map<Handle, TaskStats>, done: set<Handle>) {
    if done == {} then heapFree == 0
    else exists h :: h in done && h in m && heapFree == m[h].heapFree && forall k | k in done :: k <= h
  }

  ghost predicate AllBelow(done: set<Handle>, left: set<Handle>) {
    forall k, l | k in done && l in left :: k < l
  }

  lemma FirstIsNext(m: map<Handle, TaskStats>, done: set<Handle>, left: set<Handle>, h: Handle)
    requires left + done == m.Keys && AllBelow(done, left) && IsLeast(h, left)
    ensures AllBelow(done + {h}, left - {h}) && HeapOfLast(m[h].heapFree, m, done + {h})
  {
    assert h in done + {h};
  }

  ghost predicate IsGreatest(h: Handle, hs: set<Handle>) {
    h in hs && forall k | k in hs :: k <= h
  }

  lemma {:induction false} GreatestExists(hs: set<Handle>) returns (greatest: Handle)
    requires hs != {}
    ensures IsGreatest(greatest, hs)
    decreases hs
  {
    var g :| g in hs;
    greatest := g;
    assert forall k | k in hs :: k == g || k in hs - {g};
    if hs - {g} == {} {
    } else {
      var h := GreatestExists(hs - {g});
      if h > g {
        greatest := h;
      }
    }
  }

  /** The free heap of the task with the greatest handle, or 0 when there is no task. */
  ghost function LastHeap(m: map<Handle, TaskStats>): Word {
    if h :| IsGreatest(h, m.Keys) then m[h].heapFree else 0
  }

  lemma LastHeapIs(heapFree: Word, m: map<Handle, TaskStats>)
    ensures HeapOfLast(heapFree, m, m.Keys) <==> heapFree == LastHeap(m)
  {
    if m.Keys != {} {
      var h := GreatestExists(m.Keys);
      assert forall k | IsGreatest(k, m.Keys) :: k == h;
    }
  }

  /**
   * A difference is what the tasks show one by one: exactly for the time, modulo 2^32 for cpu and stack. For
   * the heap it is what the last tasks of both tables show, an empty table counting as 0.
   */
  ghost predicate AgreesByTask(d: Diff, now: map<Handle, TaskStats>, earlier: map<Handle, TaskStats>) {
    && d.executionTime == DiffByTask(ExecutionTime, now, earlier)
    && d.cpuUsage == Wrap(DiffByTask(CpuUsage, now, earlier))
    && d.stackMark == Wrap(DiffByTask(StackMark, now, earlier))
    && d.heapFree == Wrap(LastHeap(now) - LastHeap(earlier))
  }

  /** A snapshot of the application that goes with the snapshots of its tasks. */
  ghost predicate Totals(t: TaskStats, m: map<Handle, TaskStats>) {
    SumsOf(t, m, m.Keys) && HeapOfLast(t.heapFree, m, m.Keys)
  }

  /** Subtracting in uint32_t tells its right operands apart. */
  lemma WrapCancels(a: int, b: Word, c: Word)
    ensures Wrap(a - b) == Wrap(a - c) <==> b == c
  {
    if Wrap(a - b) == Wrap(a - c) {
      WrapDifference(a - b, a - c);
      assert Wrap((a - b) - (a - c)) == Wrap(c - b);
      assert Wrap(0) == 0;
    }
  }

  /** A 32-bit column of the difference is right exactly when the saved total is that of the snapshots. */
  lemma WordAgreesIff(c: Column, now: map<Handle, TaskStats>, earlier: map<Handle, TaskStats>,
                      total: Word, saved: Word)
    requires earlier.Keys <= now.Keys && !c.ExecutionTime? && total == Wrap(Total(c, now))
    ensures Wrap(total - saved) == Wrap(DiffByTask(c, now, earlier)) <==> saved == Wrap(Total(c, earlier))
  {
    WrappedTotalsDiffer(c, now, earlier, total, Wrap(Total(c, earlier)));
    WrapCancels(total, saved, Wrap(Total(c, earlier)));
  }

  lemma TimeAgreesIff(now: map<Handle, TaskStats>, earlier: map<Handle, TaskStats>,
                      current: TaskStats, saved: TaskStats)
    requires earlier.Keys <= now.Keys && Totals(current, now)
    ensures DiffOf(current, saved).executionTime == DiffByTask(ExecutionTime, now, earlier)
            <==> saved.executionTime == Total(ExecutionTime, earlier)
  {
    SumsByColumn(current, now, now.Keys);
    TimesDiffer(now, earlier);
  }

  lemma CpuAgreesIff(now: map<Handle, TaskStats>, earlier: map<Handle, TaskStats>,
                      current: TaskStats, saved: TaskStats)
    requires earlier.Keys <= now.Keys && Totals(current, now)
    ensures DiffOf(current, saved).cpuUsage == Wrap(DiffByTask(CpuUsage, now, earlier))
            <==> saved.cpuUsage == Wrap(Total(CpuUsage, earlier))
  {
    SumsByColumn(current, now, now.Keys);
    WordAgreesIff(CpuUsage, now, earlier, current.cpuUsage, saved.cpuUsage);
  }

  lemma StackAgreesIff(now: map<Handle, TaskStats>, earlier: map<Handle, TaskStats>,
                      current: TaskStats, saved: TaskStats)
    requires earlier.Keys <= now.Keys && Totals(current, now)
    ensures DiffOf(current, saved).stackMark == Wrap(DiffByTask(StackMark, now, earlier))
            <==> saved.stackMark == Wrap(Total(StackMark, earlier))
  {
    SumsByColumn(current, now, now.Keys);
    WordAgreesIff(StackMark, now, earlier, current.stackMark, saved.stackMark);
  }

  lemma HeapAgreesIff(now: map<Handle, TaskStats>, earlier: map<Handle, TaskStats>,
                      current: TaskStats, saved: TaskStats)
    requires earlier.Keys <= now.Keys && Totals(current, now)
    ensures DiffOf(current, saved).heapFree == Wrap(LastHeap(now) - LastHeap(earlier))
            <==> saved.heapFree == LastHeap(earlier)
  {
    LastHeapIs(current.heapFree, now);
    WrapCancels(current.heapFree, saved.heapFree, LastHeap(earlier));
  }

  /** The application's difference is right exactly when every column of the saved totals is. */
  lemma AppDifferences(now: map<Handle, TaskStats>, earlier: map<Handle, TaskStats>,
                        current: TaskStats, saved: TaskStats)
    requires earlier.Keys <= now.Keys && Totals(current, now)
    ensures AgreesByTask(DiffOf(current, saved), now, earlier) <==> Totals(saved, earlier)
  {
    TimeAgreesIff(now, earlier, current, saved);
    CpuAgreesIff(now, earlier, current, saved);
    StackAgreesIff(now, earlier, current, saved);
    HeapAgreesIff(now, earlier, current, saved);
    SumsByColumn(saved, earlier, earlier.Keys);
    LastHeapIs(saved.heapFree, earlier);
  }

  /** The two ends of a measurement, with what they read from clock and system. */
  datatype Operation =
    | Start(h: Handle, name: string, now: int)
    | Stop(h: Handle, now: int, runTimeCounter: Word, stackMark: Word, heapFree: Word)

  /** The statistics and the start time. */
  datatype Profile = Profile(stats: map<Handle, TaskStats>, startTime: int)

  function Measure(p: Profile, op: Operation): Profile {
    match op
    case Start(h, name, now) =>
      Profile(if h in p.stats then p.stats else p.stats[h := NO_STATS.(name := name)], now)
    case Stop(h, now, runTimeCounter, stackMark, heapFree) =>
      if h !in p.stats then p
      else
        var row := TaskStats(p.stats[h].name, now - p.startTime, runTimeCounter / 1000, stackMark, heapFree);
        p.(stats := p.stats[h := row])
  }

  function MeasureAll(p: Profile, ops: seq<Operation>): Profile {
    if ops == [] then p else Measure(MeasureAll(p, ops[..|ops| - 1]), ops[|ops| - 1])
  }

  class TaskProfilerMonitor {
    var taskStats: map<Handle, TaskStats>
    var taskSnapshots: map<Handle, TaskStats>
    var appSnapshot: TaskStats
    var startTime: int

    /** Tasks are never forgotten, so a task with a snapshot still has statistics. */
    ghost predicate Valid()
      reads this
    {
      taskSnapshots.Keys <= taskStats.Keys
    }

    /** The application's snapshot totals those of the tasks. */
    ghost predicate Together()
      reads this
    {
      Totals(appSnapshot, taskSnapshots)
    }

    constructor ()
      ensures Valid() && taskStats == map[] && taskSnapshots == map[] && appSnapshot == NO_STATS
    {
      taskStats, taskSnapshots := map[], map[];
      appSnapshot, startTime := NO_STATS, 0;
    }

    method StartProfiling(h: Handle, name: string, now: int)
      requires Valid()
      modifies this`taskStats, this`startTime
      ensures Valid() && startTime == now && Together() == old(Together())
      ensures taskStats == if h in old(taskStats) then old(taskStats) else old(taskStats)[h := NO_STATS.(name := name)]
    {
      if h !in taskStats {
        taskStats := taskStats[h := NO_STATS.(name := name)];
      }
      startTime := now;
    }

    method StopProfiling(h: Handle, now: int, runTimeCounter: Word, stackMark: Word, heapFree: Word)
      requires Valid()
      modifies this`taskStats
      ensures Valid() && taskStats.Keys == old(taskStats).Keys && Together() == old(Together())
      ensures taskStats == if h in old(taskStats)
        then old(taskStats)[h := TaskStats(old(taskStats)[h].name, now - startTime, runTimeCounter / 1000,
                                           stackMark, heapFree)]
        else old(taskStats)
    {
      var duration := now - startTime;
      if h in taskStats {
        taskStats := taskStats[h := taskStats[h].(executionTime := duration)];
        taskStats := taskStats[h := taskStats[h].(cpuUsage := runTimeCounter / 1000)];
        taskStats := taskStats[h := taskStats[h].(stackMark := stackMark)];
        taskStats := taskStats[h := taskStats[h].(heapFree := heapFree)];
      }
    }

    method SaveSingleTaskSnapshot(h: Handle)
      requires Valid()
      modifies this`taskSnapshots
      ensures Valid()
      ensures taskSnapshots == if h in taskStats then old(taskSnapshots)[h := taskStats[h]] else old(taskSnapshots)
    {
      if h in taskStats {
        taskSnapshots := taskSnapshots[h := taskStats[h]];
      }
    }

    method SingleTaskDiff(h: Handle) returns (d: Option<Diff>)
      requires Valid()
      ensures d.Some? <==> h in taskSnapshots
      ensures d.Some? ==>
                && d.value.executionTime == taskStats[h].executionTime - taskSnapshots[h].executionTime
                && d.value.cpuUsage == Wrap(taskStats[h].cpuUsage - taskSnapshots[h].cpuUsage)
                && d.value.stackMark == Wrap(taskStats[h].stackMark - taskSnapshots[h].stackMark)
                && d.value.heapFree == Wrap(taskStats[h].heapFree - taskSnapshots[h].heapFree)
      ensures d.Some? ==>
                && d.value.executionTime == TaskDiff(ExecutionTime, taskStats[h], taskSnapshots[h])
                && d.value.cpuUsage == TaskDiff(CpuUsage, taskStats[h], taskSnapshots[h])
                && d.value.stackMark == TaskDiff(StackMark, taskStats[h], taskSnapshots[h])
    {
      if h !in taskStats || h !in taskSnapshots {
        return None;
      }
      return Some(DiffOf(taskStats[h], taskSnapshots[h]));
    }

    /** Adds up a table in the order of its keys. */
    static method AddUp(m: map<Handle, TaskStats>) returns (t: TaskStats)
      ensures Totals(t, m)
    {
      t := NO_STATS;
      var left := m.Keys;
      ghost var done: set<Handle> := {};
      while left != {}
        invariant left + done == m.Keys && left !! done
        invariant SumsOf(t, m, done)
        invariant HeapOfLast(t.heapFree, m, done)
        invariant AllBelow(done, left)
        decreases left
      {
        var h := First(left);
        AddRowSums(t, m, done, h);
        FirstIsNext(m, done, left, h);
        t := AddRow(t, m[h]);
        left, done := left - {h}, done + {h};
      }
      assert done == m.Keys;
    }

    static method First(left: set<Handle>) returns (h: Handle)
      requires left != {}
      ensures IsLeast(h, left)
    {
      ghost var least := LeastExists(left);
      assert least in left && forall k | k in left :: least <= k;
      h :| h in left && forall k | k in left :: h <= k;
    }

    method SaveAppSnapshot()
      requires Valid()
      modifies this`appSnapshot
      ensures Totals(appSnapshot, taskStats)
    {
      appSnapshot := AddUp(taskStats);
    }

    /**
     * The application's difference. It is exactly what the tasks show one by one if, and only if, the
     * application snapshot is the total of the single-task snapshots.
     */
    method AppDiff() returns (d: Diff)
      requires Valid()
      ensures exists t :: Totals(t, taskStats)
                && d.executionTime == t.executionTime - appSnapshot.executionTime
                && d.cpuUsage == Wrap(t.cpuUsage - appSnapshot.cpuUsage)
                && d.stackMark == Wrap(t.stackMark - appSnapshot.stackMark)
                && d.heapFree == Wrap(t.heapFree - appSnapshot.heapFree)
      ensures AgreesByTask(d, taskStats, taskSnapshots) <==> Together()
    {
      var current := AddUp(taskStats);
      AppDifferences(taskStats, taskSnapshots, current, appSnapshot);
      d := DiffOf(current, appSnapshot);
    }

    /** Takes all snapshots together. */
    method SaveAllSnapshots()
      requires Valid()
      modifies this`taskSnapshots, this`appSnapshot
      ensures Valid() && Together() && taskSnapshots == taskStats
    {
      var left := taskStats.Keys;
      while left != {}
        invariant Valid() && left <= taskStats.Keys
        invariant forall h | h in taskStats.Keys - left :: h in taskSnapshots && taskSnapshots[h] == taskStats[h]
        decreases left
      {
        var h := First(left);
        SaveSingleTaskSnapshot(h);
        left := left - {h};
      }
      SaveAppSnapshot();
      assert taskSnapshots == taskStats;
    }

    /** Any measurements between the snapshots and the application's difference leave it what it should be. */
    method MeasureBetween(ops: seq<Operation>) returns (d: Diff)
      requires Valid()
      modifies this
      ensures Valid() && Together() && taskSnapshots == old(taskStats)
      ensures Profile(taskStats, startTime) == MeasureAll(old(Profile(taskStats, startTime)), ops)
      ensures AgreesByTask(d, taskStats, old(taskStats))
    {
      SaveAllSnapshots();
      for i := 0 to |ops|
        invariant Valid() && Together() && taskSnapshots == old(taskStats)
        invariant Profile(taskStats, startTime) == MeasureAll(old(Profile(taskStats, startTime)), ops[..i])
      {
        assert ops[..i + 1][..i] == ops[..i];
        Perform(ops[i]);
      }
      assert ops[..|ops|] == ops;
      d := AppDiff();
    }

    method Perform(op: Operation)
      requires Valid()
      modifies this`taskStats, this`startTime
      ensures Valid() && Together() == old(Together())
      ensures Profile(taskStats, startTime) == Measure(old(Profile(taskStats, startTime)), op)
    {
      if op.Start? {
        StartProfiling(op.h, op.name, op.now);
      } else {
        StopProfiling(op.h, op.now, op.runTimeCounter, op.stackMark, op.heapFree);
      }
    }
  }
}
