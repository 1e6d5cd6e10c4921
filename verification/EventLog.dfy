/** What the log of lib/Logger/EventLogger.hpp must hold, as functions of the history of logged changes. */
module LogHistory {
  import opened Prelude

  const LOG_CAPACITY := 30
  /** snprintf keeps one character of its 64 for the terminator. */
  const MAXIMUM_TEXT := 63
  const PREFIX := "[<timestamp_not_implemented>] "

  /** One logged change: who, and the name of the new state. */
  datatype Record = Record(id: string, state: string)

  function FullText(r: Record): string {
    PREFIX + r.id + " -> " + r.state
  }

  /** The entry as it is stored: cut to the formatting buffer. */
  function Format(r: Record): string {
    FullText(r)[..Min(|FullText(r)|, MAXIMUM_TEXT)]
  }

  function FormatAll(history: seq<Record>): (texts: seq<string>)
    ensures |texts| == |history|
    ensures forall i | 0 <= i < |history| :: texts[i] == Format(history[i])
  {
    seq(|history|, i requires 0 <= i < |history| => Format(history[i]))
  }

  /** The entries retained after a history. */
  function WindowOf(history: seq<Record>): seq<string> {
    KeepLast(FormatAll(history), LOG_CAPACITY)
  }

  /** Everything printed so far: the whole window after every change from the one that filled it on. */
  function PrintedBy(history: seq<Record>): seq<string> {
    if history == [] then []
    else PrintedBy(history[..|history| - 1]) + if |history| >= LOG_CAPACITY then WindowOf(history) else []
  }

  /** Storing one more entry moves the window. */
  lemma WindowMoves(history: seq<Record>, r: Record)
    ensures WindowOf(history + [r]) == KeepLast(WindowOf(history) + [Format(r)], LOG_CAPACITY)
  {
    KeepLastAppend(FormatAll(history), Format(r), LOG_CAPACITY);
    assert FormatAll(history + [r]) == FormatAll(history) + [Format(r)];
  }

  lemma {:induction false} PrintedLines(history: seq<Record>)
    ensures |PrintedBy(history)| ==
              if |history| < LOG_CAPACITY then 0 else LOG_CAPACITY * (|history| - LOG_CAPACITY + 1)
  {
    if history == [] {
    } else {
      PrintedLines(history[..|history| - 1]);
    }
  }

  /** An entry is stored whole exactly when identifier and state name have 29 characters together. */
  lemma StoredWholeIff(r: Record)
    ensures Format(r) == FullText(r) <==> |r.id| + |r.state| <= 29
  {
    assert |PREFIX| == 30;
    assert |FullText(r)| == 34 + |r.id| + |r.state|;
  }

  /** What an entry still shows of a state's name. */
  function Shown(id: string, state: string): string {
    state[..Min(|state|, if |id| <= 29 then 29 - |id| else 0)]
  }

  function Heading(id: string): string {
    PREFIX + id + " -> "
  }

  lemma FormatShows(id: string, state: string)
    ensures Format(Record(id, state)) ==
              if |id| <= 29 then Heading(id) + Shown(id, state) else Heading(id)[..MAXIMUM_TEXT]
  {
    assert FullText(Record(id, state)) == Heading(id) + state;
    assert |Heading(id)| == 34 + |id|;
  }

  /** Two entries of one object are equal exactly when the cut leaves the same of both names. */
  lemma SameEntryIff(id: string, a: string, b: string)
    ensures Format(Record(id, a)) == Format(Record(id, b)) <==> Shown(id, a) == Shown(id, b)
  {
    FormatShows(id, a);
    FormatShows(id, b);
    if |id| <= 29 && Heading(id) + Shown(id, a) == Heading(id) + Shown(id, b) {
      assert (Heading(id) + Shown(id, a))[|Heading(id)|..] == Shown(id, a);
      assert (Heading(id) + Shown(id, b))[|Heading(id)|..] == Shown(id, b);
    }
  }

  /** Entries of one object that are stored whole tell its states apart. */
  lemma StoredWholeTellsApart(id: string, a: string, b: string)
    requires |id| + |a| <= 29 && |id| + |b| <= 29
    ensures Format(Record(id, a)) == Format(Record(id, b)) ==> a == b
  {
    SameEntryIff(id, a, b);
  }

  /** Entries with too long an identifier coincide: the state is then lost from the log. */
  lemma CutEntriesMayCoincide(id: string, a: string, b: string)
    requires |id| >= 29
    ensures Format(Record(id, a)) == Format(Record(id, b))
  {
    SameEntryIff(id, a, b);
  }

  /** An identifier that fills the entry leaves nothing of the state in it; a shorter one leaves something. */
  lemma StateIsLostIff(id: string)
    ensures (forall a, b :: Format(Record(id, a)) == Format(Record(id, b))) <==> |id| >= 29
  {
    if |id| >= 29 {
      forall a, b ensures Format(Record(id, a)) == Format(Record(id, b)) {
        CutEntriesMayCoincide(id, a, b);
      }
    } else {
      SameEntryIff(id, "", "x");
      assert |Shown(id, "")| == 0 && |Shown(id, "x")| == 1;
    }
  }

  // ----- Whose entry it is -----

  /** An entry shows timestamp and identifier in full exactly when the identifier has at most 33 characters. */
  lemma EntryShowsObjectIff(id: string, state: string)
    ensures PREFIX + id <= Format(Record(id, state)) <==> |id| <= 33
    ensures |id| <= 29 ==> PREFIX + id + " -> " <= Format(Record(id, state))
  {
    assert |PREFIX| == 30;
    assert FullText(Record(id, state)) == PREFIX + id + (" -> " + state);
  }

  /** An entry of one object can be read as one of the other, whose identifier goes on with an arrow. */
  predicate ReadsOn(short: string, long: string) {
    short + " -> " <= long + " -> "
  }

  lemma HeadingsNest(i: string, j: string)
    ensures Heading(i) <= Heading(j) <==> ReadsOn(i, j)
  {
    if Heading(i) <= Heading(j) {
      assert Heading(i)[|PREFIX|..] == i + " -> " && Heading(j)[|PREFIX|..] == j + " -> ";
      assert Heading(j)[..|Heading(i)|][|PREFIX|..] == (j + " -> ")[..|i| + 4];
    }
    if ReadsOn(i, j) {
      assert Heading(i) == PREFIX + (i + " -> ") && Heading(j) == PREFIX + (j + " -> ");
      assert (PREFIX + (j + " -> "))[..|Heading(i)|] == PREFIX + (j + " -> ")[..|i| + 4];
    }
  }

  ghost predicate WholeEntriesCoincide(i: string, j: string) {
    exists a, b :: |i| + |a| <= 29 && |j| + |b| <= 29 && Format(Record(i, a)) == Format(Record(j, b))
  }

  lemma CoincideWhenReadOn(i: string, j: string)
    requires |i| <= |j| <= 29 && ReadsOn(i, j)
    ensures WholeEntriesCoincide(i, j)
  {
    var a := (j + " -> ")[|i| + 4..];
    HeadingsNest(i, j);
    assert Heading(i) + a == Heading(j);
    assert Heading(j) + "" == Heading(j);
    assert FullText(Record(i, a)) == Heading(i) + a && FullText(Record(j, "")) == Heading(j) + "";
    StoredWholeIff(Record(i, a));
    StoredWholeIff(Record(j, ""));
  }

  lemma ReadOnWhenCoincide(i: string, j: string, a: string, b: string)
    requires |i| <= |j| && |i| + |a| <= 29 && |j| + |b| <= 29 && Format(Record(i, a)) == Format(Record(j, b))
    ensures ReadsOn(i, j)
  {
    StoredWholeIff(Record(i, a));
    StoredWholeIff(Record(j, b));
    assert FullText(Record(i, a)) == Heading(i) + a && FullText(Record(j, b)) == Heading(j) + b;
    assert (Heading(i) + a)[..|Heading(i)|] == Heading(i);
    assert (Heading(j) + b)[..|Heading(i)|] == Heading(j)[..|Heading(i)|];
    HeadingsNest(i, j);
  }

  /**
   * Whole entries of two objects can be the same exactly if one identifier, with the arrow after it, begins
   * the other: "a" entering "b -> c" is logged like "a -> b" entering "c".
   */
  lemma WholeEntriesCoincideIff(i: string, j: string)
    requires |i| <= 29 && |j| <= 29
    ensures WholeEntriesCoincide(i, j) <==> ReadsOn(i, j) || ReadsOn(j, i)
  {
    if a, b :| |i| + |a| <= 29 && |j| + |b| <= 29 && Format(Record(i, a)) == Format(Record(j, b)) {
      if |i| <= |j| {
        ReadOnWhenCoincide(i, j, a, b);
      } else {
        ReadOnWhenCoincide(j, i, b, a);
      }
    }
    if ReadsOn(i, j) {
      CoincideWhenReadOn(i, j);
    } else if ReadsOn(j, i) {
      CoincideWhenReadOn(j, i);
      var a, b :| |j| + |a| <= 29 && |i| + |b| <= 29 && Format(Record(j, a)) == Format(Record(i, b));
      assert Format(Record(i, b)) == Format(Record(j, a));
    }
  }

  lemma SameEntryFromTwo()
    ensures Format(Record("a", "b -> c")) == Format(Record("a -> b", "c"))
  {
    assert FullText(Record("a", "b -> c")) == PREFIX + "a -> b -> c";
    assert FullText(Record("a -> b", "c")) == PREFIX + "a -> b -> c";
  }

  /** An entry of the firmware, in full. */
  lemma WifiManagerConnected()
    ensures Format(Record("WifiManager", "CONNECTED")) == "[<timestamp_not_implemented>] WifiManager -> CONNECTED"
  {
    StoredWholeIff(Record("WifiManager", "CONNECTED"));
  }

  /** Identifiers without blanks, which all objects of the firmware have, are told apart by whole entries. */
  lemma BlankFreeTellsApart(i: string, j: string, a: string, b: string)
    requires ' ' !in i && ' ' !in j
    requires |i| + |a| <= 29 && |j| + |b| <= 29 && Format(Record(i, a)) == Format(Record(j, b))
    ensures i == j && a == b
  {
    if |i| <= |j| {
      ReadOnWhenCoincide(i, j, a, b);
      BlankFreeEnds(i, j);
    } else {
      ReadOnWhenCoincide(j, i, b, a);
      BlankFreeEnds(j, i);
    }
    StoredWholeTellsApart(i, a, b);
  }

  lemma BlankInside(short: string, long: string)
    requires |short| < |long| && ReadsOn(short, long)
    ensures ' ' in long
  {
    assert long[|short|] == (long + " -> ")[|short|] == (short + " -> ")[|short|];
  }

  lemma BlankFreeEnds(short: string, long: string)
    requires ' ' !in long && |short| <= |long| && ReadsOn(short, long)
    ensures short == long
  {
    if |short| < |long| {
      BlankInside(short, long);
    } else {
      assert short == (short + " -> ")[..|short|] == (long + " -> ")[..|short|] == long;
    }
  }
}

/**
 * logStateChange at its real granularity: any number of threads, each of which pushes its entry under the
 * mutex, tests without it whether the ring is full, and if so prints the window under the mutex again. A push
 * into the full ring moves the tail before the head, so that a test in between finds the ring not full.
 */
module LoggerProtocol {
  import opened Prelude
  import opened LogHistory

  datatype System = System(
    history: seq<Record>,
    pushing: Option<Record>,  // the push that is half done, if any
    checking: nat,        // threads between the push and the test of is_max
    printing: nat,        // threads between a successful test and the printing
    console: seq<string>)

  datatype Label = BeginPush(r: Record) | EndPush | Check | Print

  /** atomic: pushing, testing and printing is one step. The source releases the mutex in between. */
  datatype Mode = Mode(atomic: bool)

  function Boot(): System {
    System([], None, 0, 0, [])
  }

  predicate Idle(s: System) {
    s.pushing.None? && s.checking == 0 && s.printing == 0
  }

  predicate Enabled(m: Mode, s: System, l: Label) {
    match l
    case BeginPush(_) => s.pushing.None? && (m.atomic ==> Idle(s))
    case EndPush => s.pushing.Some?
    case Check => s.checking > 0
    case Print => s.printing > 0 && s.pushing.None?
  }

  function Apply(m: Mode, s: System, l: Label): System
    requires Enabled(m, s, l)
  {
    match l
    case BeginPush(r) => s.(pushing := Some(r))
    case EndPush => s.(history := s.history + [s.pushing.value], pushing := None, checking := s.checking + 1)
    case Check =>
      if |s.history| >= LOG_CAPACITY && s.pushing.None? then s.(checking := s.checking - 1, printing := s.printing + 1)
      else s.(checking := s.checking - 1)
    case Print => s.(printing := s.printing - 1, console := s.console + WindowOf(s.history))
  }

  predicate IsRun(m: Mode, s: System, run: seq<Label>)
    decreases run
  {
    run == [] || (Enabled(m, s, run[0]) && IsRun(m, Apply(m, s, run[0]), run[1..]))
  }

  function Execute(m: Mode, s: System, run: seq<Label>): System
    requires IsRun(m, s, run)
    decreases run
  {
    if run == [] then s else Execute(m, Apply(m, s, run[0]), run[1..])
  }

  // ----- At any granularity -----

  /** Whoever pushes last finds the ring full when it is, and prints the newest window. */
  ghost predicate Inv(s: System) {
    var n, printed := |s.history|, |s.console|;
    && (s.printing > 0 ==> n >= LOG_CAPACITY)
    && printed <= LOG_CAPACITY * (n - s.checking - s.printing)
    && (n < LOG_CAPACITY ==> printed == 0)
    && (n >= LOG_CAPACITY && Idle(s) ==> EndsWith(s.console, WindowOf(s.history)))
  }

  ghost predicate EndsWith(s: seq<string>, tail: seq<string>) {
    |s| >= |tail| && s[|s| - |tail|..] == tail
  }

  lemma InvStep(m: Mode, s: System, l: Label)
    requires Inv(s) && Enabled(m, s, l)
    ensures Inv(Apply(m, s, l))
  {
    if l.Print? {
      var window := WindowOf(s.history);
      assert (s.console + window)[|s.console|..] == window;
    }
  }

  lemma {:induction false} InvAlong(m: Mode, s: System, run: seq<Label>)
    requires Inv(s) && IsRun(m, s, run)
    ensures Inv(Execute(m, s, run))
    decreases run
  {
    if run == [] {
    } else {
      InvStep(m, s, run[0]);
      InvAlong(m, Apply(m, s, run[0]), run[1..]);
    }
  }

  /**
   * Whatever the interleaving, once all threads have returned at most one window was printed for each call,
   * nothing if the ring never filled up, and otherwise the newest window last.
   */
  lemma WindowsPrinted(m: Mode, run: seq<Label>)
    requires IsRun(m, Boot(), run) && Idle(Execute(m, Boot(), run))
    ensures var s := Execute(m, Boot(), run);
      && |s.console| <= LOG_CAPACITY * |s.history|
      && (if |s.history| < LOG_CAPACITY then s.console == [] else EndsWith(s.console, WindowOf(s.history)))
  {
    InvAlong(m, Boot(), run);
  }

  /** Whole windows, one after the other: those of the history when it had these lengths. */
  function Windows(history: seq<Record>, lengths: seq<nat>): seq<string>
    requires forall i | 0 <= i < |lengths| :: lengths[i] <= |history|
  {
    if lengths == [] then []
    else Windows(history, lengths[..|lengths| - 1]) + WindowOf(history[..lengths[|lengths| - 1]])
  }

  lemma {:induction false} WindowsKept(history: seq<Record>, r: Record, lengths: seq<nat>)
    requires forall i | 0 <= i < |lengths| :: lengths[i] <= |history|
    ensures Windows(history + [r], lengths) == Windows(history, lengths)
  {
    if lengths == [] {
    } else {
      var n := lengths[|lengths| - 1];
      WindowsKept(history, r, lengths[..|lengths| - 1]);
      assert (history + [r])[..n] == history[..n];
    }
  }

  /** The console shows the windows of the history at these lengths, never an older one after a newer. */
  ghost predicate Shows(s: System, lengths: seq<nat>) {
    && (forall i | 0 <= i < |lengths| :: LOG_CAPACITY <= lengths[i] <= |s.history|)
    && (forall i, j | 0 <= i < j < |lengths| :: lengths[i] <= lengths[j])
    && s.console == Windows(s.history, lengths)
  }

  lemma ShowsStep(m: Mode, s: System, l: Label, lengths: seq<nat>) returns (longer: seq<nat>)
    requires Inv(s) && Shows(s, lengths) && Enabled(m, s, l)
    ensures Shows(Apply(m, s, l), longer) && |longer| == |lengths| + if l.Print? then 1 else 0
  {
    longer := lengths;
    if l.EndPush? {
      WindowsKept(s.history, s.pushing.value, lengths);
    } else if l.Print? {
      longer := lengths + [|s.history|];
      assert longer[..|lengths|] == lengths && s.history[..|s.history|] == s.history;
    }
  }

  function Prints(run: seq<Label>): nat {
    if run == [] then 0 else (if run[0].Print? then 1 else 0) + Prints(run[1..])
  }

  lemma {:induction false} ShowsAlong(m: Mode, s: System, run: seq<Label>, lengths: seq<nat>)
    returns (longer: seq<nat>)
    requires Inv(s) && Shows(s, lengths) && IsRun(m, s, run)
    ensures Shows(Execute(m, s, run), longer) && |longer| == |lengths| + Prints(run)
    decreases run
  {
    longer := lengths;
    if run == [] {
    } else {
      InvStep(m, s, run[0]);
      longer := ShowsStep(m, s, run[0], lengths);
      longer := ShowsAlong(m, Apply(m, s, run[0]), run[1..], longer);
    }
  }

  /**
   * In every interleaving the console shows one whole window for each print, each that of the history at some
   * moment, and none older than the one before it: printouts are never mixed, torn or out of order.
   */
  lemma ConsoleIsWindows(m: Mode, run: seq<Label>) returns (lengths: seq<nat>)
    requires IsRun(m, Boot(), run)
    ensures Shows(Execute(m, Boot(), run), lengths) && |lengths| == Prints(run)
  {
    lengths := ShowsAlong(m, Boot(), run, []);
  }

  function Begun(run: seq<Label>): nat {
    if run == [] then 0 else (if run[0].BeginPush? then 1 else 0) + Begun(run[1..])
  }

  function Ended(run: seq<Label>): nat {
    if run == [] then 0 else (if run[0].EndPush? then 1 else 0) + Ended(run[1..])
  }

  lemma {:induction false} PushesAccounted(m: Mode, s: System, run: seq<Label>)
    requires IsRun(m, s, run)
    ensures var t := Execute(m, s, run);
      && |t.history| == |s.history| + Ended(run)
      && Begun(run) + (if s.pushing.Some? then 1 else 0) == Ended(run) + (if t.pushing.Some? then 1 else 0)
    decreases run
  {
    if run == [] {
    } else {
      PushesAccounted(m, Apply(m, s, run[0]), run[1..]);
    }
  }

  /** The mutex: whenever a push begins or a window is printed, every push begun before has ended. */
  lemma MutexExcludes(m: Mode, run: seq<Label>, l: Label)
    requires IsRun(m, Boot(), run) && Enabled(m, Execute(m, Boot(), run), l) && (l.BeginPush? || l.Print?)
    ensures Begun(run) == Ended(run) == |Execute(m, Boot(), run).history|
  {
    PushesAccounted(m, Boot(), run);
  }

  // ----- Exactly what calls in sequence print -----

  ghost predicate AtomicInv(s: System) {
    && s.checking + s.printing + (if s.pushing.Some? then 1 else 0) <= 1
    && (s.printing > 0 ==> |s.history| >= LOG_CAPACITY)
    && (if s.checking == 0 && s.printing == 0 then s.console == PrintedBy(s.history)
        else s.history != [] && s.console == PrintedBy(s.history[..|s.history| - 1]))
  }

  lemma {:induction false} AtomicAlong(m: Mode, s: System, run: seq<Label>)
    requires m.atomic && AtomicInv(s) && IsRun(m, s, run)
    ensures AtomicInv(Execute(m, s, run))
    decreases run
  {
    if run == [] {
    } else {
      if run[0].EndPush? {
        assert (s.history + [s.pushing.value])[..|s.history|] == s.history;
      }
      AtomicAlong(m, Apply(m, s, run[0]), run[1..]);
    }
  }

  lemma {:induction false} Extend(m: Mode, s: System, run: seq<Label>, l: Label)
    requires IsRun(m, s, run) && Enabled(m, Execute(m, s, run), l)
    ensures IsRun(m, s, run + [l]) && Execute(m, s, run + [l]) == Apply(m, Execute(m, s, run), l)
    decreases run
  {
    var longer := run + [l];
    if run == [] {
      assert longer[0] == l && longer[1..] == [];
    } else {
      assert longer[0] == run[0] && longer[1..] == run[1..] + [l];
      Extend(m, Apply(m, s, run[0]), run[1..], l);
    }
  }

  /** A push that nobody disturbs. */
  lemma PushOne(m: Mode, before: seq<Label>, r: Record) returns (run: seq<Label>)
    requires IsRun(m, Boot(), before)
    requires var s := Execute(m, Boot(), before); s.pushing.None? && (m.atomic ==> Idle(s))
    ensures IsRun(m, Boot(), run)
    ensures var s := Execute(m, Boot(), before);
      Execute(m, Boot(), run) == s.(history := s.history + [r], checking := s.checking + 1)
  {
    Extend(m, Boot(), before, BeginPush(r));
    run := before + [BeginPush(r)];
    Extend(m, Boot(), run, EndPush);
    run := run + [EndPush];
  }

  /** Entries logged one after the other into a ring that does not fill up. */
  lemma {:induction false} Filling(m: Mode, r: Record, n: nat) returns (run: seq<Label>)
    requires n < LOG_CAPACITY
    ensures IsRun(m, Boot(), run)
    ensures var s := Execute(m, Boot(), run); |s.history| == n && Idle(s) && s.console == []
  {
    if n == 0 {
      run := [];
    } else {
      run := Filling(m, r, n - 1);
      run := PushOne(m, run, r);
      Extend(m, Boot(), run, Check);
      run := run + [Check];
    }
  }

  /** Two threads push the 29th and 30th entry before either tests: both find the ring full and print it. */
  lemma PrintedTwice(m: Mode, r: Record) returns (run: seq<Label>)
    requires !m.atomic
    ensures IsRun(m, Boot(), run)
    ensures var s := Execute(m, Boot(), run);
      Idle(s) && |s.history| == LOG_CAPACITY && |s.console| == 2 * LOG_CAPACITY
  {
    run := Filling(m, r, LOG_CAPACITY - 2);
    run := PushOne(m, run, r);
    run := PushOne(m, run, r);
    run := BothPrint(m, run);
  }

  lemma BothPrint(m: Mode, before: seq<Label>) returns (run: seq<Label>)
    requires IsRun(m, Boot(), before)
    requires var s := Execute(m, Boot(), before);
      |s.history| == LOG_CAPACITY && s.pushing.None? && s.checking == 2 && s.printing == 0 && s.console == []
    ensures IsRun(m, Boot(), run)
    ensures var s := Execute(m, Boot(), run);
      Idle(s) && |s.history| == LOG_CAPACITY && |s.console| == 2 * LOG_CAPACITY
  {
    Extend(m, Boot(), before, Check);
    run := before + [Check];
    Extend(m, Boot(), run, Check);
    run := run + [Check];
    Extend(m, Boot(), run, Print);
    run := run + [Print];
    Extend(m, Boot(), run, Print);
    run := run + [Print];
  }

  /** A test that falls into another thread's push finds the full ring not full: a window is never printed. */
  lemma PrintSkipped(m: Mode, r: Record) returns (run: seq<Label>)
    requires !m.atomic
    ensures IsRun(m, Boot(), run)
    ensures var s := Execute(m, Boot(), run);
      && Idle(s) && |s.history| == LOG_CAPACITY + 1
      && |s.console| == LOG_CAPACITY && |PrintedBy(s.history)| == 2 * LOG_CAPACITY
  {
    run := Filling(m, r, LOG_CAPACITY - 1);
    run := PushOne(m, run, r);
    run := MissedTest(m, run, r);
    PrintedLines(Execute(m, Boot(), run).history);
  }

  lemma MissedTest(m: Mode, before: seq<Label>, r: Record) returns (run: seq<Label>)
    requires !m.atomic && IsRun(m, Boot(), before)
    requires var s := Execute(m, Boot(), before);
      |s.history| == LOG_CAPACITY && s.pushing.None? && s.checking == 1 && s.printing == 0 && s.console == []
    ensures IsRun(m, Boot(), run)
    ensures var s := Execute(m, Boot(), run);
      Idle(s) && |s.history| == LOG_CAPACITY + 1 && |s.console| == LOG_CAPACITY
  {
    Extend(m, Boot(), before, BeginPush(r));
    run := before + [BeginPush(r)];
    Extend(m, Boot(), run, Check);
    run := run + [Check];
    Extend(m, Boot(), run, EndPush);
    run := run + [EndPush];
    Extend(m, Boot(), run, Check);
    run := run + [Check];
    Extend(m, Boot(), run, Print);
    run := run + [Print];
  }

  ghost predicate PrintsAsInSequence(m: Mode) {
    forall run: seq<Label> | IsRun(m, Boot(), run) && Idle(Execute(m, Boot(), run)) ::
      Execute(m, Boot(), run).console == PrintedBy(Execute(m, Boot(), run).history)
  }

  /** The console shows exactly what calls in sequence print exactly when logStateChange is one step. */
  lemma PrintsAsInSequenceIff(m: Mode)
    ensures PrintsAsInSequence(m) <==> m.atomic
  {
    if m.atomic {
      forall run: seq<Label> | IsRun(m, Boot(), run) && Idle(Execute(m, Boot(), run))
        ensures Execute(m, Boot(), run).console == PrintedBy(Execute(m, Boot(), run).history)
      {
        AtomicAlong(m, Boot(), run);
      }
    } else {
      var run := PrintedTwice(m, Record("", ""));
      PrintedLines(Execute(m, Boot(), run).history);
    }
  }
}

/** Any number of logged objects sharing one log, with setState calls in any order. */
module LoggedFleet {
  import opened Prelude
  import opened LogHistory

  /** A call of setState on the object with this identifier. */
  datatype Call<S> = Call(id: string, state: S)

  /** Current states by identifier, and the changes logged so far. */
  datatype Fleet<S> = Fleet(states: map<string, S>, changes: seq<Call<S>>)

  /** setState: only an actual change is stored and logged. */
  function SetState<S(==)>(f: Fleet<S>, c: Call<S>): Fleet<S>
    requires c.id in f.states
  {
    if f.states[c.id] == c.state then f
    else Fleet(f.states[c.id := c.state], f.changes + [c])
  }

  predicate AllKnown<S>(states: map<string, S>, calls: seq<Call<S>>) {
    forall i | 0 <= i < |calls| :: calls[i].id in states
  }

  function Run<S(==)>(initial: map<string, S>, calls: seq<Call<S>>): (f: Fleet<S>)
    requires AllKnown(initial, calls)
    ensures f.states.Keys == initial.Keys
  {
    if calls == [] then Fleet(initial, [])
    else SetState(Run(initial, calls[..|calls| - 1]), calls[|calls| - 1])
  }

  /** The states one object went through, oldest first. */
  function StatesOf<S>(changes: seq<Call<S>>, id: string): seq<S> {
    if changes == [] then []
    else
      var c := changes[|changes| - 1];
      StatesOf(changes[..|changes| - 1], id) + if c.id == id then [c.state] else []
  }

  ghost predicate NoStutter<S>(states: seq<S>) {
    forall i, j | 0 <= i < j < |states| && j == i + 1 :: states[i] != states[j]
  }

  /** The log of one object with its initial state in front. */
  function Lived<S>(initial: map<string, S>, f: Fleet<S>, id: string): (states: seq<S>)
    requires id in initial
    ensures |states| > 0
  {
    [initial[id]] + StatesOf(f.changes, id)
  }

  ghost predicate EndsInCurrent<S>(initial: map<string, S>, f: Fleet<S>, id: string)
    requires id in initial
  {
    var lived := Lived(initial, f, id);
    id in f.states && lived[|lived| - 1] == f.states[id]
  }

  /** The log of one object never repeats a state and ends in its current one. */
  ghost predicate Faithful<S>(initial: map<string, S>, f: Fleet<S>, id: string)
    requires id in initial
  {
    NoStutter(Lived(initial, f, id)) && EndsInCurrent(initial, f, id)
  }

  lemma StatesOfAppend<S>(changes: seq<Call<S>>, c: Call<S>, id: string)
    ensures StatesOf(changes + [c], id) == StatesOf(changes, id) + if c.id == id then [c.state] else []
  {
    assert (changes + [c])[..|changes|] == changes;
  }

  lemma NoStutterAppend<S>(states: seq<S>, s: S)
    requires NoStutter(states) && (states != [] ==> states[|states| - 1] != s)
    ensures NoStutter(states + [s])
  {
  }

  lemma FaithfulStep<S>(initial: map<string, S>, f: Fleet<S>, c: Call<S>, id: string)
    requires id in initial && id in f.states && c.id in f.states && Faithful(initial, f, id)
    ensures Faithful(initial, SetState(f, c), id)
  {
    var lived := Lived(initial, f, id);
    if f.states[c.id] != c.state {
      StatesOfAppend(f.changes, c, id);
      if c.id == id {
        NoStutterAppend(lived, c.state);
        assert [initial[id]] + StatesOf(f.changes + [c], id) == lived + [c.state];
      } else {
        assert StatesOf(f.changes + [c], id) == StatesOf(f.changes, id);
      }
    }
  }

  lemma {:induction false} HistoryIsFaithful<S>(initial: map<string, S>, calls: seq<Call<S>>, id: string)
    requires AllKnown(initial, calls) && id in initial
    ensures Faithful(initial, Run(initial, calls), id)
  {
    if calls == [] {
      assert [initial[id]] + [] == [initial[id]];
    } else {
      HistoryIsFaithful(initial, calls[..|calls| - 1], id);
      FaithfulStep(initial, Run(initial, calls[..|calls| - 1]), calls[|calls| - 1], id);
    }
  }

  /** The position of an object's newest logged change, if it has one. */
  ghost predicate NewestAt<S>(changes: seq<Call<S>>, id: string, k: nat) {
    && k < |changes| && changes[k].id == id
    && forall j | k < j < |changes| :: changes[j].id != id
  }

  lemma {:induction false} NewestIsCurrent<S>(initial: map<string, S>, calls: seq<Call<S>>, id: string, k: nat)
    requires AllKnown(initial, calls) && id in initial && NewestAt(Run(initial, calls).changes, id, k)
    ensures Run(initial, calls).changes[k].state == Run(initial, calls).states[id]
  {
    if calls == [] {
    } else {
      var before, c := Run(initial, calls[..|calls| - 1]), calls[|calls| - 1];
      var after := Run(initial, calls);
      if k < |before.changes| {
        assert forall j | 0 <= j < |before.changes| :: before.changes[j] == after.changes[j];
        if after.changes != before.changes {
          assert after.changes[|before.changes|] == c;
        }
        NewestIsCurrent(initial, calls[..|calls| - 1], id, k);
      }
    }
  }

  function Records<S>(changes: seq<Call<S>>, name: S -> string): (records: seq<Record>)
    ensures |records| == |changes|
    ensures forall i | 0 <= i < |changes| :: records[i] == Record(changes[i].id, name(changes[i].state))
  {
    seq(|changes|, i requires 0 <= i < |changes| => Record(changes[i].id, name(changes[i].state)))
  }

  lemma LastOne<T>(s: seq<T>, n: nat, i: nat)
    requires i < Min(|s|, n)
    ensures KeepLast(s, n)[i] == s[|s| - Min(|s|, n) + i]
  {
  }

  lemma FormattedAt(history: seq<Record>, i: nat)
    requires i < Min(|history|, LOG_CAPACITY)
    ensures |WindowOf(history)| == Min(|history|, LOG_CAPACITY)
    ensures WindowOf(history)[i] == Format(history[|history| - Min(|history|, LOG_CAPACITY) + i])
  {
    LastOne(FormatAll(history), LOG_CAPACITY, i);
  }

  /** The i-th retained entry is the i-th of the newest min(n, 30) changes. */
  lemma WindowIsNewestChanges<S>(changes: seq<Call<S>>, name: S -> string, i: nat)
    requires i < Min(|changes|, LOG_CAPACITY)
    ensures |WindowOf(Records(changes, name))| == Min(|changes|, LOG_CAPACITY)
    ensures var k := |changes| - Min(|changes|, LOG_CAPACITY) + i;
      WindowOf(Records(changes, name))[i] == Format(Record(changes[k].id, name(changes[k].state)))
  {
    FormattedAt(Records(changes, name), i);
  }

  /**
   * If an object changed within the window, its newest entry there is that of its current state, and of
   * exactly those states whose names the cut does not tell from it.
   */
  lemma WindowTellsCurrentState<S>(initial: map<string, S>, calls: seq<Call<S>>, name: S -> string, id: string, k: nat)
    requires AllKnown(initial, calls) && id in initial && NewestAt(Run(initial, calls).changes, id, k)
    requires k + LOG_CAPACITY >= |Run(initial, calls).changes|
    ensures var f := Run(initial, calls);
      var window := WindowOf(Records(f.changes, name));
      && |f.changes| - k <= |window|
      && window[|window| - (|f.changes| - k)] == Format(Record(id, name(f.states[id])))
      && forall x :: window[|window| - (|f.changes| - k)] == Format(Record(id, name(x)))
                     <==> Shown(id, name(x)) == Shown(id, name(f.states[id]))
  {
    NewestIsCurrent(initial, calls, id, k);
    var f := Run(initial, calls);
    WindowIsNewestChanges(f.changes, name, Min(|f.changes|, LOG_CAPACITY) - (|f.changes| - k));
    forall x
      ensures Format(Record(id, name(x))) == Format(Record(id, name(f.states[id])))
              <==> Shown(id, name(x)) == Shown(id, name(f.states[id]))
    {
      SameEntryIff(id, name(x), name(f.states[id]));
    }
  }
}

/** The shared logger and the logged objects themselves. */
module EventLoggers {
  import opened CircularBuffers
  import opened LogHistory
  import opened LoggedFleet

  class EventLogger {
    const logs: CircularBuffer<string>
    /** Lines sent to the console by printLatestLogs. */
    var printed: seq<string>
    ghost var history: seq<Record>

    ghost predicate Valid()
      reads this, logs, logs.buffer
    {
      && logs.Valid() && logs.capacity == LOG_CAPACITY
      && logs.Contents() == WindowOf(history)
      && printed == PrintedBy(history)
    }

    constructor ()
      ensures Valid() && history == [] && fresh(logs) && fresh(logs.buffer)
    {
      logs := new CircularBuffer<string>(LOG_CAPACITY);
      printed, history := [], [];
    }

    /** Stores the entry, and prints the whole window whenever the ring is full afterwards. */
    method LogStateChange(id: string, state: string)
      requires Valid()
      modifies this, logs, logs.buffer
      ensures Valid() && history == old(history) + [Record(id, state)]
    {
      ghost var grown := history + [Record(id, state)];
      assert grown[..|grown| - 1] == history;
      WindowMoves(history, Record(id, state));
      var ok := logs.Push(Format(Record(id, state)));
      history := grown;
      var full := logs.IsMax();
      if full {
        PrintLatestLogs();
      }
    }

    /** Prints the live entries, oldest first; every slot it reads is engaged. */
    method PrintLatestLogs()
      requires logs.Valid() && logs.capacity == LOG_CAPACITY
      modifies this`printed
      ensures printed == old(printed) + logs.Contents()
    {
      var n := logs.Size();
      for i := 0 to n
        invariant n == |logs.Contents()|
        invariant printed == old(printed) + logs.Contents()[..i]
      {
        var slot := logs.At(i);
        if slot.Some? {
          printed := printed + [slot.value];
        }
      }
      assert logs.Contents()[..n] == logs.Contents();
    }
  }

  /** StatefulObjectLogged: its subclass supplies the names of the states. */
  class StatefulObjectLogged<S(==)> {
    const id: string
    const stateAsString: S -> string
    var state: S

    constructor (id: string, initialState: S, stateAsString: S -> string)
      ensures this.id == id && state == initialState && this.stateAsString == stateAsString
    {
      this.id := id;
      this.stateAsString := stateAsString;
      state := initialState;
    }

    /**
     * A no-op on the current state; otherwise stores the state and logs the name of what is then stored.
     * This is a call that no other thread disturbs, and it does what the fleet's setState does.
     */
    method SetState(newState: S, logger: EventLogger)
      requires logger.Valid()
      modifies this`state, logger, logger.logs, logger.logs.buffer
      ensures logger.Valid() && state == newState
      ensures logger.history == old(logger.history) +
                if old(state) == newState then [] else [Record(id, stateAsString(newState))]
      ensures forall f: Fleet<S> | id in f.states && f.states[id] == old(state) ::
                && LoggedFleet.SetState(f, Call(id, newState)).states[id] == state
                && Records(LoggedFleet.SetState(f, Call(id, newState)).changes, stateAsString)
                   == Records(f.changes, stateAsString) + logger.history[|old(logger.history)|..]
    {
      if state != newState {
        state := newState;
        logger.LogStateChange(id, stateAsString(state));
      }
    }
  }
}
