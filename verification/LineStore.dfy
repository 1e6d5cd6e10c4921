/** The line queue of lib/FileSystem/SDCardFileSystem.hpp as a function on file contents. */
module LineQueue {
  import opened Lines

  /** What a successful appendLine leaves. */
  function Appended(text: string, line: string): string {
    text + line + [NEWLINE]
  }

  /** What a successful removeFirstLine leaves: the other lines, each terminated. */
  function WithoutFirst(text: string): string {
    if text == [] then [] else Render(GetLines(text)[1..])
  }

  /** Removing a line cuts the text after its first newline, and supplies the final newline. */
  lemma WithoutFirstIsCut(text: string)
    requires text != []
    ensures var rest := SplitFirst(text).1;
      WithoutFirst(text) == if Terminated(rest) then rest else rest + [NEWLINE]
    ensures Terminated(WithoutFirst(text))
  {
    var (line, rest) := SplitFirst(text);
    assert GetLines(text)[1..] == GetLines(rest);
    PrintBack(rest);
  }

  /** Appending and removing commute exactly on non-empty, terminated contents. */
  lemma AppendRemoveCommuteIff(text: string, line: string)
    ensures WithoutFirst(Appended(text, line)) == Appended(WithoutFirst(text), line) <==> text != [] && Terminated(text)
  {
    var printed := line + [NEWLINE];
    assert Appended(text, line) == text + printed;
    assert Appended(WithoutFirst(text), line) == WithoutFirst(text) + printed;
    WithoutFirstIsCut(text + printed);
    if text != [] {
      WithoutFirstIsCut(text);
    }
    if NEWLINE in text {
      // the first line is cut from both sides alike
      SplitExtended(text, printed);
      TailTerminated(text);
      var rest := SplitFirst(text).1;
      assert |rest + [NEWLINE] + printed| == |rest + printed| + 1;
    } else {
      // the cut falls inside the appended line
      SplitUnterminated(text, printed);
      CutShortens(printed);
      assert !(text != [] && Terminated(text));
    }
  }

  /** Cutting after the first newline of a terminated text shortens it. */
  lemma CutShortens(text: string)
    requires text != [] && Terminated(text)
    ensures Terminated(SplitFirst(text).1) && |SplitFirst(text).1| < |text|
  {
    assert text[|text| - 1] in text;
    TailTerminated(text);
  }

  // ----- Whole runs refine a queue of lines -----

  datatype Op = Append(line: string) | Remove

  function Step(text: string, op: Op): string {
    match op
    case Append(line) => Appended(text, line)
    case Remove => WithoutFirst(text)
  }

  function QueueStep(queue: seq<string>, op: Op): seq<string> {
    match op
    case Append(line) => queue + [line]
    case Remove => if queue == [] then [] else queue[1..]
  }

  function Run(text: string, ops: seq<Op>): string {
    if ops == [] then text else Step(Run(text, ops[..|ops| - 1]), ops[|ops| - 1])
  }

  function QueueRun(queue: seq<string>, ops: seq<Op>): seq<string> {
    if ops == [] then queue else QueueStep(QueueRun(queue, ops[..|ops| - 1]), ops[|ops| - 1])
  }

  predicate OneLineEach(ops: seq<Op>) {
    forall i | 0 <= i < |ops| :: ops[i].Append? ==> NewlineFree(ops[i].line)
  }

  lemma StepRefines(queue: seq<string>, op: Op)
    requires AllNewlineFree(queue) && (op.Append? ==> NewlineFree(op.line))
    ensures AllNewlineFree(QueueStep(queue, op))
    ensures Step(Render(queue), op) == Render(QueueStep(queue, op))
  {
    match op
    case Append(line) =>
      RenderAppend(queue, [line]);
      assert Render([line]) == line + [NEWLINE];
    case Remove =>
      ReadBack(queue);
  }

  /** From any rendered queue, every run keeps the file equal to the rendered queue of lines. */
  lemma {:induction false} FileIsQueue(queue: seq<string>, ops: seq<Op>)
    requires AllNewlineFree(queue) && OneLineEach(ops)
    ensures AllNewlineFree(QueueRun(queue, ops))
    ensures Run(Render(queue), ops) == Render(QueueRun(queue, ops))
    ensures GetLines(Run(Render(queue), ops)) == QueueRun(queue, ops)
  {
    if ops == [] {
      ReadBack(queue);
    } else {
      FileIsQueue(queue, ops[..|ops| - 1]);
      StepRefines(QueueRun(queue, ops[..|ops| - 1]), ops[|ops| - 1]);
      ReadBack(QueueRun(queue, ops));
    }
  }

  /** Whatever the contents were, the file is empty or newline-terminated after any successful operation. */
  lemma {:induction false} OperationsTerminate(text: string, ops: seq<Op>)
    requires Terminated(text) || ops != []
    ensures Terminated(Run(text, ops))
  {
    if ops == [] {
    } else {
      var before := Run(text, ops[..|ops| - 1]);
      if ops[|ops| - 1].Remove? && before != [] {
        WithoutFirstIsCut(before);
      }
    }
  }

  /** What readFirstLine answers. */
  function FirstLine(text: string): string {
    if text == [] then [] else GetLines(text)[0]
  }

  /** Reading and removing the first line n times: the lines obtained, and what is left. */
  function Drain(text: string, n: nat): (seq<string>, string)
    decreases n
  {
    if n == 0 then ([], text)
    else
      var (lines, rest) := Drain(WithoutFirst(text), n - 1);
      ([FirstLine(text)] + lines, rest)
  }

  /** Draining as many times as there are lines yields exactly the lines, in order, and an empty file. */
  lemma {:induction false} DrainYieldsLines(text: string)
    ensures Drain(text, |GetLines(text)|) == (GetLines(text), [])
    decreases |GetLines(text)|
  {
    if text == [] {
    } else {
      var lines := GetLines(text);
      LinesAreNewlineFree(text);
      ReadBack(lines[1..]);
      DrainYieldsLines(WithoutFirst(text));
      assert [lines[0]] + lines[1..] == lines;
    }
  }

  /** An empty answer is ambiguous: the file is empty, or its first line is. */
  lemma EmptyAnswerIff(text: string)
    ensures FirstLine(text) == [] <==> text == [] || text[0] == NEWLINE
  {
  }

  // ----- Interrupted rewrites -----

  /** The lines of an interrupted printout: a run of whole lines in order, and perhaps a piece of the next one. */
  lemma {:induction false} PrefixKeepsOrder(ls: seq<string>, text: string) returns (whole: nat)
    requires AllNewlineFree(ls) && text <= Render(ls)
    ensures whole <= |ls| && whole <= |GetLines(text)| <= whole + 1
    ensures GetLines(text)[..whole] == ls[..whole]
    ensures |GetLines(text)| == whole + 1 ==> whole < |ls| && GetLines(text)[whole] <= ls[whole]
  {
    whole := 0;
    if ls != [] && text != [] {
      var head := ls[0] + [NEWLINE];
      if |text| < |head| {
        assert text == head[..|text|] == ls[0][..|text|];
        SplitParts(text);
        assert GetLines(text) == [text] + GetLines([]);
      } else {
        var rest := text[|head|..];
        assert text == ls[0] + [NEWLINE] + rest;
        assert rest <= Render(ls[1..]);
        SplitAtNewline(ls[0], rest);
        var n := PrefixKeepsOrder(ls[1..], rest);
        whole := n + 1;
        assert GetLines(text) == [ls[0]] + GetLines(rest);
        assert GetLines(text)[..whole] == [ls[0]] + GetLines(rest)[..n];
      }
    }
  }
}

/** The file operations themselves, on devices whose opens, reads and writes may fail. */
module LineStores {
  import opened Prelude
  import opened Lines
  import opened LineQueue

  /**
   * What the device allows during one operation: whether the file opens for reading and for writing, how
   * many line reads it serves before a read error, and how many characters it takes before a write error.
   */
  datatype Device = Device(opensForReading: bool, opensForWriting: bool, served: nat, room: nat)

  /** An input stream: what is left to read, and its two state bits. */
  datatype InStream = InStream(rest: string, eof: bool, fail: bool, served: nat)

  /**
   * std::getline. At end of file the remaining characters are a line and set eofbit; if there are none,
   * failbit is set too. A stream that is not good only gets failbit and leaves the line alone.
   */
  function GetLine(s: InStream, line: string): (InStream, string) {
    if s.eof || s.fail then (s.(fail := true), line)
    else if s.served == 0 then (s.(fail := true), [])
    else if NEWLINE in s.rest then
      (InStream(SplitFirst(s.rest).1, false, false, s.served - 1), SplitFirst(s.rest).0)
    else
      (InStream([], true, s.rest == [], s.served - 1), s.rest)
  }

  /** How many line reads it takes to see the end of a text. */
  function ReadsNeeded(text: string): nat {
    |GetLines(text)| + if Terminated(text) then 1 else 0
  }

  lemma GetLineSplits(text: string, served: nat, line: string)
    requires served > 0
    ensures var (s, got) := GetLine(InStream(text, false, false, served), line);
      && (text == [] ==> s == InStream([], true, true, served - 1))
      && (text != [] ==>
            && !s.fail && s.rest == SplitFirst(text).1
            && got == GetLines(text)[0] && GetLines(text) == [got] + GetLines(s.rest)
            && s.eof == (NEWLINE !in text) && s.served == served - 1
            && ReadsNeeded(text) == if s.eof then 1 else 1 + ReadsNeeded(s.rest))
  {
    if text != [] {
      SplitParts(text);
      if NEWLINE in text {
        TailTerminated(text);
      } else {
        assert text[|text| - 1] in text;
      }
    }
  }

  class SDCardFilesystem {
    var files: map<string, string>

    constructor ()
      ensures files == map[]
    {
      files := map[];
    }

    ghost function Text(path: string): string
      reads this
    {
      if path in files then files[path] else []
    }

    /** Appends what the device takes of the line and its newline, creating the file if need be. */
    method AppendLine(path: string, line: string, d: Device) returns (ok: bool)
      modifies this
      ensures ok <==> d.opensForWriting && d.room > |line|
      ensures !d.opensForWriting ==> files == old(files)
      ensures d.opensForWriting ==>
                files == old(files)[path := old(Text(path)) + (line + [NEWLINE])[..Min(d.room, |line| + 1)]]
      ensures ok ==> Text(path) == Appended(old(Text(path)), line)
    {
      if !d.opensForWriting {
        return false;
      }
      var text := if path in files then files[path] else [];
      var room, good := d.room, true;
      text, room, good := Write(text, line, room, good);
      text, room, good := Write(text, [NEWLINE], room, good);
      files := files[path := text];
      ok := good;
      AppendPieces(line, d.room);
      assert text == old(Text(path)) + (line + [NEWLINE])[..Min(d.room, |line| + 1)];
    }

    /** Writing the line and then its newline stops where writing both at once would. */
    static lemma AppendPieces(line: string, room: nat)
      ensures (line + [NEWLINE])[..Min(room, |line| + 1)]
              == if room < |line| then line[..room] else line + [NEWLINE][..Min(room - |line|, 1)]
    {
    }

    /** operator<< on an output stream: a failed stream writes nothing more. */
    static method Write(text: string, data: string, room: nat, good: bool)
      returns (text': string, room': nat, good': bool)
      ensures good' <==> good && room >= |data|
      ensures text' == if good then text + data[..Min(room, |data|)] else text
      ensures good' ==> room' == room - |data|
    {
      if !good {
        return text, room, false;
      }
      if |data| <= room {
        return text + data, room - |data|, true;
      }
      return text + data[..room], 0, false;
    }

    /** The first line, or nothing when there is none or it cannot be read. */
    method ReadFirstLine(path: string, d: Device) returns (line: string)
      ensures line == if path in files && d.opensForReading && d.served > 0 then FirstLine(files[path]) else []
    {
      if path !in files || !d.opensForReading {
        return [];
      }
      var file := InStream(files[path], false, false, d.served);
      if d.served > 0 {
        GetLineSplits(files[path], d.served, []);
      }
      var r := GetLine(file, []);
      if r.0.fail && !r.0.eof {
        return [];
      }
      line := r.1;
    }

    /** The read loop has collected these lines of the file, and s is where the stream stands. */
    static ghost predicate Collected(file: InStream, s: InStream, lines: seq<string>) {
      && !s.fail && (s.eof ==> s.rest == [])
      && lines + GetLines(s.rest) == GetLines(file.rest)
      && ((s.eof || s.served >= ReadsNeeded(s.rest)) <==> (file.eof || file.served >= ReadsNeeded(file.rest)))
    }

    static lemma CollectNext(file: InStream, s: InStream, line: string, lines: seq<string>)
      requires Collected(file, s, lines) && !GetLine(s, line).0.fail
      ensures var (s', got) := GetLine(s, line); Collected(file, s', lines + [got]) && |s'.rest| < |s.rest|
    {
      GetLineSplits(s.rest, s.served, line);
      var (s', got) := GetLine(s, line);
      assert lines + ([got] + GetLines(s'.rest)) == lines + [got] + GetLines(s'.rest);
    }

    static lemma CollectedAll(file: InStream, s: InStream, line: string, lines: seq<string>)
      requires Collected(file, s, lines) && GetLine(s, line).0.fail
      ensures GetLine(s, line).0.eof <==> file.eof || file.served >= ReadsNeeded(file.rest)
      ensures GetLine(s, line).0.eof ==> lines == GetLines(file.rest)
    {
      if !s.eof && s.served > 0 {
        GetLineSplits(s.rest, s.served, line);
      }
    }

    /** The lines left in a stream, as the read loop collects them. */
    static method ReadLines(file: InStream) returns (after: InStream, lines: seq<string>)
      requires !file.fail && (file.eof ==> file.rest == [])
      ensures after.fail
      ensures after.eof <==> file.eof || file.served >= ReadsNeeded(file.rest)
      ensures after.eof ==> lines == GetLines(file.rest)
    {
      lines := [];
      var line := [];
      var s := file;
      var r := GetLine(s, line);
      while !r.0.fail
        invariant Collected(file, s, lines) && r == GetLine(s, line)
        decreases |s.rest|
      {
        CollectNext(file, s, line, lines);
        lines := lines + [r.1];
        s, line := r.0, r.1;
        r := GetLine(s, line);
      }
      CollectedAll(file, s, line, lines);
      after := r.0;
    }

    /** The write loop: each line and its newline, stopping at the first failure. */
    static method WriteLines(lines: seq<string>, room: nat) returns (text: string, ok: bool)
      ensures ok <==> room >= |Render(lines)|
      ensures text == Render(lines)[..Min(room, |Render(lines)|)]
    {
      text, ok := [], true;
      var left, i := room, 0;
      while i < |lines|
        invariant 0 <= i <= |lines| && ok
        invariant text + Render(lines[i..]) == Render(lines)
        invariant left == room - |text|
      {
        ghost var done := text;
        RenderNext(lines, i, done);
        text, left, ok := Write(text, lines[i], left, ok);
        text, left, ok := Write(text, [NEWLINE], left, ok);
        AppendPieces(lines[i], room - |done|);
        if !ok {
          TakeWithin(done, lines[i] + [NEWLINE], Render(lines[i + 1..]), room);
          return;
        }
        assert text == done + (lines[i] + [NEWLINE]);
        i := i + 1;
      }
    }

    static lemma RenderNext(lines: seq<string>, i: nat, done: string)
      requires i < |lines| && done + Render(lines[i..]) == Render(lines)
      ensures done + (lines[i] + [NEWLINE]) + Render(lines[i + 1..]) == Render(lines)
    {
      assert lines[i..][1..] == lines[i + 1..];
      Associative(done, lines[i] + [NEWLINE], Render(lines[i + 1..]));
    }

    static lemma TakeWithin(a: string, b: string, c: string, n: nat)
      requires |a| <= n <= |a| + |b|
      ensures (a + b + c)[..n] == a + b[..n - |a|]
    {
    }

    /**
     * Rewrites the file without its first line. A file that cannot be opened or read to its end is left alone;
     * once it has been opened for writing it holds what fitted of the other lines, and nothing else.
     */
    method RemoveFirstLine(path: string, d: Device) returns (ok: bool)
      modifies this
      ensures var text := old(Text(path));
        var truncated :=
          path in old(files) && d.opensForReading && d.served >= ReadsNeeded(text) && d.opensForWriting;
        var rest := WithoutFirst(text);
        && (ok <==> truncated && d.room >= |rest|)
        && files == if truncated then old(files)[path := rest[..Min(d.room, |rest|)]] else old(files)
      ensures ok ==> files == old(files)[path := WithoutFirst(old(Text(path)))]
    {
      if path !in files || !d.opensForReading {
        return false;
      }
      ghost var text := files[path];
      var file := InStream(files[path], false, false, d.served);
      if d.served > 0 {
        GetLineSplits(text, d.served, []);
      }
      var r := GetLine(file, []);
      var after, lines := r.0, [];
      if !r.0.fail {
        after, lines := ReadLines(r.0);
      }
      if after.fail && !after.eof {
        return false;
      }
      if !d.opensForWriting {
        return false;
      }
      var written;
      assert text != [] ==> GetLines(text)[1..] == lines;
      assert Render(lines) == WithoutFirst(text);
      written, ok := WriteLines(lines, d.room);
      assert Render(lines)[..|Render(lines)|] == Render(lines);
      files := files[path := written];
    }
  }
}
