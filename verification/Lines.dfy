/** Text as lines: what std::getline reads back, what << line << "\n" writes, and how the two fit together. */
module Lines {
  import opened Prelude

  const NEWLINE := '\n'

  predicate NewlineFree(s: string) {
    NEWLINE !in s
  }

  predicate AllNewlineFree(ls: seq<string>) {
    forall i | 0 <= i < |ls| :: NewlineFree(ls[i])
  }

  /** Empty, or ending in a newline. */
  predicate Terminated(text: string) {
    text == [] || text[|text| - 1] == NEWLINE
  }

  /** The lines of a text; characters after the last newline, if any, are a line too. */
  function GetLines(text: string): seq<string>
    decreases |text|
  {
    if text == [] then []
    else
      var (line, rest) := SplitFirst(text);
      [line] + GetLines(rest)
  }

  /** Everything before the first newline, and everything after it. */
  function SplitFirst(text: string): (r: (string, string))
    ensures text != [] ==> |r.1| < |text|
  {
    if text == [] then ([], [])
    else if text[0] == NEWLINE then ([], text[1..])
    else
      var (line, rest) := SplitFirst(text[1..]);
      ([text[0]] + line, rest)
  }

  lemma {:induction false} SplitParts(text: string)
    ensures NewlineFree(SplitFirst(text).0)
    ensures NEWLINE in text ==> text == SplitFirst(text).0 + [NEWLINE] + SplitFirst(text).1
    ensures NEWLINE !in text ==> SplitFirst(text) == (text, [])
  {
    if text != [] && text[0] != NEWLINE {
      var tail := text[1..];
      SplitParts(tail);
      assert text == [text[0]] + tail;
    }
  }

  function Render(ls: seq<string>): string {
    if ls == [] then [] else ls[0] + [NEWLINE] + Render(ls[1..])
  }

  lemma {:induction false} SplitAtNewline(line: string, rest: string)
    requires NewlineFree(line)
    ensures SplitFirst(line + [NEWLINE] + rest) == (line, rest)
  {
    var text := line + [NEWLINE] + rest;
    if line == [] {
      assert text[1..] == rest;
    } else {
      assert line[0] in line;
      SplitAtNewline(line[1..], rest);
      assert text[1..] == line[1..] + [NEWLINE] + rest;
      assert [line[0]] + line[1..] == line;
    }
  }

  lemma {:induction false} RenderAppend(a: seq<string>, b: seq<string>)
    ensures Render(a + b) == Render(a) + Render(b)
  {
    if a == [] {
      assert a + b == b;
    } else {
      RenderAppend(a[1..], b);
      assert (a + b)[0] == a[0] && (a + b)[1..] == a[1..] + b;
      Associative(a[0] + [NEWLINE], Render(a[1..]), Render(b));
    }
  }

  lemma {:induction false} LinesAreNewlineFree(text: string)
    ensures AllNewlineFree(GetLines(text))
    decreases |text|
  {
    if text == [] {
    } else {
      SplitParts(text);
      LinesAreNewlineFree(SplitFirst(text).1);
    }
  }

  /** What was printed is read back. */
  lemma {:induction false} ReadBack(ls: seq<string>)
    requires AllNewlineFree(ls)
    ensures GetLines(Render(ls)) == ls
  {
    if ls == [] {
    } else {
      SplitAtNewline(ls[0], Render(ls[1..]));
      ReadBack(ls[1..]);
    }
  }

  /** What was read is printed back, with the final newline supplied if it was missing. */
  lemma {:induction false} PrintBack(text: string)
    ensures Render(GetLines(text)) == if Terminated(text) then text else text + [NEWLINE]
    decreases |text|
  {
    if text == [] {
    } else {
      var (line, rest) := SplitFirst(text);
      SplitParts(text);
      PrintBack(rest);
      assert GetLines(text)[1..] == GetLines(rest);
      if NEWLINE in text {
        assert text == line + [NEWLINE] + rest;
      } else {
        assert rest == [] && line == text;
      }
    }
  }

  // ----- Appending text -----

  lemma {:induction false} SplitExtended(a: string, b: string)
    requires NEWLINE in a
    ensures SplitFirst(a + b) == (SplitFirst(a).0, SplitFirst(a).1 + b)
  {
    assert (a + b)[0] == a[0] && (a + b)[1..] == a[1..] + b;
    if a[0] != NEWLINE {
      SplitExtended(a[1..], b);
    }
  }

  lemma {:induction false} SplitUnterminated(a: string, b: string)
    requires NEWLINE !in a
    ensures SplitFirst(a + b) == (a + SplitFirst(b).0, SplitFirst(b).1)
  {
    var r := SplitFirst(b);
    if a == [] {
      assert a + b == b && a + r.0 == r.0;
    } else {
      var tail := a[1..];
      assert a[0] in a;
      SplitUnterminated(tail, b);
      assert (a + b)[0] == a[0] && (a + b)[1..] == tail + b;
      assert [a[0]] + (tail + r.0) == a + r.0;
    }
  }

  /** Text with a newline in it ends the way its part after the first newline does. */
  lemma TailTerminated(a: string)
    requires NEWLINE in a
    ensures Terminated(a) <==> Terminated(SplitFirst(a).1)
  {
    SplitParts(a);
  }

  lemma {:induction false} LinesOfTerminated(a: string, b: string)
    requires Terminated(a)
    ensures GetLines(a + b) == GetLines(a) + GetLines(b)
    decreases |a|
  {
    if a == [] {
      assert a + b == b;
    } else {
      assert a[|a| - 1] in a;
      SplitExtended(a, b);
      TailTerminated(a);
      LinesOfTerminated(SplitFirst(a).1, b);
    }
  }

  lemma {:induction false} LineCount(text: string)
    ensures |GetLines(text)| <= |text|
    ensures text != [] ==> GetLines(text) != []
    decreases |text|
  {
    if text == [] {
    } else {
      LineCount(SplitFirst(text).1);
    }
  }

  /** The lines when the last one of the first batch and the first one of the second are one line. */
  function Glue(a: seq<string>, b: seq<string>): seq<string>
    requires a != [] && b != []
  {
    a[..|a| - 1] + [a[|a| - 1] + b[0]] + b[1..]
  }

  lemma GlueStep(line: string, a: seq<string>, b: seq<string>)
    requires a != [] && b != []
    ensures [line] + Glue(a, b) == Glue([line] + a, b)
  {
    assert ([line] + a)[..|a|] == [line] + a[..|a| - 1];
  }

  lemma LinesOfFragment(a: string, b: string)
    requires a != [] && NEWLINE !in a && b != []
    ensures GetLines(a) == [a] && GetLines(b) != []
    ensures GetLines(a + b) == Glue([a], GetLines(b))
  {
    SplitParts(a);
    assert GetLines(a) == [a] + GetLines([]) == [a];
    SplitUnterminated(a, b);
    var (line, rest) := SplitFirst(b);
    assert GetLines(b) == [line] + GetLines(rest);
    assert GetLines(a + b) == [a + line] + GetLines(rest);
    GlueSingle(a, line, GetLines(rest));
  }

  lemma GlueSingle(a: string, line: string, rest: seq<string>)
    ensures Glue([a], [line] + rest) == [a + line] + rest
  {
    assert ([line] + rest)[1..] == rest;
  }

  /** Text after an unterminated last line continues that line. */
  lemma {:induction false} LinesOfUnterminated(a: string, b: string)
    requires !Terminated(a) && b != []
    ensures GetLines(a) != [] && GetLines(b) != []
    ensures GetLines(a + b) == Glue(GetLines(a), GetLines(b))
    decreases |a|
  {
    LineCount(b);
    if NEWLINE in a {
      var (line, rest) := SplitFirst(a);
      SplitExtended(a, b);
      TailTerminated(a);
      LinesOfUnterminated(rest, b);
      GlueStep(line, GetLines(rest), GetLines(b));
    } else {
      LinesOfFragment(a, b);
    }
  }

  /** Lines of a concatenation are the concatenated lines exactly when no line is torn. */
  lemma LinesDistributeIff(a: string, b: string)
    ensures GetLines(a + b) == GetLines(a) + GetLines(b) <==> Terminated(a) || b == []
  {
    if Terminated(a) {
      LinesOfTerminated(a, b);
    } else if b == [] {
      assert a + b == a;
    } else {
      LinesOfUnterminated(a, b);
      assert |GetLines(a) + GetLines(b)| != |GetLines(a + b)|;
    }
  }

  lemma {:induction false} LinesOfPrintedLine(line: string)
    ensures NewlineFree(line) ==> GetLines(line + [NEWLINE]) == [line]
    ensures !NewlineFree(line) ==> |GetLines(line + [NEWLINE])| >= 2
  {
    if NewlineFree(line) {
      SplitAtNewline(line, []);
      assert line + [NEWLINE] + [] == line + [NEWLINE];
      assert GetLines(line + [NEWLINE]) == [line] + GetLines([]);
    } else {
      SplitExtended(line, [NEWLINE]);
      LineCount(SplitFirst(line).1 + [NEWLINE]);
    }
  }

  /** A line printed at the end becomes the last line exactly when the text is terminated and the line is one line. */
  lemma AppendIsEnqueueIff(text: string, line: string)
    ensures GetLines(text + line + [NEWLINE]) == GetLines(text) + [line] <==> Terminated(text) && NewlineFree(line)
  {
    var printed := line + [NEWLINE];
    assert text + line + [NEWLINE] == text + printed;
    LinesOfPrintedLine(line);
    if Terminated(text) {
      LinesOfTerminated(text, printed);
    } else {
      LinesOfUnterminated(text, printed);
      // the counts agree only if the line holds one newline, but then it cannot equal what follows it
      LinesAreNewlineFree(printed);
      var n := |GetLines(text)|;
      if |GetLines(printed)| == 2 {
        assert GetLines(text + printed)[n] == GetLines(printed)[1];
        assert NewlineFree(GetLines(printed)[1]);
      }
    }
  }
}
