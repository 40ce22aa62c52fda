/**
  The driver `my_grep` (main.py:73-135) once the file system has answered:
  it picks recursive mode, or checks the named file, reads the lines from
  the file or from standard input, runs the matcher, and then refuses an
  existing output file, writes the output file, prints the count, or prints
  the result in two blocks followed by a trailer line.

  The answers of `os.path.exists`, `os.access`, `readlines` and the walk
  are the fields of a `World` value. The failures `my_grep` reports are
  printed messages; the exceptions it does not catch are not modelled.
 */
module Grep {
  import opened Text
  import opened Matcher
  import opened Recursive

  datatype Option<T> = None | Some(value: T)

  /** Python's truth value of an optional string argument: present and not empty. */
  predicate Given(arg: Option<string>)
  {
    arg.Some? && arg.value != ""
  }

  /** What the file system and the standard input stream answer during one run. */
  datatype World = World(
    fileExists: bool,         // os.path.exists of the named file
    fileReadable: bool,       // os.access(..., os.R_OK) of the named file
    fileLines: seq<string>,   // readlines() of the named file
    stdinLines: seq<string>,  // readlines() of standard input
    outputExists: bool,       // os.path.exists of the output path
    walk: seq<SourceFile>)    // the regular files under the named directory, in walk order

  /** The failures `my_grep` reports. */
  datatype Error =
    | FileNotFound(filename: string)
    | NoReadPermission(filename: string)
    | OutputExists(path: string)

  /** The message printed for a failure. */
  function Message(e: Error): string
  {
    match e
    case FileNotFound(f) => "File '" + f + "' not found."
    case NoReadPermission(f) => "No read permission for file '" + f + "'."
    case OutputExists(o) => "Output file '" + o + "' already exists."
  }

  /** What one run does: report a failure, print lines, or create the output file. */
  datatype Outcome =
    | Failed(error: Error)
    | Printed(lines: seq<string>)
    | Wrote(path: string, content: string)

  /** The text a run leaves on standard output; each `print` call ends its argument with a newline. */
  function Stdout(o: Outcome): string
  {
    match o
    case Failed(e) => Message(e) + "\n"
    case Printed(ls) => Terminated(ls)
    case Wrote(_, _) => ""
  }

  /** The line printed after the result. */
  function Trailer(pattern: string): string
  {
    "I found '" + pattern + "' in the file."
  }

  /** The result blocks main.py:130-133 prints: `result[:before]` when `before > 0`, then `result[before:]`. */
  function Blocks(result: seq<string>, before: nat): seq<string>
  {
    if before > 0 then [Join("\n", Take(result, before)), Join("\n", Drop(result, before))]
    else [Join("\n", Drop(result, before))]
  }

  /** The print calls of main.py:130-134 for a non-empty result. */
  function Render(pattern: string, result: seq<string>, before: nat): seq<string>
  {
    Blocks(result, before) + [Trailer(pattern)]
  }

  /** The content main.py:119-123 writes to the output file. */
  function FileContent(result: seq<string>, countOnly: bool): string
  {
    if countOnly then NatToString(|result|) + "\n" else Terminated(result)
  }

  /** What main.py:114-135 does with the matcher's result. */
  function Deliver(pattern: string, result: seq<string>, outputPath: Option<string>, countOnly: bool,
                   before: nat, outputExists: bool): Outcome
  {
    if Given(outputPath) && result != [] then
      if outputExists then Failed(OutputExists(outputPath.value))
      else Wrote(outputPath.value, FileContent(result, countOnly))
    else if result == [] then Printed([])
    else if countOnly then Printed([NatToString(|result|)])
    else Printed(Render(pattern, result, before))
  }

  /** The lines the single-source search reads: the named file's, or standard input's. */
  function SourceLines(filename: Option<string>, w: World): seq<string>
  {
    if Given(filename) then w.fileLines else w.stdinLines
  }

  /** `my_grep(pattern, filename, output_file_path, case_insensitive, count_only, lines_before, lines_after, recursive)` */
  function MyGrep(engine: Engine, pattern: string, filename: Option<string>, outputPath: Option<string>,
                  ignoreCase: bool, countOnly: bool, before: nat, after: nat, recursive: bool, w: World): Outcome
  {
    var p := Pattern(pattern, ignoreCase);
    if recursive && Given(filename) then
      Printed(Walk(engine, p, w.walk, countOnly, before, after))
    else if Given(filename) && !w.fileExists then
      Failed(FileNotFound(filename.value))
    else if Given(filename) && !w.fileReadable then
      Failed(NoReadPermission(filename.value))
    else
      var result := Search(engine, p, SourceLines(filename, w), before, after);
      Deliver(pattern, result, outputPath, countOnly, before, w.outputExists)
  }

  /** The single-source path is taken and its lines can be read. */
  predicate SourceOk(filename: Option<string>, recursive: bool, w: World)
  {
    !(recursive && Given(filename)) && (Given(filename) ==> w.fileExists && w.fileReadable)
  }

  // ---------------------------------------------------------------------
  // Properties

  /** With `-r` and a path, the run prints exactly what the recursive search prints, whatever else is set. */
  lemma RecursiveDelegates(engine: Engine, pattern: string, filename: Option<string>, outputPath: Option<string>,
                           ignoreCase: bool, countOnly: bool, before: nat, after: nat, w: World)
    requires Given(filename)
    ensures MyGrep(engine, pattern, filename, outputPath, ignoreCase, countOnly, before, after, true, w)
         == Printed(Walk(engine, Pattern(pattern, ignoreCase), w.walk, countOnly, before, after))
  {
  }

  /**
    A missing file, then an unreadable one, is reported by its message alone:
    nothing is searched, printed or written, whatever the lines, the output
    path and the other flags are.
   */
  lemma FileErrors(engine: Engine, pattern: string, filename: Option<string>, outputPath: Option<string>,
                   ignoreCase: bool, countOnly: bool, before: nat, after: nat, recursive: bool, w: World)
    requires Given(filename) && !recursive
    ensures !w.fileExists ==>
      Stdout(MyGrep(engine, pattern, filename, outputPath, ignoreCase, countOnly, before, after, recursive, w))
        == "File '" + filename.value + "' not found.\n"
    ensures w.fileExists && !w.fileReadable ==>
      Stdout(MyGrep(engine, pattern, filename, outputPath, ignoreCase, countOnly, before, after, recursive, w))
        == "No read permission for file '" + filename.value + "'.\n"
    ensures !(w.fileExists && w.fileReadable) ==>
      MyGrep(engine, pattern, filename, outputPath, ignoreCase, countOnly, before, after, recursive, w).Failed?
  {
  }

  /**
    When no line of the source matches (an empty source included), the run
    prints nothing at all, not even the trailer, and writes no file; and this
    happens only then.
   */
  lemma SilentIffNoMatch(engine: Engine, pattern: string, filename: Option<string>, outputPath: Option<string>,
                         ignoreCase: bool, countOnly: bool, before: nat, after: nat, recursive: bool, w: World)
    requires SourceOk(filename, recursive, w)
    ensures var lines := SourceLines(filename, w);
      (MyGrep(engine, pattern, filename, outputPath, ignoreCase, countOnly, before, after, recursive, w) == Printed([]))
        <==> forall i :: 0 <= i < |lines| ==> !engine(Pattern(pattern, ignoreCase), lines[i])
  {
    var p := Pattern(pattern, ignoreCase);
    var lines := SourceLines(filename, w);
    EmptyIffNoMatch(engine, p, lines, before, after);
    var result := Search(engine, p, lines, before, after);
    if result != [] && !Given(outputPath) && !countOnly {
      assert |Render(pattern, result, before)| >= 2;
    }
  }

  /** With an output path that already exists and a non-empty result, only the refusal message is produced and nothing is written. */
  lemma OutputRefused(engine: Engine, pattern: string, filename: Option<string>, outputPath: Option<string>,
                      ignoreCase: bool, countOnly: bool, before: nat, after: nat, recursive: bool, w: World)
    requires SourceOk(filename, recursive, w) && Given(outputPath) && w.outputExists
    requires HasMatch(engine, Pattern(pattern, ignoreCase), SourceLines(filename, w))
    ensures MyGrep(engine, pattern, filename, outputPath, ignoreCase, countOnly, before, after, recursive, w)
         == Failed(OutputExists(outputPath.value))
    ensures Stdout(MyGrep(engine, pattern, filename, outputPath, ignoreCase, countOnly, before, after, recursive, w))
         == "Output file '" + outputPath.value + "' already exists.\n"
  {
    EmptyIffNoMatch(engine, Pattern(pattern, ignoreCase), SourceLines(filename, w), before, after);
  }

  /**
    A new output file holds every result line followed by a newline, in
    order, so reading it back gives the result; in count mode it holds the
    count, which reads back as the result's length. Nothing is printed.
   */
  lemma OutputFileReadsBack(engine: Engine, pattern: string, filename: Option<string>, outputPath: Option<string>,
                            ignoreCase: bool, countOnly: bool, before: nat, after: nat, recursive: bool, w: World)
    requires SourceOk(filename, recursive, w) && Given(outputPath) && !w.outputExists
    requires forall j :: 0 <= j < |SourceLines(filename, w)| ==> IsLine(SourceLines(filename, w)[j])
    requires HasMatch(engine, Pattern(pattern, ignoreCase), SourceLines(filename, w))
    ensures var o := MyGrep(engine, pattern, filename, outputPath, ignoreCase, countOnly, before, after, recursive, w);
      var result := Search(engine, Pattern(pattern, ignoreCase), SourceLines(filename, w), before, after);
      && o.Wrote? && o.path == outputPath.value && Stdout(o) == ""
      && (!countOnly ==> Lines(o.content) == result)
      && (countOnly ==> |Lines(o.content)| == 1 && ParseNat(Lines(o.content)[0]) == |result|)
  {
    var p := Pattern(pattern, ignoreCase);
    var lines := SourceLines(filename, w);
    var result := Search(engine, p, lines, before, after);
    EmptyIffNoMatch(engine, p, lines, before, after);
    if countOnly {
      CountReadsBack(|result|);
    } else {
      NoNewlineInResult(engine, p, lines, before, after);
      LinesOfTerminated(result);
    }
  }

  /** A count written with its newline reads back as one line holding the count. */
  lemma CountReadsBack(n: nat)
    ensures |Lines(NatToString(n) + "\n")| == 1 && ParseNat(Lines(NatToString(n) + "\n")[0]) == n
  {
    NatToStringNoNewline(n);
    LinesOfTerminated([NatToString(n)]);
    assert Terminated([NatToString(n)]) == NatToString(n) + "\n";
    ParseNatToString(n);
  }

  /** Without an output path, count mode prints one line, which reads back as the result's length. */
  lemma CountPrinted(engine: Engine, pattern: string, filename: Option<string>, outputPath: Option<string>,
                     ignoreCase: bool, before: nat, after: nat, recursive: bool, w: World)
    requires SourceOk(filename, recursive, w) && !Given(outputPath)
    requires HasMatch(engine, Pattern(pattern, ignoreCase), SourceLines(filename, w))
    ensures var o := MyGrep(engine, pattern, filename, outputPath, ignoreCase, true, before, after, recursive, w);
      o.Printed? && |o.lines| == 1
      && ParseNat(o.lines[0]) == |Search(engine, Pattern(pattern, ignoreCase), SourceLines(filename, w), before, after)|
  {
    var p := Pattern(pattern, ignoreCase);
    var result := Search(engine, p, SourceLines(filename, w), before, after);
    EmptyIffNoMatch(engine, p, SourceLines(filename, w), before, after);
    ParseNatToString(|result|);
  }

  /** Without context, count mode prints the number of matching lines. */
  lemma CountIsMatchingLines(engine: Engine, pattern: string, filename: Option<string>, outputPath: Option<string>,
                             ignoreCase: bool, recursive: bool, w: World)
    requires SourceOk(filename, recursive, w) && !Given(outputPath)
    requires HasMatch(engine, Pattern(pattern, ignoreCase), SourceLines(filename, w))
    ensures var o := MyGrep(engine, pattern, filename, outputPath, ignoreCase, true, 0, 0, recursive, w);
      o.Printed? && |o.lines| == 1
      && ParseNat(o.lines[0]) == |MatchedLines(engine, Pattern(pattern, ignoreCase), SourceLines(filename, w))|
  {
    CountPrinted(engine, pattern, filename, outputPath, ignoreCase, 0, 0, recursive, w);
    NoContextIsMatchedLines(engine, Pattern(pattern, ignoreCase), SourceLines(filename, w));
  }

  /**
    The interactive rendering prints `result[:before]` (when `before > 0`)
    and `result[before:]`, which together are the result, then exactly one
    trailer. Its text is the output file's text followed by the trailer line
    exactly when `before == 0` or the result is longer than `before`;
    otherwise the empty second block adds one blank line.
   */
  lemma RenderText(pattern: string, result: seq<string>, before: nat)
    requires result != []
    ensures var ls := Render(pattern, result, before);
      && |ls| == (if before > 0 then 3 else 2)
      && (before > 0 ==> ls[0] == Join("\n", Take(result, before)))
      && ls[|ls| - 2] == Join("\n", Drop(result, before))
      && ls[|ls| - 1] == Trailer(pattern)
      && Take(result, before) + Drop(result, before) == result
    ensures Terminated(Render(pattern, result, before)) == Terminated(result) + Trailer(pattern) + "\n"
        <==> before == 0 || |result| > before
    ensures before > 0 && |result| <= before ==>
      Terminated(Render(pattern, result, before)) == Terminated(result) + "\n" + Trailer(pattern) + "\n"
  {
    TakeDrop(result, before);
    if before == 0 || |result| > before {
      RenderTextFull(pattern, result, before);
    } else {
      RenderTextShort(pattern, result, before);
      var t := Trailer(pattern);
      assert |Terminated(result) + "\n" + t + "\n"| == |Terminated(result) + t + "\n"| + 1;
    }
  }

  /** Printing one line. */
  lemma TerminatedOne(a: string)
    ensures Terminated([a]) == a + "\n"
  {
    assert [a][1..] == [];
  }

  /** Printing two lines. */
  lemma TerminatedTwo(a: string, b: string)
    ensures Terminated([a, b]) == (a + "\n") + (b + "\n")
  {
    assert [a, b][1..] == [b];
    TerminatedOne(b);
  }

  /** When the second block is not empty, the blocks write the file's text. */
  lemma BlocksTextFull(result: seq<string>, before: nat)
    requires result != [] && (before == 0 || |result| > before)
    ensures Terminated(Blocks(result, before)) == Terminated(result)
  {
    var tail := Join("\n", Drop(result, before));
    JoinThenNewline(Drop(result, before));
    if before == 0 {
      TerminatedOne(tail);
    } else {
      var head := Join("\n", Take(result, before));
      TerminatedTwo(head, tail);
      JoinThenNewline(Take(result, before));
      TerminatedAppend(Take(result, before), Drop(result, before));
      TakeDrop(result, before);
    }
  }

  /** When `result` has at most `before` lines, the second block is empty. */
  lemma BlocksWhenShort(result: seq<string>, before: nat)
    requires before > 0 && |result| <= before
    ensures Blocks(result, before) == [Join("\n", result), ""]
  {
    TakeAll(result, before);
    assert Join("\n", []) == "";
  }

  /** When the second block is empty, the blocks write the file's text and an empty line. */
  lemma BlocksTextShort(result: seq<string>, before: nat)
    requires result != [] && before > 0 && |result| <= before
    ensures Terminated(Blocks(result, before)) == Terminated(result) + "\n"
  {
    var head := Join("\n", result);
    BlocksWhenShort(result, before);
    calc {
      Terminated([head, ""]);
    == { TerminatedTwo(head, ""); }
      (head + "\n") + ("" + "\n");
    == { JoinThenNewline(result); }
      Terminated(result) + ("" + "\n");
    == { assert "" + "\n" == "\n"; }
      Terminated(result) + "\n";
    }
  }

  /** The blocks, then a last line `t`. */
  lemma BlocksThen(result: seq<string>, before: nat, t: string)
    ensures Terminated(Blocks(result, before) + [t]) == Terminated(Blocks(result, before)) + t + "\n"
  {
    var b := Blocks(result, before);
    TerminatedAppend(b, [t]);
    TerminatedOne(t);
    assert Terminated(b) + (t + "\n") == Terminated(b) + t + "\n";
  }

  /** When the second block is not empty, the rendering writes the file's text, then the trailer line. */
  lemma RenderTextFull(pattern: string, result: seq<string>, before: nat)
    requires result != [] && (before == 0 || |result| > before)
    ensures Terminated(Render(pattern, result, before)) == Terminated(result) + Trailer(pattern) + "\n"
  {
    var t := Trailer(pattern);
    BlocksThen(result, before, t);
    BlocksTextFull(result, before);
  }

  /** When the second block is empty, the rendering writes the file's text, an empty line, then the trailer line. */
  lemma RenderTextShort(pattern: string, result: seq<string>, before: nat)
    requires result != [] && before > 0 && |result| <= before
    ensures Terminated(Render(pattern, result, before)) == Terminated(result) + "\n" + Trailer(pattern) + "\n"
  {
    var t := Trailer(pattern);
    BlocksThen(result, before, t);
    BlocksTextShort(result, before);
  }

  /**
    When `before == 0` or the result is longer than `before`, the printed
    text of a newline-free result reads back as the result's lines followed
    by the trailer line.
   */
  lemma RenderReadsBack(pattern: string, result: seq<string>, before: nat)
    requires result != [] && (before == 0 || |result| > before)
    requires forall i :: 0 <= i < |result| ==> NoNewline(result[i])
    requires NoNewline(pattern)
    ensures Lines(Terminated(Render(pattern, result, before))) == result + [Trailer(pattern)]
  {
    var t := Trailer(pattern);
    RenderTextFull(pattern, result, before);
    TrailerNoNewline(pattern);
    TerminatedAppend(result, [t]);
    assert Terminated([t]) == t + "\n";
    assert Terminated(Render(pattern, result, before)) == Terminated(result + [t]);
    LinesOfTerminated(result + [t]);
  }

  /** The trailer is a single line when the pattern is. */
  lemma TrailerNoNewline(pattern: string)
    requires NoNewline(pattern)
    ensures NoNewline(Trailer(pattern))
  {
    var pre, post := "I found '", "' in the file.";
    assert Trailer(pattern) == pre + pattern + post;
    assert NoNewline(pre) && NoNewline(post);
  }

  /**
    Without an output path and outside count mode, a run with a match prints
    the rendering of its result and writes nothing.
   */
  lemma InteractiveOutcome(engine: Engine, pattern: string, filename: Option<string>, outputPath: Option<string>,
                           ignoreCase: bool, before: nat, after: nat, recursive: bool, w: World)
    requires SourceOk(filename, recursive, w) && !Given(outputPath)
    requires HasMatch(engine, Pattern(pattern, ignoreCase), SourceLines(filename, w))
    ensures MyGrep(engine, pattern, filename, outputPath, ignoreCase, false, before, after, recursive, w)
         == Printed(Render(pattern, Search(engine, Pattern(pattern, ignoreCase), SourceLines(filename, w), before, after), before))
  {
    EmptyIffNoMatch(engine, Pattern(pattern, ignoreCase), SourceLines(filename, w), before, after);
  }

  /**
    When the source lines are read lines and the pattern has no newline, the
    standard output of such a run reads back as the result followed by the
    trailer whenever `before == 0` or the result is longer than `before`.
   */
  lemma InteractiveReadsBack(engine: Engine, pattern: string, filename: Option<string>, outputPath: Option<string>,
                             ignoreCase: bool, before: nat, after: nat, recursive: bool, w: World)
    requires SourceOk(filename, recursive, w) && !Given(outputPath)
    requires forall j :: 0 <= j < |SourceLines(filename, w)| ==> IsLine(SourceLines(filename, w)[j])
    requires NoNewline(pattern)
    requires HasMatch(engine, Pattern(pattern, ignoreCase), SourceLines(filename, w))
    requires before == 0 || |Search(engine, Pattern(pattern, ignoreCase), SourceLines(filename, w), before, after)| > before
    ensures Lines(Stdout(MyGrep(engine, pattern, filename, outputPath, ignoreCase, false, before, after, recursive, w)))
         == Search(engine, Pattern(pattern, ignoreCase), SourceLines(filename, w), before, after) + [Trailer(pattern)]
  {
    var p := Pattern(pattern, ignoreCase);
    var lines := SourceLines(filename, w);
    var result := Search(engine, p, lines, before, after);
    InteractiveOutcome(engine, pattern, filename, outputPath, ignoreCase, before, after, recursive, w);
    EmptyIffNoMatch(engine, p, lines, before, after);
    NoNewlineInResult(engine, p, lines, before, after);
    RenderReadsBack(pattern, result, before);
  }
}
