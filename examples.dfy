/**
  Concrete runs. A case-sensitive pattern made of letters only is matched
  by `re.search` exactly where it occurs as a substring, so `Literal` below
  is a faithful engine for such patterns. Case-insensitive matching folds
  ASCII letters only, so it agrees with `re.IGNORECASE` only on ASCII
  patterns and lines.
 */
module Examples {
  import opened Text
  import opened Matcher
  import opened Recursive
  import opened Grep

  /** `p` occurs in `s` starting at some position. */
  predicate Occurs(p: string, s: string)
    decreases |s|
  {
    |p| <= |s| && (s[..|p|] == p || Occurs(p, s[1..]))
  }

  /** ASCII lower case. */
  function Lower(s: string): string
  {
    seq(|s|, k requires 0 <= k < |s| => if 'A' <= s[k] <= 'Z' then (s[k] - 'A' + 'a') as char else s[k])
  }

  /** `re.search` for a pattern of letters: a substring test, ASCII-folded when `ignoreCase`. */
  function Literal(p: Pattern, line: string): bool
  {
    if p.ignoreCase then Occurs(Lower(p.regex), Lower(line)) else Occurs(p.regex, line)
  }

  /** A substring that occurs at a given position occurs. */
  lemma {:induction false} OccursAt(p: string, s: string, k: nat)
    requires k + |p| <= |s| && s[k..k + |p|] == p
    ensures Occurs(p, s)
    decreases k
  {
    if k > 0 {
      assert s[1..][k - 1..k - 1 + |p|] == p;
      OccursAt(p, s[1..], k - 1);
    }
  }

  /** Every character of an occurring pattern is a character of the text. */
  lemma {:induction false} OccursChars(p: string, s: string, c: char)
    requires Occurs(p, s) && c in p
    ensures c in s
    decreases |s|
  {
    if s[..|p|] == p {
      var j :| 0 <= j < |p| && p[j] == c;
      assert s[j] == c;
    } else {
      OccursChars(p, s[1..], c);
      var j :| 0 <= j < |s[1..]| && s[1..][j] == c;
      assert s[j + 1] == c;
    }
  }

  const StdinText: seq<string> := ["bar\n", "barbazfoo\n", "Foobar\n", "food"]

  /** The standard input of test_main.py:138-168: only the second and fourth lines hold `foo` (the third has `Foo`). */
  lemma StdinMatches()
    ensures !Literal(Pattern("foo", false), StdinText[0])
    ensures Literal(Pattern("foo", false), StdinText[1])
    ensures !Literal(Pattern("foo", false), StdinText[2])
    ensures Literal(Pattern("foo", false), StdinText[3])
  {
    OccursAt("foo", StdinText[1], 6);
    OccursAt("foo", StdinText[3], 0);
    assert 'f' in "foo" && 'f' !in StdinText[0] && 'f' !in StdinText[2];
    if Occurs("foo", StdinText[0]) {
      OccursChars("foo", StdinText[0], 'f');
    }
    if Occurs("foo", StdinText[2]) {
      OccursChars("foo", StdinText[2], 'f');
    }
  }

  /** The two matched lines lose their surrounding whitespace. */
  lemma StdinStripped(lines: seq<string>)
    requires lines == StdinText
    ensures StripWhitespace(lines[1]) == "barbazfoo"
    ensures StripWhitespace(lines[3]) == "food"
    ensures StripNewlines("barbazfoo") == "barbazfoo" && StripNewlines("food") == "food"
  {
    StripReadLine(lines[1], "barbazfoo");
    StripReadLine(lines[3], "food");
    StripFixed("barbazfoo", Newline);
    StripFixed("food", Newline);
  }

  /** Without context, the loop over four lines of which the second and fourth match collects those two, stripped. */
  lemma SecondAndFourth(engine: Engine, p: Pattern, lines: seq<string>)
    requires |lines| == 4
    requires !engine(p, lines[0]) && engine(p, lines[1]) && !engine(p, lines[2]) && engine(p, lines[3])
    ensures Collected(engine, p, lines, 0, 0, 4) == [StripWhitespace(lines[1]), StripWhitespace(lines[3])]
  {
    assert Collected(engine, p, lines, 0, 0, 1) == [];
    assert RawBlock(lines, 1, 0, 0) == [StripWhitespace(lines[1])];
    assert Collected(engine, p, lines, 0, 0, 3) == [StripWhitespace(lines[1])];
    assert RawBlock(lines, 3, 0, 0) == [StripWhitespace(lines[3])];
  }

  /** The matcher's loop over that input collects the two stripped matches. */
  lemma StdinCollected(p: Pattern, lines: seq<string>)
    requires p == Pattern("foo", false) && lines == StdinText
    ensures Collected(Literal, p, lines, 0, 0, 4) == ["barbazfoo", "food"]
  {
    StdinMatches();
    SecondAndFourth(Literal, p, lines);
    StdinStripped(lines);
  }

  /** Searching that input keeps the two matched lines, without their newlines. */
  lemma StdinResult(p: Pattern, lines: seq<string>)
    requires p == Pattern("foo", false) && lines == StdinText
    ensures Search(Literal, p, lines, 0, 0) == ["barbazfoo", "food"]
  {
    StdinCollected(p, lines);
    StdinStripped(lines);
    StripAllPair("barbazfoo", "food");
  }

  /** Two lines with nothing to strip are kept as they are. */
  lemma StripAllPair(a: string, b: string)
    requires StripNewlines(a) == a && StripNewlines(b) == b
    ensures StripAll([a, b]) == [a, b]
  {
  }

  /** Without `-o` or `-C`, the stdin run prints the rendering of the two matched lines. */
  lemma StdinOutcome(pattern: string, w: World)
    requires pattern == "foo" && w.stdinLines == StdinText
    ensures MyGrep(Literal, pattern, None, None, false, false, 0, 0, false, w)
         == Printed(Render(pattern, ["barbazfoo", "food"], 0))
  {
    StdinResult(Pattern(pattern, false), w.stdinLines);
  }

  /** The text of that rendering. */
  lemma StdinRendered(pattern: string, r: seq<string>)
    requires pattern == "foo" && r == ["barbazfoo", "food"]
    ensures Terminated(Render(pattern, r, 0)) == "barbazfoo\nfood\nI found 'foo' in the file.\n"
  {
    RenderTextFull(pattern, r, 0);
    TerminatedTwo(r[0], r[1]);
    TrailerOfFoo(pattern);
    StdinTextJoined(Terminated(r), Trailer(pattern));
  }

  /** The printed lines of the stdin run, put together. */
  lemma StdinTextJoined(lines: string, trailer: string)
    requires lines == ("barbazfoo" + "\n") + ("food" + "\n") && trailer == "I found 'foo' in the file."
    ensures lines + trailer + "\n" == "barbazfoo\nfood\nI found 'foo' in the file.\n"
  {
  }

  /** The trailer of the stdin runs. */
  lemma TrailerOfFoo(pattern: string)
    requires pattern == "foo"
    ensures Trailer(pattern) == "I found 'foo' in the file."
  {
  }

  /** test_main.py:138-143: the interactive run prints the two lines and the trailer. */
  lemma StdinPrinted(pattern: string, w: World)
    requires pattern == "foo" && w.stdinLines == StdinText
    ensures Stdout(MyGrep(Literal, pattern, None, None, false, false, 0, 0, false, w))
         == "barbazfoo\nfood\nI found 'foo' in the file.\n"
  {
    StdinOutcome(pattern, w);
    StdinRendered(pattern, ["barbazfoo", "food"]);
  }

  /** test_main.py:145-161: with `-o` and no such file yet, the two lines are written to it. */
  lemma StdinWritten(pattern: string, w: World)
    requires pattern == "foo" && w.stdinLines == StdinText && !w.outputExists
    ensures MyGrep(Literal, pattern, None, Some("param_test.txt"), false, false, 0, 0, false, w)
         == Wrote("param_test.txt", "barbazfoo\nfood\n")
  {
    var r := Search(Literal, Pattern(pattern, false), w.stdinLines, 0, 0);
    StdinResult(Pattern(pattern, false), w.stdinLines);
    assert r == ["barbazfoo", "food"];
    TerminatedTwo(r[0], r[1]);
  }

  /** test_main.py:163-168: `-C` prints the count 2. */
  lemma StdinCounted(pattern: string, w: World)
    requires pattern == "foo" && w.stdinLines == StdinText
    ensures Stdout(MyGrep(Literal, pattern, None, None, false, true, 0, 0, false, w)) == "2\n"
  {
    var r := Search(Literal, Pattern(pattern, false), w.stdinLines, 0, 0);
    StdinResult(Pattern(pattern, false), w.stdinLines);
    assert r == ["barbazfoo", "food"];
    assert NatToString(|r|) == [Digit(2)] == "2";
    assert Terminated(["2"]) == "2\n";
  }

  /** The one-line file of test_main.py:15-16 that the recursive tests search. */
  const File1: SourceFile := SourceFile("test_recursive_search/file1.txt", ["This is a test file.\n"])

  /** A read line whose text has no whitespace at either end strips to that text. */
  lemma StripReadLine(line: string, text: string)
    requires text != "" && text[0] !in Whitespace && text[|text| - 1] !in Whitespace
    requires line == text + "\n" || line == text
    ensures StripWhitespace(line) == text
  {
    assert TrimLeft(line, Whitespace) == line;
    if line == text + "\n" {
      assert line[..|line| - 1] == text;
      assert TrimRight(line, Whitespace) == TrimRight(text, Whitespace);
    }
    assert TrimRight(text, Whitespace) == text;
  }

  /**
    A file of one matching line, searched with one line of context on each
    side, prints its stripped line and then an empty label: the second
    block, `result[1:]`, is empty.
   */
  lemma OneLineFileWithContext(engine: Engine, p: Pattern, file: SourceFile)
    requires |file.lines| == 1 && engine(p, file.lines[0])
    ensures FileOutput(engine, p, file, false, 1, 1)
         == [Labelled(file.path, StripWhitespace(file.lines[0])), Labelled(file.path, "")]
  {
    var text := StripWhitespace(file.lines[0]);
    assert RawBlock(file.lines, 0, 1, 1) == [text];
    assert Collected(engine, p, file.lines, 1, 1, 1) == [text];
    StripNewlinesOfStripped(file.lines[0]);
    var r := Search(engine, p, file.lines, 1, 1);
    assert r == [text];
    assert Take(r, 1) == r && Drop(r, 1) == [];
    assert Join("", r) == text && Join("", []) == "";
  }

  /** The line of `File1` holds `test` and strips to its text. */
  lemma File1Line(file: SourceFile)
    requires file == File1
    ensures Literal(Pattern("test", false), file.lines[0])
    ensures StripWhitespace(file.lines[0]) == "This is a test file."
  {
    OccursAt("test", file.lines[0], 10);
    StripReadLine(file.lines[0], "This is a test file.");
  }

  /** test_main.py:207-218 for the first file of the recursive test directory. */
  lemma RecursiveContextFile1(file: SourceFile)
    requires file == File1
    ensures FileOutput(Literal, Pattern("test", false), file, false, 1, 1)
         == ["test_recursive_search/file1.txt: This is a test file.", "test_recursive_search/file1.txt: "]
  {
    File1Line(file);
    OneLineFileWithContext(Literal, Pattern("test", false), file);
    File1Labels(file);
  }

  /** The two labels printed for `File1`. */
  lemma File1Labels(file: SourceFile)
    requires file == File1
    ensures Labelled(file.path, "This is a test file.") == "test_recursive_search/file1.txt: This is a test file."
    ensures Labelled(file.path, "") == "test_recursive_search/file1.txt: "
  {
  }

  /** `alpha` is absent from `beta\n`: the text has no `l`. */
  lemma BetaLacksAlpha(line: string)
    requires line == "beta\n"
    ensures !Literal(Pattern("alpha", false), line)
  {
    assert 'l' in "alpha" && 'l' !in line;
    if Occurs("alpha", line) {
      OccursChars("alpha", line, 'l');
    }
  }

  /**
    With no lines before and one line after, the second block `result[after:]`
    starts past the match: a file whose first line matches and whose second
    does not prints only the second line, and the matched line is lost.
   */
  lemma AfterSliceLosesMatch(engine: Engine, p: Pattern, file: SourceFile)
    requires |file.lines| == 2 && engine(p, file.lines[0]) && !engine(p, file.lines[1])
    ensures FileOutput(engine, p, file, false, 0, 1) == [Labelled(file.path, StripNewlines(file.lines[1]))]
  {
    var lines := file.lines;
    assert RawBlock(lines, 0, 0, 1) == [StripWhitespace(lines[0]), lines[1]];
    assert Collected(engine, p, lines, 0, 1, 1) == [StripWhitespace(lines[0]), lines[1]];
    var r := Search(engine, p, lines, 0, 1);
    assert r == [StripNewlines(StripWhitespace(lines[0])), StripNewlines(lines[1])];
    assert Drop(r, 1) == [StripNewlines(lines[1])];
  }

  /** A concrete instance: `alpha` matches the first of two lines and only `f: beta` is printed. */
  lemma AfterSliceExample(file: SourceFile)
    requires file == SourceFile("f", ["alpha\n", "beta\n"])
    ensures FileOutput(Literal, Pattern("alpha", false), file, false, 0, 1) == ["f: beta"]
  {
    OccursAt("alpha", file.lines[0], 0);
    BetaLacksAlpha(file.lines[1]);
    AfterSliceLosesMatch(Literal, Pattern("alpha", false), file);
    NewlineDropped(file.lines[1], "beta");
    BetaLabel(file.path);
  }

  /** A read line loses its one trailing newline. */
  lemma NewlineDropped(line: string, text: string)
    requires text != "" && text[0] != '\n' && text[|text| - 1] != '\n'
    requires line == text + "\n"
    ensures StripNewlines(line) == text
  {
    assert TrimLeft(line, Newline) == line;
    assert line[..|line| - 1] == text;
    assert TrimRight(text, Newline) == text;
  }

  /** The label of the printed line. */
  lemma BetaLabel(path: string)
    requires path == "f"
    ensures Labelled(path, "beta") == "f: beta"
  {
  }
}
