/**
  The matcher of the grep tool, `search_pattern_in_strings` (main.py:8-41):
  for every line that the pattern finds, in line order, it emits the clamped
  window of lines around it, then strips newlines from both ends of every
  emitted line. Overlapping windows are not merged.

  The regular-expression engine is a parameter: `engine(p, line)` stands for
  the truth of `re.search(p.regex, line, re.IGNORECASE if p.ignoreCase else 0)`.
 */
module Matcher {
  import opened Text

  /** A pattern as the tool applies it: the regular expression and the case flag. */
  datatype Pattern = Pattern(regex: string, ignoreCase: bool)

  /** Whether the pattern is found somewhere in a line (the role of `re.search`). */
  type Engine = (Pattern, string) -> bool

  /** `max(i - before, 0)`: the first line of the window around a match at `i`. */
  function WindowStart(i: nat, before: nat): nat
  {
    if i >= before then i - before else 0
  }

  /** `min(i + after + 1, n)`: one past the last line of the window around a match at `i`. */
  function WindowEnd(i: nat, after: nat, n: nat): nat
  {
    if i + after + 1 <= n then i + after + 1 else n
  }

  /**
    What one match at index `i` appends to the `matches` list: the lines
    before it, the matched line stripped of all surrounding whitespace, and
    the lines after it.
   */
  function RawBlock(lines: seq<string>, i: nat, before: nat, after: nat): seq<string>
    requires i < |lines|
  {
    lines[WindowStart(i, before)..i]
    + [StripWhitespace(lines[i])]
    + lines[i + 1..WindowEnd(i, after, |lines|)]
  }

  /** The `matches` list after the loop has looked at the first `k` lines. */
  function Collected(engine: Engine, p: Pattern, lines: seq<string>, before: nat, after: nat, k: nat): seq<string>
    requires k <= |lines|
    decreases k
  {
    if k == 0 then []
    else
      Collected(engine, p, lines, before, after, k - 1)
      + (if engine(p, lines[k - 1]) then RawBlock(lines, k - 1, before, after) else [])
  }

  /** The result of `search_pattern_in_strings`. */
  function Search(engine: Engine, p: Pattern, lines: seq<string>, before: nat, after: nat): seq<string>
  {
    if lines == [] then [] else StripAll(Collected(engine, p, lines, before, after, |lines|))
  }

  /** The block a match at `i` contributes to the result, as emitted. */
  function Emitted(lines: seq<string>, i: nat, before: nat, after: nat): seq<string>
    requires i < |lines|
  {
    StripAll(RawBlock(lines, i, before, after))
  }

  /** Where the block of a match at `i` starts in the result: the length of what earlier matches emitted. */
  function Offset(engine: Engine, p: Pattern, lines: seq<string>, before: nat, after: nat, i: nat): nat
    requires i <= |lines|
  {
    |Collected(engine, p, lines, before, after, i)|
  }

  /** The loop of main.py:24-40, proved to compute `Search`. */
  method SearchPatternInStrings(engine: Engine, p: Pattern, lines: seq<string>, before: nat, after: nat)
    returns (result: seq<string>)
    ensures result == Search(engine, p, lines, before, after)
  {
    if lines == [] {
      return [];
    }
    var matches: seq<string> := [];
    for i := 0 to |lines|
      invariant matches == Collected(engine, p, lines, before, after, i)
    {
      ghost var prev := matches;
      if engine(p, lines[i]) {
        var start := if i - before > 0 then i - before else 0;
        matches := matches + lines[start..i];
        matches := matches + [StripWhitespace(lines[i])];
        var end := if i + after + 1 < |lines| then i + after + 1 else |lines|;
        matches := matches + lines[i + 1..end];
        assert start == WindowStart(i, before) && end == WindowEnd(i, after, |lines|);
        assert matches == prev + RawBlock(lines, i, before, after);
      }
    }
    result := StripAll(matches);
  }

  // ---------------------------------------------------------------------
  // One block

  /**
    The window of a match at `i` is `[i - before, i + after + 1)` clamped to
    the input: it never reaches outside `[0, n)`, it always holds `i`, and it
    is cut only where the input ends.
   */
  lemma WindowBounds(i: nat, before: nat, after: nat, n: nat)
    requires i < n
    ensures var lo, hi := WindowStart(i, before), WindowEnd(i, after, n);
      && lo <= i < hi <= n
      && lo >= i - before && (lo == 0 || lo == i - before)
      && hi <= i + after + 1 && (hi == n || hi == i + after + 1)
  {
  }

  /**
    The block of a match at `i` holds the lines `lo .. hi - 1` in index
    order, where `lo` and `hi` are the window bounds; the matched line sits
    at offset `i - lo` stripped of whitespace, every other line is stripped
    of newlines only.
   */
  lemma BlockShape(lines: seq<string>, i: nat, before: nat, after: nat)
    requires i < |lines|
    ensures |Emitted(lines, i, before, after)| == WindowEnd(i, after, |lines|) - WindowStart(i, before)
    ensures Emitted(lines, i, before, after)[i - WindowStart(i, before)] == StripWhitespace(lines[i])
    ensures forall k :: 0 <= k < |Emitted(lines, i, before, after)| && k != i - WindowStart(i, before) ==>
      Emitted(lines, i, before, after)[k] == StripNewlines(lines[WindowStart(i, before) + k])
  {
    var lo, hi := WindowStart(i, before), WindowEnd(i, after, |lines|);
    var raw := RawBlock(lines, i, before, after);
    var e := Emitted(lines, i, before, after);
    assert |raw| == hi - lo;
    forall k | 0 <= k < hi - lo && k != i - lo
      ensures e[k] == StripNewlines(lines[lo + k])
    {
      assert raw[k] == lines[lo + k];
    }
    assert raw[i - lo] == StripWhitespace(lines[i]);
    StripNewlinesOfStripped(lines[i]);
  }

  // ---------------------------------------------------------------------
  // Length

  /** Sum over the matching indices below `k` of the clamped window size `hi - lo`. */
  function WindowSum(engine: Engine, p: Pattern, lines: seq<string>, before: nat, after: nat, k: nat): nat
    requires k <= |lines|
    decreases k
  {
    if k == 0 then 0
    else
      WindowSum(engine, p, lines, before, after, k - 1)
      + (if engine(p, lines[k - 1])
         then WindowEnd(k - 1, after, |lines|) - WindowStart(k - 1, before)
         else 0)
  }

  lemma {:induction false} CollectedLength(engine: Engine, p: Pattern, lines: seq<string>, before: nat, after: nat, k: nat)
    requires k <= |lines|
    ensures |Collected(engine, p, lines, before, after, k)| == WindowSum(engine, p, lines, before, after, k)
    decreases k
  {
    if k > 0 {
      CollectedLength(engine, p, lines, before, after, k - 1);
    }
  }

  /** The result is as long as the sum of the clamped window sizes of all matches. */
  lemma SearchLength(engine: Engine, p: Pattern, lines: seq<string>, before: nat, after: nat)
    ensures |Search(engine, p, lines, before, after)| == WindowSum(engine, p, lines, before, after, |lines|)
  {
    CollectedLength(engine, p, lines, before, after, |lines|);
  }

  // ---------------------------------------------------------------------
  // Empty results

  lemma {:induction false} CollectedEmpty(engine: Engine, p: Pattern, lines: seq<string>, before: nat, after: nat, k: nat)
    requires k <= |lines|
    ensures Collected(engine, p, lines, before, after, k) == []
        <==> forall i :: 0 <= i < k ==> !engine(p, lines[i])
    decreases k
  {
    if k > 0 {
      CollectedEmpty(engine, p, lines, before, after, k - 1);
      if engine(p, lines[k - 1]) {
        assert |RawBlock(lines, k - 1, before, after)| > 0;
      }
    }
  }

  /** The result is empty exactly when no line matches (in particular for an empty input). */
  lemma EmptyIffNoMatch(engine: Engine, p: Pattern, lines: seq<string>, before: nat, after: nat)
    ensures Search(engine, p, lines, before, after) == []
        <==> forall i :: 0 <= i < |lines| ==> !engine(p, lines[i])
  {
    CollectedEmpty(engine, p, lines, before, after, |lines|);
  }

  // ---------------------------------------------------------------------
  // No context

  /** The matching lines in input order, each stripped of whitespace: what a context-free search should find. */
  function MatchedLines(engine: Engine, p: Pattern, lines: seq<string>): seq<string>
    decreases |lines|
  {
    if lines == [] then []
    else
      var last := lines[|lines| - 1];
      MatchedLines(engine, p, lines[..|lines| - 1])
      + (if engine(p, last) then [StripWhitespace(last)] else [])
  }

  lemma {:induction false} CollectedNoContext(engine: Engine, p: Pattern, lines: seq<string>, k: nat)
    requires k <= |lines|
    ensures StripAll(Collected(engine, p, lines, 0, 0, k)) == MatchedLines(engine, p, lines[..k])
    decreases k
  {
    if k > 0 {
      CollectedNoContext(engine, p, lines, k - 1);
      assert lines[..k][..k - 1] == lines[..k - 1];
      var prev := Collected(engine, p, lines, 0, 0, k - 1);
      var add := if engine(p, lines[k - 1]) then RawBlock(lines, k - 1, 0, 0) else [];
      StripAllAppend(prev, add);
      if engine(p, lines[k - 1]) {
        assert add == [StripWhitespace(lines[k - 1])];
        StripNewlinesOfStripped(lines[k - 1]);
      }
    }
  }

  /**
    With no context lines the result is exactly the matching lines, stripped,
    in input order; so its length (the count mode's number) is the number of
    matching lines.
   */
  lemma NoContextIsMatchedLines(engine: Engine, p: Pattern, lines: seq<string>)
    ensures Search(engine, p, lines, 0, 0) == MatchedLines(engine, p, lines)
  {
    CollectedNoContext(engine, p, lines, |lines|);
    assert lines[..|lines|] == lines;
  }

  // ---------------------------------------------------------------------
  // Order and placement of blocks

  lemma {:induction false} CollectedPrefix(engine: Engine, p: Pattern, lines: seq<string>, before: nat, after: nat, i: nat, j: nat)
    requires i <= j <= |lines|
    ensures Offset(engine, p, lines, before, after, i) <= Offset(engine, p, lines, before, after, j)
    ensures Collected(engine, p, lines, before, after, j)[..Offset(engine, p, lines, before, after, i)]
         == Collected(engine, p, lines, before, after, i)
    decreases j
  {
    if i < j {
      CollectedPrefix(engine, p, lines, before, after, i, j - 1);
    }
  }

  /**
    The block of the match at `i` sits in the result at the offset the earlier
    matches' blocks fill, unchanged: blocks are never merged.
   */
  lemma BlockInPlace(engine: Engine, p: Pattern, lines: seq<string>, before: nat, after: nat, i: nat)
    requires i < |lines| && engine(p, lines[i])
    ensures Offset(engine, p, lines, before, after, i) + |Emitted(lines, i, before, after)|
         <= |Search(engine, p, lines, before, after)|
    ensures Search(engine, p, lines, before, after)
              [Offset(engine, p, lines, before, after, i)..Offset(engine, p, lines, before, after, i) + |Emitted(lines, i, before, after)|]
         == Emitted(lines, i, before, after)
  {
    var n := |lines|;
    var o := Offset(engine, p, lines, before, after, i);
    var raw := RawBlock(lines, i, before, after);
    var all := Collected(engine, p, lines, before, after, n);
    CollectedPrefix(engine, p, lines, before, after, i + 1, n);
    assert all[o..o + |raw|] == raw;
    StripAllSlice(all, o, o + |raw|);
  }

  /** Blocks appear in match order: the block of a match ends before the block of any later line starts. */
  lemma BlocksInOrder(engine: Engine, p: Pattern, lines: seq<string>, before: nat, after: nat, i: nat, j: nat)
    requires i < j < |lines| && engine(p, lines[i])
    ensures Offset(engine, p, lines, before, after, i) + |Emitted(lines, i, before, after)|
         <= Offset(engine, p, lines, before, after, j)
  {
    CollectedPrefix(engine, p, lines, before, after, i + 1, j);
  }

  /**
    A match at `i` puts its own line, stripped of whitespace, at offset
    `i - lo` of its block in the result; that entry neither starts nor ends
    with whitespace.
   */
  lemma MatchedLineInResult(engine: Engine, p: Pattern, lines: seq<string>, before: nat, after: nat, i: nat)
    requires i < |lines| && engine(p, lines[i])
    ensures Offset(engine, p, lines, before, after, i) + (i - WindowStart(i, before))
          < |Search(engine, p, lines, before, after)|
    ensures Search(engine, p, lines, before, after)[Offset(engine, p, lines, before, after, i) + (i - WindowStart(i, before))]
         == StripWhitespace(lines[i])
    ensures StripWhitespace(lines[i]) == ""
         || (StripWhitespace(lines[i])[0] !in Whitespace
             && StripWhitespace(lines[i])[|StripWhitespace(lines[i])| - 1] !in Whitespace)
  {
    StripSpec(lines[i], Whitespace);
    var r := Search(engine, p, lines, before, after);
    var o := Offset(engine, p, lines, before, after, i);
    var e := Emitted(lines, i, before, after);
    var k := i - WindowStart(i, before);
    BlockShape(lines, i, before, after);
    BlockInPlace(engine, p, lines, before, after, i);
    assert r[o..o + |e|][k] == e[k];
  }

  lemma EmittedContext(lines: seq<string>, i: nat, before: nat, after: nat, j: nat)
    requires i < |lines|
    requires WindowStart(i, before) <= j < WindowEnd(i, after, |lines|) && j != i
    ensures j - WindowStart(i, before) < |Emitted(lines, i, before, after)|
    ensures Emitted(lines, i, before, after)[j - WindowStart(i, before)] == StripNewlines(lines[j])
  {
    var raw := RawBlock(lines, i, before, after);
    assert raw[j - WindowStart(i, before)] == lines[j];
  }

  /** A match at `i` puts each other line `j` of its window, stripped of newlines, at offset `j - lo` of its block. */
  lemma ContextLineInResult(engine: Engine, p: Pattern, lines: seq<string>, before: nat, after: nat, i: nat, j: nat)
    requires i < |lines| && engine(p, lines[i])
    requires WindowStart(i, before) <= j < WindowEnd(i, after, |lines|) && j != i
    ensures Offset(engine, p, lines, before, after, i) + (j - WindowStart(i, before))
          < |Search(engine, p, lines, before, after)|
    ensures Search(engine, p, lines, before, after)[Offset(engine, p, lines, before, after, i) + (j - WindowStart(i, before))]
         == StripNewlines(lines[j])
  {
    var r := Search(engine, p, lines, before, after);
    var o := Offset(engine, p, lines, before, after, i);
    var e := Emitted(lines, i, before, after);
    var k := j - WindowStart(i, before);
    EmittedContext(lines, i, before, after, j);
    BlockInPlace(engine, p, lines, before, after, i);
    assert r[o..o + |e|][k] == e[k];
  }

  /**
    Overlapping windows are duplicated: when lines `i` and `i + 1` both match
    and `after >= 1`, line `i + 1` is emitted once as context of the first
    match and again, later, as the second match.
   */
  lemma OverlapDuplicated(engine: Engine, p: Pattern, lines: seq<string>, before: nat, after: nat, i: nat)
    requires i + 1 < |lines| && after >= 1
    requires engine(p, lines[i]) && engine(p, lines[i + 1])
    ensures Offset(engine, p, lines, before, after, i) + (i + 1 - WindowStart(i, before))
          < Offset(engine, p, lines, before, after, i + 1) + (i + 1 - WindowStart(i + 1, before))
          < |Search(engine, p, lines, before, after)|
    ensures Search(engine, p, lines, before, after)[Offset(engine, p, lines, before, after, i) + (i + 1 - WindowStart(i, before))]
         == StripNewlines(lines[i + 1])
    ensures Search(engine, p, lines, before, after)[Offset(engine, p, lines, before, after, i + 1) + (i + 1 - WindowStart(i + 1, before))]
         == StripWhitespace(lines[i + 1])
  {
    ContextLineInResult(engine, p, lines, before, after, i, i + 1);
    MatchedLineInResult(engine, p, lines, before, after, i + 1);
    BlocksInOrder(engine, p, lines, before, after, i, i + 1);
    EmittedContext(lines, i, before, after, i + 1);
  }

  // ---------------------------------------------------------------------
  // Newlines

  /** No emitted line starts or ends with a newline. */
  lemma NoNewlineAtEnds(engine: Engine, p: Pattern, lines: seq<string>, before: nat, after: nat)
    ensures forall k :: 0 <= k < |Search(engine, p, lines, before, after)| ==>
      var line := Search(engine, p, lines, before, after)[k];
      line == "" || (line[0] != '\n' && line[|line| - 1] != '\n')
  {
    var r := Search(engine, p, lines, before, after);
    forall k | 0 <= k < |r|
      ensures r[k] == "" || (r[k][0] != '\n' && r[k][|r[k]| - 1] != '\n')
    {
      var c := Collected(engine, p, lines, before, after, |lines|);
      assert r[k] == Strip(c[k], Newline);
      StripSpec(c[k], Newline);
    }
  }

  lemma {:induction false} CollectedAreLines(engine: Engine, p: Pattern, lines: seq<string>, before: nat, after: nat, k: nat)
    requires k <= |lines|
    requires forall j :: 0 <= j < |lines| ==> IsLine(lines[j])
    ensures forall j :: 0 <= j < |Collected(engine, p, lines, before, after, k)| ==>
      IsLine(Collected(engine, p, lines, before, after, k)[j])
    decreases k
  {
    if k > 0 {
      CollectedAreLines(engine, p, lines, before, after, k - 1);
      if engine(p, lines[k - 1]) {
        assert '\n' in Whitespace;
        StrippedLineHasNoNewline(lines[k - 1], Whitespace);
        var raw := RawBlock(lines, k - 1, before, after);
        assert forall j :: 0 <= j < |raw| ==> IsLine(raw[j]);
        var prev := Collected(engine, p, lines, before, after, k - 1);
        var c := Collected(engine, p, lines, before, after, k);
        assert c == prev + raw;
        forall j | 0 <= j < |c|
          ensures IsLine(c[j])
        {
          if j >= |prev| {
            assert c[j] == raw[j - |prev|];
          }
        }
      } else {
        assert Collected(engine, p, lines, before, after, k) == Collected(engine, p, lines, before, after, k - 1);
      }
    }
  }

  /** When the input lines are as `readlines()` yields them, no emitted line contains a newline at all. */
  lemma NoNewlineInResult(engine: Engine, p: Pattern, lines: seq<string>, before: nat, after: nat)
    requires forall j :: 0 <= j < |lines| ==> IsLine(lines[j])
    ensures forall k :: 0 <= k < |Search(engine, p, lines, before, after)| ==>
      NoNewline(Search(engine, p, lines, before, after)[k])
  {
    var c := Collected(engine, p, lines, before, after, |lines|);
    CollectedAreLines(engine, p, lines, before, after, |lines|);
    forall k | 0 <= k < |c|
      ensures NoNewline(StripNewlines(c[k]))
    {
      assert '\n' in Newline;
      assert IsLine(c[k]);
      StrippedLineHasNoNewline(c[k], Newline);
    }
  }
}
