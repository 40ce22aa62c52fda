/**
  Recursive mode, `search_files_recursive` (main.py:44-70): every regular
  file the directory walk meets is searched, and each file with a non-empty
  result prints either its count or its context lines, prefixed by its path.

  The walk itself (`os.walk`, `os.path.join`, `os.path.isfile`, `open`,
  `readlines`) is a collaborator: the model receives the regular files in
  walk order, each with its joined path and its lines.
 */
module Recursive {
  import opened Text
  import opened Matcher

  /** A regular file met by the walk: the path printed for it and the lines read from it. */
  datatype SourceFile = SourceFile(path: string, lines: seq<string>)

  /** The text `f"{filepath}: {text}"`. */
  function Labelled(path: string, text: string): string
  {
    path + ": " + text
  }

  /**
    What main.py:64-70 prints for one file whose search result is `result`.
    The second slice starts at `after`, as the source writes it, and both
    slices are joined with no separator.
   */
  function FileLines(path: string, result: seq<string>, countOnly: bool, before: nat, after: nat): seq<string>
  {
    if result == [] then []
    else if countOnly then [Labelled(path, NatToString(|result|))]
    else
      (if before > 0 then [Labelled(path, Join("", Take(result, before)))] else [])
      + [Labelled(path, Join("", Drop(result, after)))]
  }

  /** What one file of the walk prints. */
  function FileOutput(engine: Engine, p: Pattern, file: SourceFile, countOnly: bool, before: nat, after: nat): seq<string>
  {
    FileLines(file.path, Search(engine, p, file.lines, before, after), countOnly, before, after)
  }

  /** The output of each file of the walk. */
  function Outputs(engine: Engine, p: Pattern, files: seq<SourceFile>, countOnly: bool, before: nat, after: nat): seq<seq<string>>
  {
    seq(|files|, i requires 0 <= i < |files| => FileOutput(engine, p, files[i], countOnly, before, after))
  }

  /** The outputs of several files printed one after the other. */
  function Flatten(outs: seq<seq<string>>): seq<string>
    decreases |outs|
  {
    if outs == [] then [] else Flatten(outs[..|outs| - 1]) + outs[|outs| - 1]
  }

  lemma {:induction false} FlattenAppend(a: seq<seq<string>>, b: seq<seq<string>>)
    ensures Flatten(a + b) == Flatten(a) + Flatten(b)
    decreases |b|
  {
    if b == [] {
      assert a + b == a;
    } else {
      var b' := b[..|b| - 1];
      assert (a + b)[..|a + b| - 1] == a + b';
      FlattenAppend(a, b');
    }
  }

  /** Everything printed for the files of a walk, in walk order. */
  function Walk(engine: Engine, p: Pattern, files: seq<SourceFile>, countOnly: bool, before: nat, after: nat): seq<string>
  {
    Flatten(Outputs(engine, p, files, countOnly, before, after))
  }

  /** The per-file loop of main.py:57-70 over the files of the walk, proved to print `Walk`. */
  method SearchFilesRecursive(engine: Engine, p: Pattern, files: seq<SourceFile>, countOnly: bool, before: nat, after: nat)
    returns (printed: seq<string>)
    ensures printed == Walk(engine, p, files, countOnly, before, after)
  {
    printed := [];
    for f := 0 to |files|
      invariant printed == Walk(engine, p, files[..f], countOnly, before, after)
    {
      var file := files[f];
      var result := SearchPatternInStrings(engine, p, file.lines, before, after);
      var out: seq<string> := [];
      if result != [] {
        if countOnly {
          out := [Labelled(file.path, NatToString(|result|))];
        } else {
          if before > 0 {
            out := [Labelled(file.path, Join("", Take(result, before)))];
          }
          out := out + [Labelled(file.path, Join("", Drop(result, after)))];
        }
      }
      assert out == FileLines(file.path, result, countOnly, before, after);
      WalkStep(engine, p, files, f, countOnly, before, after);
      printed := printed + out;
    }
    assert files[..|files|] == files;
  }

  // ---------------------------------------------------------------------
  // Properties

  /** One more file adds its own output at the end. */
  lemma WalkSnoc(engine: Engine, p: Pattern, files: seq<SourceFile>, file: SourceFile, countOnly: bool, before: nat, after: nat)
    ensures Walk(engine, p, files + [file], countOnly, before, after)
         == Walk(engine, p, files, countOnly, before, after) + FileOutput(engine, p, file, countOnly, before, after)
  {
    var outs := Outputs(engine, p, files + [file], countOnly, before, after);
    assert outs == Outputs(engine, p, files, countOnly, before, after) + [FileOutput(engine, p, file, countOnly, before, after)];
    FlattenAppend(Outputs(engine, p, files, countOnly, before, after), [FileOutput(engine, p, file, countOnly, before, after)]);
    assert Flatten([FileOutput(engine, p, file, countOnly, before, after)]) == FileOutput(engine, p, file, countOnly, before, after);
  }

  /** The walk over one more file of `files` prints that file's output after the rest. */
  lemma WalkStep(engine: Engine, p: Pattern, files: seq<SourceFile>, f: nat, countOnly: bool, before: nat, after: nat)
    requires f < |files|
    ensures Walk(engine, p, files[..f + 1], countOnly, before, after)
         == Walk(engine, p, files[..f], countOnly, before, after) + FileOutput(engine, p, files[f], countOnly, before, after)
  {
    assert files[..f + 1] == files[..f] + [files[f]];
    WalkSnoc(engine, p, files[..f], files[f], countOnly, before, after);
  }

  /** Files keep their walk order: the output of two walks run one after the other is the two outputs in order. */
  lemma WalkAppend(engine: Engine, p: Pattern, a: seq<SourceFile>, b: seq<SourceFile>, countOnly: bool, before: nat, after: nat)
    ensures Walk(engine, p, a + b, countOnly, before, after)
         == Walk(engine, p, a, countOnly, before, after) + Walk(engine, p, b, countOnly, before, after)
  {
    var oa, ob := Outputs(engine, p, a, countOnly, before, after), Outputs(engine, p, b, countOnly, before, after);
    assert Outputs(engine, p, a + b, countOnly, before, after) == oa + ob;
    FlattenAppend(oa, ob);
  }

  /** Some line of the file matches the pattern. */
  predicate HasMatch(engine: Engine, p: Pattern, lines: seq<string>)
  {
    exists i :: 0 <= i < |lines| && engine(p, lines[i])
  }

  /** A file prints nothing exactly when none of its lines matches. */
  lemma SilentIffNoMatch(engine: Engine, p: Pattern, file: SourceFile, countOnly: bool, before: nat, after: nat)
    ensures FileLines(file.path, Search(engine, p, file.lines, before, after), countOnly, before, after) == []
        <==> !HasMatch(engine, p, file.lines)
  {
    EmptyIffNoMatch(engine, p, file.lines, before, after);
  }

  /**
    In count mode a file with a match prints exactly one line,
    `"<path>: <n>"`, and the digits after the label read back as the length
    of its result.
   */
  lemma CountLine(engine: Engine, p: Pattern, file: SourceFile, before: nat, after: nat)
    requires HasMatch(engine, p, file.lines)
    ensures var result := Search(engine, p, file.lines, before, after);
      var out := FileLines(file.path, result, true, before, after);
      && |out| == 1
      && out[0][..|file.path| + 2] == file.path + ": "
      && (forall k :: |file.path| + 2 <= k < |out[0]| ==> '0' <= out[0][k] <= '9')
      && ParseNat(out[0][|file.path| + 2..]) == |result|
  {
    var result := Search(engine, p, file.lines, before, after);
    EmptyIffNoMatch(engine, p, file.lines, before, after);
    var digits := NatToString(|result|);
    assert Labelled(file.path, digits)[|file.path| + 2..] == digits;
    ParseNatToString(|result|);
  }

  /**
    Outside count mode a file with a match prints one line
    `"<path>: " + join(result[:before])` when `before > 0`, then one line
    `"<path>: " + join(result[after:])`, and nothing else.
   */
  lemma ContextLines(engine: Engine, p: Pattern, file: SourceFile, before: nat, after: nat)
    requires HasMatch(engine, p, file.lines)
    ensures var result := Search(engine, p, file.lines, before, after);
      var out := FileLines(file.path, result, false, before, after);
      && |out| == (if before > 0 then 2 else 1)
      && (forall k :: 0 <= k < |out| ==> out[k][..|file.path| + 2] == file.path + ": ")
      && (before > 0 ==> out[0][|file.path| + 2..] == Join("", Take(result, before)))
      && out[|out| - 1][|file.path| + 2..] == Join("", Drop(result, after))
  {
    EmptyIffNoMatch(engine, p, file.lines, before, after);
  }

  /** The number of files of the walk that hold a matching line. */
  function MatchingFiles(engine: Engine, p: Pattern, files: seq<SourceFile>): nat
    decreases |files|
  {
    if files == [] then 0
    else
      MatchingFiles(engine, p, files[..|files| - 1])
      + (if HasMatch(engine, p, files[|files| - 1].lines) then 1 else 0)
  }

  lemma CountOutputSize(engine: Engine, p: Pattern, file: SourceFile, before: nat, after: nat)
    ensures |FileOutput(engine, p, file, true, before, after)| == if HasMatch(engine, p, file.lines) then 1 else 0
  {
    EmptyIffNoMatch(engine, p, file.lines, before, after);
  }

  /** In count mode the walk prints exactly one line per file that holds a match. */
  lemma {:induction false} CountModeOneLinePerFile(engine: Engine, p: Pattern, files: seq<SourceFile>, before: nat, after: nat)
    ensures |Walk(engine, p, files, true, before, after)| == MatchingFiles(engine, p, files)
    decreases |files|
  {
    if files == [] {
      assert Outputs(engine, p, files, true, before, after) == [];
    } else {
      var init, last := files[..|files| - 1], files[|files| - 1];
      assert files == init + [last];
      CountModeOneLinePerFile(engine, p, init, before, after);
      WalkSnoc(engine, p, init, last, true, before, after);
      CountOutputSize(engine, p, last, before, after);
    }
  }

  /** With a single matching line `i`, the loop has collected nothing before it and exactly its raw block from then on. */
  lemma {:induction false} CollectedSingle(engine: Engine, p: Pattern, lines: seq<string>, before: nat, after: nat, i: nat, k: nat)
    requires i < |lines| && engine(p, lines[i])
    requires forall j :: 0 <= j < |lines| && engine(p, lines[j]) ==> j == i
    requires k <= |lines|
    ensures Collected(engine, p, lines, before, after, k) == if k <= i then [] else RawBlock(lines, i, before, after)
    decreases k
  {
    if k > 0 {
      CollectedSingle(engine, p, lines, before, after, i, k - 1);
      if k - 1 == i {
        assert Collected(engine, p, lines, before, after, k)
            == [] + RawBlock(lines, i, before, after);
      }
    }
  }

  /**
    With no lines before, at least one line after, and a single matching
    line, the result starts with that line, stripped, and the one label the
    file prints joins `result[after:]`, which starts past it: the matched
    entry is never printed.
   */
  lemma AfterSliceSkipsMatch(engine: Engine, p: Pattern, file: SourceFile, after: nat, i: nat)
    requires i < |file.lines| && engine(p, file.lines[i])
    requires forall j :: 0 <= j < |file.lines| && engine(p, file.lines[j]) ==> j == i
    requires after >= 1
    ensures |Search(engine, p, file.lines, 0, after)| >= 1
    ensures Search(engine, p, file.lines, 0, after)[0] == StripWhitespace(file.lines[i])
    ensures FileOutput(engine, p, file, false, 0, after)
         == [Labelled(file.path, Join("", Drop(Search(engine, p, file.lines, 0, after), after)))]
    ensures Drop(Search(engine, p, file.lines, 0, after), after)
         == Search(engine, p, file.lines, 0, after)
              [if after <= |Search(engine, p, file.lines, 0, after)| then after else |Search(engine, p, file.lines, 0, after)|..]
  {
    var lines := file.lines;
    CollectedSingle(engine, p, lines, 0, after, i, |lines|);
    assert Search(engine, p, lines, 0, after) == Emitted(lines, i, 0, after);
    BlockShape(lines, i, 0, after);
    WindowBounds(i, 0, after, |lines|);
    EmptyIffNoMatch(engine, p, lines, 0, after);
  }
}
