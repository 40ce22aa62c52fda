# grep-cli-app in Dafny

A model of the command-line grep tool in `main.py`. The model covers three parts:

- **The matcher**, `search_pattern_in_strings`. For every line the pattern finds, in line order, it emits a clamped window of context lines around the match. The matched line is stripped of surrounding whitespace. At the end every emitted line has newlines stripped from both ends. Overlapping windows are emitted twice, not merged.
- **The recursive per-file formatter**, `search_files_recursive`. For each file of a directory walk with a non-empty result, it prints either the one line `"<path>: <count>"`, or up to two lines, each with its own `"<path>: "` label: `"<path>: " + join(result[:before])` only when `before > 0`, then `"<path>: " + join(result[after:])`.
- **The driver**, `my_grep`, after the file system has answered. It handles:
  - dispatch to recursive mode;
  - the file-not-found and no-read-permission messages;
  - the refusal to overwrite an existing output file;
  - writing the output file;
  - the printed count;
  - the interactive rendering: `result[:before]`, then `result[before:]`, then the trailer `I found '<pattern>' in the file.`

Modules:

- `Text` (text.dfy) gives Python's string operations as the tool uses them:
  - `str.strip()` and `str.strip("\n")`, through the `Strip` function;
  - `sep.join`, clamping slices, and `str(n)`;
  - the text that `print` and `write(line + '\n')` produce (`Terminated`), and reading such text back as lines (`Lines`).
- `Matcher` (matcher.dfy) has three layers:
  - `Collected`, the list `matches` after the first `k` loop iterations;
  - `Search`, the function's result;
  - the method `SearchPatternInStrings`, whose `for` loop keeps `matches == Collected(.., i)`.
- `Recursive` (recursive.dfy) defines `Walk`, everything printed for a sequence of files. The method `SearchFilesRecursive` runs the per-file loop and is proved to print `Walk`.
- `Grep` (grep.dfy) defines `MyGrep`. It maps a `World` record to an `Outcome`. A `World` holds the answers of `os.path.exists`, `os.access`, `readlines` and the walk. An `Outcome` is one of: a failure message, the printed lines, or a newly written file.
- `Examples` (examples.dfy) provides a substring engine. For a case-sensitive pattern made only of letters, this is what `re.search` does. With `ignoreCase` it folds ASCII letters only, so it agrees with `re.IGNORECASE` only when the pattern and the line are ASCII. With that engine it proves, as lemmas, the expected outputs of several tests in `test_main.py`.

The regular-expression engine is a parameter, `engine(p, line)`, standing for the truth of `re.search(p.regex, line, re.IGNORECASE if p.ignoreCase else 0)`. Context counts are natural numbers.

The options' meaning is swapped relative to conventional grep: here `-A` (`--lines_before_match`) feeds `lines_before` and `-B` (`--lines_after_match`) feeds `lines_after` (main.py:145-146). The model names the two counts `before` and `after`, after the parameters they feed.

The recursive formatter's second slice is `result[lines_after:]`, not `result[lines_before:]`. The model keeps that slice as written. test_main.py:207-218 uses `-A 1 -B 1`, so its expected output does not tell the two slices apart; `Examples.AfterSliceExample` shows a case where they differ. One consequence: with no lines before, at least one line after, and a single matching line, the result's entry for the matched line is never printed (`Recursive.AfterSliceSkipsMatch`).

## Model

| member | source | states |
|---|---|---|
| Text.Strip | main.py:35 | defines `s.strip(cs)` (also used at main.py:40) as trimming characters of `cs` from the left, then from the right |
| Text.StripWhitespace | main.py:35 | defines `s.strip()`: `Strip` over the whitespace characters |
| Text.StripNewlines | main.py:40 | defines `s.strip("\n")`: `Strip` over the newline character |
| Text.StripAll | main.py:40 | defines the comprehension `[s.strip("\n") for s in matches]`, element by element |
| Text.StripSpec | main.py:35 | `s.strip(cs)` keeps an untouched infix of `s`. It neither starts nor ends with a character of `cs`, and only characters of `cs` are removed at either end |
| Text.StripNewlinesOfStripped | main.py:35-40 | stripping newlines from the already whitespace-stripped matched line changes nothing |
| Text.StrippedLineHasNoNewline | main.py:40 | a line as `readlines()` yields it has no newline left after `strip("\n")` or `strip()` |
| Text.Join | main.py:131-133 | defines `sep.join(xs)` (also the `''.join` of main.py:69-70): the elements with `sep` between neighbours |
| Text.Take | main.py:131 | defines `xs[:n]` for `n >= 0`, clamped at the end of `xs` |
| Text.Drop | main.py:133 | defines `xs[n:]` for `n >= 0`, empty past the end of `xs` |
| Text.Terminated | main.py:122-123 | defines the text of writing, or printing, each element followed by a newline |
| Text.JoinThenNewline | main.py:131-133 | printing `"\n".join(xs)` once writes the same text as printing each element of a non-empty `xs` |
| Text.TerminatedAppend | main.py:122-123 | writing two sequences of lines one after the other writes their concatenation |
| Text.LinesOfTerminated | main.py:122-123 | text written one newline-free line at a time reads back as the same lines, in the same order |
| Text.FirstLine | main.py:122-123 | a newline-free line followed by a newline reads back as that line, then the rest of the text |
| Text.TakeDrop | main.py:131-133 | `result[:n] + result[n:] == result` for every `n >= 0`, and `result[:n]` has `min(n, len(result))` elements |
| Text.NatToString | main.py:66 | `str(n)` is a non-empty string of decimal digits with no leading zero |
| Text.ParseNatToString | main.py:120 | reading the printed or written count back as a number gives the count |
| Matcher.WindowStart | main.py:31 | defines `start = max(i - lines_before, 0)` |
| Matcher.WindowEnd | main.py:38 | defines `end = min(i + lines_after + 1, len(array_of_strings))` |
| Matcher.RawBlock | main.py:31-39 | defines the lines one match at `i` appends: `lines[max(i-before,0):i]`, the whitespace-stripped line `i`, then `lines[i+1:min(i+after+1,n)]` |
| Matcher.Collected | main.py:24-39 | defines the list `matches` after the first `k` loop iterations |
| Matcher.Search | main.py:20-40 | defines the function's result: `[]` for an empty input, otherwise every collected line stripped of newlines |
| Matcher.SearchPatternInStrings | main.py:8-41 | the loop builds exactly `Search`: each matching line's clamped window, in line order, with newlines stripped |
| Matcher.WindowBounds | main.py:31-38 | the window `[max(i-before,0), min(i+after+1,n))` lies inside `[0, n)` and always holds `i`. It is cut only at the input's ends |
| Matcher.BlockShape | main.py:31-40 | a match's block is the window's lines in index order. The matched line is at offset `i - lo`, stripped of whitespace. Every other line is stripped of newlines only |
| Matcher.SearchLength | main.py:26-40 | the result's length is the sum, over matching `i`, of `min(i+after+1,n) - max(i-before,0)` |
| Matcher.CollectedEmpty | main.py:24-39 | the loop has collected nothing after `k` lines exactly when none of the first `k` lines matches |
| Matcher.EmptyIffNoMatch | main.py:20-40 | the result is empty exactly when no line matches, including an empty input |
| Matcher.CollectedNoContext | main.py:26-40 | with no context, the first `k` iterations collect exactly the matching lines among the first `k` |
| Matcher.NoContextIsMatchedLines | main.py:26-40 | with `before = after = 0` the result is exactly the matching lines, stripped, in input order |
| Matcher.CollectedLength | main.py:26-39 | after `k` iterations the list is as long as the sum of the first `k` matches' window sizes |
| Matcher.CollectedPrefix | main.py:26-39 | later iterations only append: the list after `i` iterations is a prefix of the list after `j >= i` |
| Matcher.BlockInPlace | main.py:26-40 | each match's block appears in the result unchanged, at the offset the earlier blocks fill |
| Matcher.BlocksInOrder | main.py:26-39 | the block of a match ends before the block of any later line starts |
| Matcher.MatchedLineInResult | main.py:35 | the matched line appears in the result stripped of whitespace and with no whitespace at either end |
| Matcher.ContextLineInResult | main.py:31-40 | every other line of a match's window appears in its block, stripped of newlines only |
| Matcher.OverlapDuplicated | main.py:26-39 | when lines `i` and `i+1` both match and `after >= 1`, line `i+1` is emitted twice: first as context, then as a match |
| Matcher.NoNewlineAtEnds | main.py:40 | no result element starts or ends with a newline |
| Matcher.CollectedAreLines | main.py:31-39 | for inputs as `readlines()` yields them, every collected element has a newline at most at its end |
| Matcher.NoNewlineInResult | main.py:40 | for inputs as `readlines()` yields them, no result element contains a newline |
| Recursive.Labelled | main.py:66-70 | defines the f-string `f"{filepath}: {text}"` of every line the walk prints |
| Recursive.FileLines | main.py:64-70 | defines what one file prints for its result: nothing, the count label, or the optional `result[:before]` label and then the `result[after:]` label |
| Recursive.FileOutput | main.py:61-70 | defines one file's printed lines: its lines searched with the run's pattern and counts, then `FileLines` |
| Recursive.Walk | main.py:57-70 | defines everything the walk prints: each file's output, in walk order |
| Recursive.SearchFilesRecursive | main.py:57-70 | the per-file loop prints exactly `Walk`: each file's output, in walk order |
| Recursive.WalkSnoc | main.py:57-70 | one more file adds its own output at the end of what is printed |
| Recursive.WalkStep | main.py:57-70 | after the first `f` files, handling file `f` extends the printed output by exactly that file's output |
| Recursive.WalkAppend | main.py:57-70 | files keep their walk order: the output for two sequences of files is the two outputs in order |
| Recursive.FlattenAppend | main.py:57-70 | printing the outputs of two groups of files prints the first group's, then the second's |
| Recursive.SilentIffNoMatch | main.py:64 | a file prints nothing exactly when none of its lines matches |
| Recursive.CountLine | main.py:65-66 | in count mode a file with a match prints exactly one line, `"<path>: "` then digits that read back as `len(result)` |
| Recursive.ContextLines | main.py:67-70 | otherwise it prints `"<path>: " + join(result[:before])` only when `before > 0`, then `"<path>: " + join(result[after:])`, and nothing else |
| Recursive.CollectedSingle | main.py:24-39 | with a single matching line, the loop collects nothing before it and exactly its block from then on |
| Recursive.AfterSliceSkipsMatch | main.py:68-70 | with `before = 0`, `after >= 1` and a single match, the result starts with the stripped matched line, and the file's one label joins `result[after:]`, which starts past it |
| Recursive.CountOutputSize | main.py:64-66 | in count mode a file prints one line if it has a match, else none |
| Recursive.CountModeOneLinePerFile | main.py:57-66 | in count mode the walk prints exactly one line per file with a match |
| Grep.Given | main.py:90 | defines Python's truth test of an optional string argument (also at main.py:94 and main.py:114): present and not empty |
| Grep.Message | main.py:99-116 | defines the three failure messages, printed at lines 99, 103 and 116 |
| Grep.Trailer | main.py:134 | defines the trailer line `I found '<pattern>' in the file.` |
| Grep.SourceLines | main.py:106-110 | defines the lines searched: the named file's when a file name is given, otherwise standard input's |
| Grep.FileContent | main.py:119-123 | defines the output file's text: `str(len(result)) + '\n'` in count mode, otherwise every result line followed by a newline |
| Grep.Render | main.py:130-134 | defines the print calls of the interactive rendering |
| Grep.Blocks | main.py:130-133 | defines the two result blocks: `join(result[:before])` when `before > 0`, then `join(result[before:])` |
| Grep.Deliver | main.py:114-135 | defines what is done with the result: refusal, file write, nothing, the count, or the rendering |
| Grep.MyGrep | main.py:73-135 | defines the whole run: recursive dispatch, the two file checks, reading the file or standard input, searching, then `Deliver` |
| Grep.RecursiveDelegates | main.py:90-93 | with `-r` and a path, the run prints the recursive search's output, whatever the output path |
| Grep.FileErrors | main.py:98-104 | a missing file, then an unreadable one, produces only its message. Nothing is searched, printed or written |
| Grep.SilentIffNoMatch | main.py:110-135 | the run prints nothing at all, not even the trailer, and writes no file exactly when no line of the source matches |
| Grep.OutputRefused | main.py:114-117 | with a match and an output path that exists, only the "already exists" message is produced and nothing is written |
| Grep.OutputFileReadsBack | main.py:114-124 | a new output file reads back as the result, or in count mode as one line holding `len(result)`. Nothing is printed |
| Grep.CountReadsBack | main.py:119-120 | the written count and its newline read back as one line holding the count |
| Grep.CountPrinted | main.py:125-128 | count mode without `-o` prints one line that reads back as `len(result)` |
| Grep.CountIsMatchingLines | main.py:125-128 | without context, that number is the number of matching lines |
| Grep.RenderText | main.py:130-134 | the rendering prints `join(result[:before])` (only when `before > 0`), then `join(result[before:])`, whose slices together are the result, then exactly one trailer. Its text is the output file's text plus the trailer line exactly when `before == 0` or `len(result) > before`; otherwise it is the file's text, an empty line, then the trailer line |
| Grep.BlocksTextFull | main.py:130-133 | when `before == 0` or `len(result) > before`, the blocks print the output file's text |
| Grep.BlocksTextShort | main.py:130-133 | when `0 < len(result) <= before`, the blocks print the output file's text and then an empty line |
| Grep.RenderTextFull | main.py:130-134 | in the first case the rendering prints the output file's text, then the trailer line |
| Grep.RenderTextShort | main.py:130-134 | in the second case it prints the output file's text, an empty line, then the trailer line |
| Grep.RenderReadsBack | main.py:130-134 | in those cases the printed text reads back as the result's lines followed by the trailer |
| Grep.TrailerNoNewline | main.py:134 | the trailer is a single line when the pattern is |
| Grep.InteractiveOutcome | main.py:110-134 | without `-o` or `-C`, a run with a match prints the rendering of its result and writes nothing |
| Grep.InteractiveReadsBack | main.py:110-134 | when `before == 0` or `len(result) > before`, such a run's standard output reads back as the result's lines followed by the trailer |
| Examples.OccursAt | main.py:27 | the substring engine finds a pattern that occurs at a given position |
| Examples.OccursChars | main.py:27 | every character of a found pattern occurs in the line |
| Examples.StdinMatches | test_main.py:138-143 | of the four stdin lines, exactly the second and fourth contain `foo` |
| Examples.StdinResult | test_main.py:138-143 | searching that input gives `["barbazfoo", "food"]` |
| Examples.SecondAndFourth | main.py:26-39 | without context, four lines of which the second and fourth match collect those two, stripped |
| Examples.StdinPrinted | test_main.py:138-143 | the interactive run prints `barbazfoo\nfood\nI found 'foo' in the file.\n` |
| Examples.StdinWritten | test_main.py:145-161 | with `-o` the file holds `barbazfoo\nfood\n` |
| Examples.StdinCounted | test_main.py:163-168 | with `-C` the run prints `2\n` |
| Examples.StripReadLine | main.py:35 | a read line whose text has no whitespace at either end strips to that text |
| Examples.NewlineDropped | main.py:40 | a read line loses its one trailing newline under `strip("\n")` |
| Examples.OneLineFileWithContext | test_main.py:207-218 | a one-line matching file searched with one line of context on each side prints its line, then an empty label |
| Examples.RecursiveContextFile1 | test_main.py:207-218 | the first test file prints `.../file1.txt: This is a test file.` and then `.../file1.txt: ` |
| Examples.AfterSliceLosesMatch | main.py:70 | with `before = 0` and `after = 1`, a two-line file whose first line matches prints only its second line |
| Examples.AfterSliceExample | main.py:70 | concretely, `alpha` in `["alpha\n", "beta\n"]` prints only `f: beta` |

## Left out

- The regular-expression engine (`re.search`, `re.IGNORECASE`, main.py:27) is a parameter. An invalid pattern's exception is not modelled, and neither is the behaviour of any particular pattern beyond the substring engine in `Examples`.
- File-system and stream I/O (`os.path.exists`, `os.access`, `open`, `readlines`, `sys.stdin`, `print`, `write`) is replaced by the `World` record and the `Outcome` value. The model does not cover a file that changes between the checks and the read, an open that fails anyway, or a failed write.
- The directory walk (`os.walk`, `os.path.join`, `os.path.isfile`, main.py:57-61) is given as a sequence of `SourceFile` values in walk order, each already holding its joined path and its lines.
- Argument parsing (main.py:138-152) is not modelled. Negative context counts are left out (the counts are `nat`). argparse accepts them, and Python would then give `result[:n]` its negative-slice meaning.
- `str.strip()` uses the ASCII whitespace characters only. Python also strips the non-ASCII Unicode whitespace characters.
- Uncaught exceptions are not modelled. `my_grep` catches none, so these inputs end the run with a traceback and a non-zero exit status, while `MyGrep` returns a normal outcome built from the `World`'s lines:
  - an invalid pattern raises `re.error` (main.py:27);
  - a file that does not decode raises `UnicodeDecodeError` in `readlines()` (main.py:62, main.py:110);
  - a directory named as the single source raises `IsADirectoryError` at `open` (main.py:107);
  - an unreadable file met by a recursive walk raises `PermissionError` at `open` (main.py:61), after the earlier files' lines have been printed. That partial output is not modelled either.
- A missing or empty recursive root has no branch in the code and prints nothing, while test_main.py:220-242 expect messages. The model has no such messages.
- Exit codes are left out. They are 0 except after the uncaught exceptions above or an argument error reported by argparse.
