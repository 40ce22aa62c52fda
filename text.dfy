/**
  String helpers with the meaning Python gives them in the grep tool:
  `str.strip(chars)`, `str.strip()`, `sep.join(xs)`, `str(n)` for a
  non-negative integer, slices that clamp, the text that `print` and
  `file.write(line + '\n')` produce, and reading such a text back as lines.
 */
module Text {

  /** The ASCII characters Python's `str.isspace` accepts, which `str.strip()` removes. */
  const Whitespace: set<char> :=
    {'\t', '\n', '\U{0B}', '\U{0C}', '\r', '\U{1C}', '\U{1D}', '\U{1E}', '\U{1F}', ' '}

  /** The characters removed by `s.strip("\n")`. */
  const Newline: set<char> := {'\n'}

  /** Removes the leading characters of `s` that are in `cs`. */
  function TrimLeft(s: string, cs: set<char>): string
    decreases |s|
  {
    if s != "" && s[0] in cs then TrimLeft(s[1..], cs) else s
  }

  /** Removes the trailing characters of `s` that are in `cs`. */
  function TrimRight(s: string, cs: set<char>): string
    decreases |s|
  {
    if s != "" && s[|s| - 1] in cs then TrimRight(s[..|s| - 1], cs) else s
  }

  /** `TrimLeft` keeps a suffix that does not start with `cs` and removes only characters of `cs`. */
  lemma {:induction false} TrimLeftSpec(s: string, cs: set<char>)
    ensures |TrimLeft(s, cs)| <= |s| && TrimLeft(s, cs) == s[|s| - |TrimLeft(s, cs)|..]
    ensures TrimLeft(s, cs) == "" || TrimLeft(s, cs)[0] !in cs
    ensures forall k :: 0 <= k < |s| - |TrimLeft(s, cs)| ==> s[k] in cs
    decreases |s|
  {
    if s != "" && s[0] in cs {
      TrimLeftSpec(s[1..], cs);
    }
  }

  /** `TrimRight` keeps a prefix that does not end with `cs` and removes only characters of `cs`. */
  lemma {:induction false} TrimRightSpec(s: string, cs: set<char>)
    ensures |TrimRight(s, cs)| <= |s| && TrimRight(s, cs) == s[..|TrimRight(s, cs)|]
    ensures TrimRight(s, cs) == "" || TrimRight(s, cs)[|TrimRight(s, cs)| - 1] !in cs
    ensures forall k :: |TrimRight(s, cs)| <= k < |s| ==> s[k] in cs
    decreases |s|
  {
    if s != "" && s[|s| - 1] in cs {
      TrimRightSpec(s[..|s| - 1], cs);
    }
  }

  /** The number of characters `Strip(s, cs)` removes at the front. */
  function Lead(s: string, cs: set<char>): int
  {
    |s| - |TrimLeft(s, cs)|
  }

  /** Python's `s.strip(chars)`. */
  function Strip(s: string, cs: set<char>): string
  {
    TrimRight(TrimLeft(s, cs), cs)
  }

  /**
    `Strip(s, cs)` is the infix of `s` that neither starts nor ends with a
    character of `cs`, obtained by removing only characters of `cs` at both
    ends; the kept part is untouched.
   */
  lemma StripSpec(s: string, cs: set<char>)
    ensures 0 <= Lead(s, cs) && Lead(s, cs) + |Strip(s, cs)| <= |s|
    ensures Strip(s, cs) == s[Lead(s, cs)..Lead(s, cs) + |Strip(s, cs)|]
    ensures Strip(s, cs) == "" || (Strip(s, cs)[0] !in cs && Strip(s, cs)[|Strip(s, cs)| - 1] !in cs)
    ensures forall k :: 0 <= k < Lead(s, cs) ==> s[k] in cs
    ensures forall k :: Lead(s, cs) + |Strip(s, cs)| <= k < |s| ==> s[k] in cs
  {
    var t := TrimLeft(s, cs);
    TrimLeftSpec(s, cs);
    TrimRightSpec(t, cs);
    var r := TrimRight(t, cs);
    assert forall k :: |r| <= k < |t| ==> t[k] == s[Lead(s, cs) + k];
  }

  /** `s.strip("\n")` */
  function StripNewlines(s: string): string
  {
    Strip(s, Newline)
  }

  /** `s.strip()`, over the ASCII whitespace characters. */
  function StripWhitespace(s: string): string
  {
    Strip(s, Whitespace)
  }

  /** `[s.strip("\n") for s in xs]` */
  function StripAll(xs: seq<string>): seq<string>
  {
    seq(|xs|, k requires 0 <= k < |xs| => StripNewlines(xs[k]))
  }

  /** Stripping a concatenation strips each part. */
  lemma StripAllAppend(a: seq<string>, b: seq<string>)
    ensures StripAll(a + b) == StripAll(a) + StripAll(b)
  {
  }

  /** Stripping commutes with slicing. */
  lemma StripAllSlice(xs: seq<string>, lo: nat, hi: nat)
    requires lo <= hi <= |xs|
    ensures StripAll(xs)[lo..hi] == StripAll(xs[lo..hi])
  {
  }

  /** A string that already has nothing to strip is its own strip. */
  lemma StripFixed(s: string, cs: set<char>)
    requires s == "" || (s[0] !in cs && s[|s| - 1] !in cs)
    ensures Strip(s, cs) == s
  {
    assert TrimLeft(s, cs) == s;
  }

  /**
    Stripping newlines from a whitespace-stripped line changes nothing: the
    matched line that main.py:35 strips and main.py:40 strips again keeps
    the first stripping.
   */
  lemma StripNewlinesOfStripped(s: string)
    ensures StripNewlines(StripWhitespace(s)) == StripWhitespace(s)
  {
    var r := StripWhitespace(s);
    StripSpec(s, Whitespace);
    assert '\n' in Whitespace;
    StripFixed(r, Newline);
  }

  /** `s` contains no newline character. */
  predicate NoNewline(s: string)
  {
    forall k :: 0 <= k < |s| ==> s[k] != '\n'
  }

  /** A line as text-mode `readlines()` yields it: a newline can only be its last character. */
  predicate IsLine(s: string)
  {
    forall k :: 0 <= k < |s| - 1 ==> s[k] != '\n'
  }

  /** Stripping a read line of newlines, or of whitespace, leaves no newline anywhere in it. */
  lemma {:induction false} StrippedLineHasNoNewline(s: string, cs: set<char>)
    requires IsLine(s)
    requires '\n' in cs
    ensures NoNewline(Strip(s, cs))
  {
    var r := Strip(s, cs);
    var lo := Lead(s, cs);
    StripSpec(s, cs);
    forall k | 0 <= k < |r|
      ensures r[k] != '\n'
    {
      assert r[k] == s[lo + k];
      if lo + k == |s| - 1 {
        assert k == |r| - 1;
      }
    }
  }

  /** Python's `sep.join(xs)`. */
  function Join(sep: string, xs: seq<string>): string
    decreases |xs|
  {
    if |xs| == 0 then ""
    else if |xs| == 1 then xs[0]
    else xs[0] + sep + Join(sep, xs[1..])
  }

  /**
    The text of writing every element of `xs` followed by a newline, in
    order: the content `output_file.write(line + '\n')` leaves in a file, and
    the text a sequence of `print` calls leaves on standard output.
   */
  function Terminated(xs: seq<string>): string
    decreases |xs|
  {
    if xs == [] then "" else xs[0] + "\n" + Terminated(xs[1..])
  }

  /** Writing two sequences one after the other writes their concatenation. */
  lemma {:induction false} TerminatedAppend(a: seq<string>, b: seq<string>)
    ensures Terminated(a + b) == Terminated(a) + Terminated(b)
    decreases |a|
  {
    if a != [] {
      assert (a + b)[0] == a[0] && (a + b)[1..] == a[1..] + b;
      TerminatedAppend(a[1..], b);
      assert Terminated(a + b) == a[0] + "\n" + (Terminated(a[1..]) + Terminated(b));
    } else {
      assert a + b == b;
    }
  }

  /** Printing `"\n".join(xs)` once writes the same text as printing each element of a non-empty `xs`. */
  lemma {:induction false} JoinThenNewline(xs: seq<string>)
    requires xs != []
    ensures Join("\n", xs) + "\n" == Terminated(xs)
    decreases |xs|
  {
    if |xs| > 1 {
      JoinThenNewline(xs[1..]);
      assert Join("\n", xs) + "\n" == xs[0] + "\n" + (Join("\n", xs[1..]) + "\n");
    } else {
      assert Terminated(xs[1..]) == "";
    }
  }

  /** The index of the first newline of `t`, or `|t|` when there is none. */
  function LineLength(t: string): (k: nat)
    ensures k <= |t|
    ensures forall j :: 0 <= j < k ==> t[j] != '\n'
    ensures k < |t| ==> t[k] == '\n'
    decreases |t|
  {
    if t == "" || t[0] == '\n' then 0 else 1 + LineLength(t[1..])
  }

  /** The lines of a text, without their newlines (Python's `text.split("\n")` without the empty tail). */
  function Lines(t: string): seq<string>
    decreases |t|
  {
    if t == "" then []
    else
      var k := LineLength(t);
      if k == |t| then [t] else [t[..k]] + Lines(t[k + 1..])
  }

  /** Text written one newline-free line at a time reads back as the same lines, in the same order. */
  lemma {:induction false} LinesOfTerminated(xs: seq<string>)
    requires forall i :: 0 <= i < |xs| ==> NoNewline(xs[i])
    ensures Lines(Terminated(xs)) == xs
    decreases |xs|
  {
    if xs != [] {
      var rest := Terminated(xs[1..]);
      assert Terminated(xs) == xs[0] + "\n" + rest;
      FirstLine(xs[0], rest);
      LinesOfTerminated(xs[1..]);
    }
  }

  /** A newline-free line, a newline, then more text: the text's first line is that line. */
  lemma FirstLine(line: string, rest: string)
    requires NoNewline(line)
    ensures Lines(line + "\n" + rest) == [line] + Lines(rest)
  {
    var t := line + "\n" + rest;
    assert forall j :: 0 <= j < |line| ==> t[j] == line[j];
    assert t[|line|] == '\n';
    var k := LineLength(t);
    assert k == |line|;
    assert t[..k] == line;
    assert t[k + 1..] == rest;
  }

  /** Python's `s[:n]` for `n >= 0`: clamps at the end of `s`. */
  function Take<T>(s: seq<T>, n: nat): (r: seq<T>)
  {
    if n <= |s| then s[..n] else s
  }

  /** Python's `s[n:]` for `n >= 0`: clamps at the end of `s`. */
  function Drop<T>(s: seq<T>, n: nat): (r: seq<T>)
  {
    if n <= |s| then s[n..] else []
  }

  /** Taking and dropping at the same place splits `s` into two parts that give `s` back. */
  lemma TakeDrop<T>(s: seq<T>, n: nat)
    ensures Take(s, n) + Drop(s, n) == s
    ensures |Take(s, n)| == if n <= |s| then n else |s|
  {
  }

  /** Slicing past the end: the whole sequence, then nothing. */
  lemma TakeAll<T>(s: seq<T>, n: nat)
    requires |s| <= n
    ensures Take(s, n) == s && Drop(s, n) == []
  {
    assert s[..|s|] == s;
  }

  /** The decimal digit for `d`. */
  function Digit(d: nat): char
    requires d < 10
  {
    "0123456789"[d]
  }

  /** Python's `str(n)` for `n >= 0`: decimal digits, no leading zero. */
  function NatToString(n: nat): (s: string)
    ensures |s| >= 1
    ensures forall k :: 0 <= k < |s| ==> '0' <= s[k] <= '9'
    ensures |s| > 1 ==> s[0] != '0'
    decreases n
  {
    if n < 10 then [Digit(n)] else NatToString(n / 10) + [Digit(n % 10)]
  }

  /** The value of a string of decimal digits (Python's `int(s)` on such strings). */
  function ParseNat(s: string): nat
    requires forall k :: 0 <= k < |s| ==> '0' <= s[k] <= '9'
    decreases |s|
  {
    if s == "" then 0 else ParseNat(s[..|s| - 1]) * 10 + (s[|s| - 1] - '0') as nat
  }

  /** Reading back a printed count gives the count. */
  lemma {:induction false} ParseNatToString(n: nat)
    ensures ParseNat(NatToString(n)) == n
    decreases n
  {
    var s := NatToString(n);
    DigitValue(n % 10);
    if n >= 10 {
      assert s == NatToString(n / 10) + [Digit(n % 10)];
      assert s[..|s| - 1] == NatToString(n / 10);
      assert s[|s| - 1] == Digit(n % 10);
      ParseNatToString(n / 10);
    } else {
      assert s == [Digit(n)];
      assert s[..0] == "";
    }
  }

  /** The digit for `d` stands for `d`. */
  lemma DigitValue(d: nat)
    requires d < 10
    ensures (Digit(d) - '0') as nat == d
  {
  }

  /** `str(n)` never contains a newline, so a printed count is one line. */
  lemma NatToStringNoNewline(n: nat)
    ensures NoNewline(NatToString(n))
  {
  }
}
