/** The parts of Python's `str` and list semantics that the console relies on:
    `isspace`, `strip`, `split()`, `split(maxsplit=1)`, `sep.join`,
    `readlines` on decoded text, `str(n)` and the slice `xs[-n:]`. */
module PyStr {
  import opened Outcomes

  /** Python 3's `str.isspace`, which is what `strip()` and `split()` use. */
  predicate IsSpace(c: char) {
    || c == ' ' || c == '\t' || c == '\n' || c == '\r'
    || c == '\U{000B}' || c == '\U{000C}'
    || ('\U{001C}' <= c <= '\U{001F}')
    || c == '\U{0085}' || c == '\U{00A0}' || c == '\U{1680}'
    || ('\U{2000}' <= c <= '\U{200A}')
    || c == '\U{2028}' || c == '\U{2029}' || c == '\U{202F}'
    || c == '\U{205F}' || c == '\U{3000}'
  }

  predicate IsBlank(s: string) {
    forall i :: 0 <= i < |s| ==> IsSpace(s[i])
  }

  predicate NoSpace(s: string) {
    forall i :: 0 <= i < |s| ==> !IsSpace(s[i])
  }

  /** Neither starts nor ends with whitespace. */
  predicate IsStripped(s: string) {
    s == [] || (!IsSpace(s[0]) && !IsSpace(s[|s| - 1]))
  }

  /** `s.lstrip()`: the suffix of `s` left after its leading whitespace. */
  function LStrip(s: string): (r: string)
    ensures |r| <= |s| && r == s[|s| - |r|..]
    ensures IsBlank(s[..|s| - |r|])
    ensures r != [] ==> !IsSpace(r[0])
  {
    if |s| > 0 && IsSpace(s[0]) then
      var r := LStrip(s[1..]);
      var n := |s| - |r|;
      assert r == s[1..][n - 1..] == s[n..];
      BlankCons(s, n);
      r
    else s
  }

  /** Leading whitespace one character longer. */
  lemma BlankCons(s: string, n: int)
    requires 0 < n <= |s| && IsSpace(s[0]) && IsBlank(s[1..][..n - 1])
    ensures IsBlank(s[..n])
  {
    assert forall i :: 1 <= i < n ==> s[..n][i] == s[1..][..n - 1][i - 1];
  }

  /** `s.rstrip()`: the prefix of `s` left before its trailing whitespace. */
  function RStrip(s: string): (r: string)
    ensures |r| <= |s| && r == s[..|r|]
    ensures IsBlank(s[|r|..])
    ensures r != [] ==> !IsSpace(r[|r| - 1])
  {
    if |s| > 0 && IsSpace(s[|s| - 1]) then
      var r := RStrip(s[..|s| - 1]);
      assert r == s[..|s| - 1][..|r|] == s[..|r|];
      BlankSnoc(s, |r|);
      r
    else s
  }

  /** Trailing whitespace one character longer. */
  lemma BlankSnoc(s: string, n: int)
    requires 0 <= n < |s| && IsSpace(s[|s| - 1]) && IsBlank(s[..|s| - 1][n..])
    ensures IsBlank(s[n..])
  {
    assert forall i :: 0 <= i < |s| - 1 - n ==> s[n..][i] == s[..|s| - 1][n..][i];
  }

  /** `s.strip()`: what it leaves has no whitespace at either end, and it is
      empty exactly when the input is all whitespace. */
  function Strip(s: string): (r: string)
    ensures IsStripped(r)
    ensures r == [] <==> IsBlank(s)
  {
    var t := LStrip(s);
    LStripEmpty(s);
    RStripEmpty(t);
    var r := RStrip(t);
    assert r != [] ==> r[0] == t[0];
    r
  }

  lemma {:induction false} LStripEmpty(s: string)
    ensures LStrip(s) == [] <==> IsBlank(s)
    decreases |s|
  {
    if |s| > 0 && IsSpace(s[0]) {
      LStripEmpty(s[1..]);
      assert IsBlank(s) <==> IsBlank(s[1..]);
    }
  }

  lemma {:induction false} RStripEmpty(s: string)
    ensures RStrip(s) == [] <==> IsBlank(s)
    decreases |s|
  {
    if |s| > 0 && IsSpace(s[|s| - 1]) {
      RStripEmpty(s[..|s| - 1]);
      assert IsBlank(s) <==> IsBlank(s[..|s| - 1]);
    }
  }

  /** Stripping an already stripped string changes nothing. */
  lemma StripStripped(s: string)
    requires IsStripped(s)
    ensures Strip(s) == s
  {
  }

  /** `strip()` removes a trailing newline together with any other trailing
      whitespace; this is what `readlines` followed by `strip` relies on. */
  lemma {:induction false} StripNewline(s: string)
    requires IsStripped(s)
    ensures Strip(s + "\n") == s
  {
    if s == [] {
      assert LStrip("\n") == LStrip([]);
    } else {
      assert LStrip(s + "\n") == s + "\n";
      assert (s + "\n")[..|s|] == s;
    }
  }

  lemma StripIdempotent(s: string)
    ensures Strip(Strip(s)) == Strip(s)
  {
    StripStripped(Strip(s));
  }

  /** Length of the leading run of non-whitespace characters. */
  function TokenEnd(t: string): (k: nat)
    ensures k <= |t|
    ensures NoSpace(t[..k])
    ensures k < |t| ==> IsSpace(t[k])
  {
    if t == [] || IsSpace(t[0]) then 0 else 1 + TokenEnd(t[1..])
  }

  /** The first whitespace-delimited word of `s`, if there is one. */
  function FirstToken(s: string): (r: Option<string>)
    ensures r == None <==> IsBlank(s)
    ensures r.Some? ==> r.value != [] && NoSpace(r.value)
  {
    var t := LStrip(s);
    if t == [] then None else Some(t[..TokenEnd(t)])
  }

  /** `s.split()` with no separator: the maximal runs of non-whitespace. */
  function Split(s: string): (r: seq<string>)
    ensures forall k :: 0 <= k < |r| ==> r[k] != [] && NoSpace(r[k])
    decreases |s|
  {
    var t := LStrip(s);
    if t == [] then []
    else
      var k := TokenEnd(t);
      assert k > 0;
      var rest := Split(t[k..]);
      WordsCons(t[..k], rest);
      [t[..k]] + rest
  }

  /** A word in front of a list of words. */
  lemma WordsCons(w: string, rest: seq<string>)
    requires w != [] && NoSpace(w)
    requires forall k :: 0 <= k < |rest| ==> rest[k] != [] && NoSpace(rest[k])
    ensures forall k :: 0 <= k < |[w] + rest| ==> ([w] + rest)[k] != [] && NoSpace(([w] + rest)[k])
  {
    forall k | 0 <= k < |[w] + rest|
      ensures ([w] + rest)[k] != [] && NoSpace(([w] + rest)[k])
    {
      if k > 0 { assert ([w] + rest)[k] == rest[k - 1]; }
    }
  }

  lemma SplitHead(s: string)
    ensures Split(s) == [] <==> IsBlank(s)
    ensures Split(s) != [] ==> FirstToken(s) == Some(Split(s)[0])
  {
    var t := LStrip(s);
    LStripEmpty(s);
    if t != [] {
      var k := TokenEnd(t);
      assert Split(s) == [t[..k]] + Split(t[k..]);
    }
  }

  lemma {:induction false} TokenEndOfWholeWord(w: string)
    requires NoSpace(w)
    ensures TokenEnd(w) == |w|
    decreases |w|
  {
    if w != [] {
      TokenEndOfWholeWord(w[1..]);
    }
  }

  /** A single word splits into itself. */
  lemma SplitWord(w: string)
    requires w != [] && NoSpace(w)
    ensures Split(w) == [w]
  {
    assert !IsSpace(w[0]);
    TokenEndOfWholeWord(w);
    SplitSingle(w);
  }

  lemma SplitSingle(t: string)
    requires t != [] && !IsSpace(t[0]) && TokenEnd(t) == |t|
    ensures Split(t) == [t]
  {
    var k := |t|;
    SplitUnfold(t, k);
    var e := t[k..];
    assert |e| == 0;
    SplitBlank(e);
    assert t[..k] == t;
    assert [t[..k]] + Split(e) == [t];
  }

  /** One step of `split()` on a string with no leading whitespace. */
  lemma SplitUnfold(t: string, k: nat)
    requires t != [] && !IsSpace(t[0]) && k == TokenEnd(t)
    ensures Split(t) == [t[..k]] + Split(t[k..])
  {
    assert LStrip(t) == t;
  }

  lemma SplitBlank(s: string)
    requires IsBlank(s)
    ensures Split(s) == []
  {
    LStripEmpty(s);
  }

  /** A word, a space and anything: the word, then the words of the rest. */
  lemma SplitWordThen(w: string, rest: string)
    requires w != [] && NoSpace(w)
    ensures Split(w + " " + rest) == [w] + Split(rest)
  {
    var s := w + (" " + rest);
    assert s == w + " " + rest;
    assert s[0] == w[0] && !IsSpace(w[0]);
    TokenEndOfWord(w, " " + rest);
    SplitUnfold(s, |w|);
    assert s[..|w|] == w && s[|w|..] == " " + rest;
    SplitSpaceThen(rest);
  }

  lemma SplitSpaceThen(rest: string)
    ensures Split(" " + rest) == Split(rest)
  {
    assert (" " + rest)[1..] == rest;
    assert LStrip(" " + rest) == LStrip(rest);
  }

  /** `s.split(maxsplit=1)`: the first word and, if anything but whitespace
      follows it, the rest of the string from the next non-whitespace on. */
  function SplitMax1(s: string): (r: seq<string>)
    ensures |r| <= 2
    ensures r == [] <==> IsBlank(s)
    ensures r != [] ==> FirstToken(s) == Some(r[0])
  {
    var t := LStrip(s);
    if t == [] then []
    else
      var k := TokenEnd(t);
      var rest := LStrip(t[k..]);
      if rest == [] then [t[..k]] else [t[..k], rest]
  }

  /** Leading whitespace does not change the words. */
  lemma SplitLStrip(s: string)
    ensures Split(LStrip(s)) == Split(s)
  {
    var t := LStrip(s);
    assert LStrip(t) == t;
  }

  /** `split(maxsplit=1)` agrees with `split()`: same first word, and its
      remainder splits into exactly the remaining words. */
  lemma SplitMax1AgreesWithSplit(s: string)
    ensures |SplitMax1(s)| == if |Split(s)| < 2 then |Split(s)| else 2
    ensures SplitMax1(s) != [] ==> SplitMax1(s)[0] == Split(s)[0]
    ensures |SplitMax1(s)| == 2 ==> Split(SplitMax1(s)[1]) == Split(s)[1..]
  {
    var t := LStrip(s);
    if t != [] {
      var k := TokenEnd(t);
      var rest := LStrip(t[k..]);
      SplitLStrip(t[k..]);
      assert Split(s) == [t[..k]] + Split(t[k..]);
      if rest != [] {
        assert !IsBlank(t[k..]) by { assert t[k..][|t[k..]| - |rest|] == rest[0]; }
      }
    }
  }

  lemma NoSpaceTail(w: string)
    requires w != [] && NoSpace(w)
    ensures NoSpace(w[1..])
  {
    assert forall i :: 0 <= i < |w| - 1 ==> w[1..][i] == w[i + 1];
  }

  /** A word followed by whitespace and anything else is the first token. */
  lemma {:induction false} TokenEndOfWord(w: string, tail: string)
    requires NoSpace(w)
    requires tail != [] && IsSpace(tail[0])
    ensures TokenEnd(w + tail) == |w|
    decreases |w|
  {
    if w != [] {
      assert (w + tail)[0] == w[0] && !IsSpace(w[0]);
      assert (w + tail)[1..] == w[1..] + tail;
      NoSpaceTail(w);
      TokenEndOfWord(w[1..], tail);
    } else {
      assert w + tail == tail;
    }
  }

  /** `(w + " " + args).split()[0] == w` for a word `w`, whatever `args` is. */
  lemma FirstTokenOfWordThenArgs(w: string, args: string)
    requires w != [] && NoSpace(w)
    ensures FirstToken(w + " " + args) == Some(w)
  {
    var s := w + " " + args;
    assert s == w + (" " + args);
    assert LStrip(s) == s;
    TokenEndOfWord(w, " " + args);
    assert s[..|w|] == w;
  }

  /** A string that is exactly one word is its own first token. */
  lemma FirstTokenOfWord(w: string)
    requires w != [] && NoSpace(w)
    ensures FirstToken(w) == Some(w)
  {
    assert !IsSpace(w[0]);
    assert LStrip(w) == w;
    assert w[..|w|] == w;
    assert TokenEnd(w) == |w|;
  }

  /** A string that starts with a non-space character has a first word, and
      that word starts with the same character. */
  lemma FirstTokenStartsWith(s: string)
    requires s != [] && !IsSpace(s[0])
    ensures FirstToken(s).Some? && FirstToken(s).value[0] == s[0]
  {
    assert LStrip(s) == s;
  }

  /** A non-empty stripped string is not blank. */
  lemma StrippedNonEmptyNotBlank(s: string)
    requires IsStripped(s) && s != []
    ensures !IsBlank(s)
  {
    assert !IsSpace(s[0]);
  }

  // ----- the non-whitespace characters, an independent view of `split()` -----

  function NonSpace(s: string): string {
    if s == [] then [] else (if IsSpace(s[0]) then [] else [s[0]]) + NonSpace(s[1..])
  }

  function Concat(ws: seq<string>): string {
    if ws == [] then [] else ws[0] + Concat(ws[1..])
  }

  lemma {:induction false} NonSpaceAppend(a: string, b: string)
    ensures NonSpace(a + b) == NonSpace(a) + NonSpace(b)
    decreases |a|
  {
    if a == [] {
      assert a + b == b;
    } else {
      assert (a + b)[1..] == a[1..] + b;
      NonSpaceAppend(a[1..], b);
    }
  }

  lemma {:induction false} NonSpaceOfWord(s: string)
    requires NoSpace(s)
    ensures NonSpace(s) == s
    decreases |s|
  {
    if s != [] {
      NonSpaceOfWord(s[1..]);
    }
  }

  /** Leading whitespace holds no non-whitespace character. */
  lemma {:induction false} NonSpaceLStrip(s: string)
    ensures NonSpace(LStrip(s)) == NonSpace(s)
    decreases |s|
  {
    if |s| > 0 && IsSpace(s[0]) {
      NonSpaceLStrip(s[1..]);
    }
  }

  /** `split()` loses only whitespace: its words, concatenated, are exactly
      the non-whitespace characters of the input, in order. */
  lemma {:induction false} SplitKeepsNonSpace(s: string)
    ensures Concat(Split(s)) == NonSpace(s)
    decreases |s|
  {
    var t := LStrip(s);
    NonSpaceLStrip(s);
    if t != [] {
      var k := TokenEnd(t);
      var w, rest := t[..k], t[k..];
      assert t == w + rest;
      NonSpaceAppend(w, rest);
      NonSpaceOfWord(w);
      SplitKeepsNonSpace(rest);
      SplitStep(s, t, k);
      ConcatCons(w, Split(rest));
    } else {
      SplitBlank(s) by { LStripEmpty(s); }
    }
  }

  /** One step of `split()`: the first word, then the words after it. */
  lemma SplitStep(s: string, t: string, k: nat)
    requires t == LStrip(s) && t != [] && k == TokenEnd(t)
    ensures Split(s) == [t[..k]] + Split(t[k..])
  {
  }

  lemma ConcatCons(w: string, ws: seq<string>)
    ensures Concat([w] + ws) == w + Concat(ws)
  {
    assert ([w] + ws)[0] == w && ([w] + ws)[1..] == ws;
  }

  // ----- join, readlines, str(n), xs[-n:] -----

  /** Every entry is a non-empty run of non-whitespace. */
  predicate AllWords(xs: seq<string>) {
    forall i :: 0 <= i < |xs| ==> xs[i] != [] && NoSpace(xs[i])
  }

  /** `sep.join(xs)`. */
  function Join(sep: string, xs: seq<string>): string {
    if xs == [] then []
    else if |xs| == 1 then xs[0]
    else xs[0] + sep + Join(sep, xs[1..])
  }

  /** Joining words with a space is undone by `split()`. */
  lemma {:induction false} SplitJoin(xs: seq<string>)
    requires AllWords(xs)
    ensures Split(Join(" ", xs)) == xs
    decreases |xs|
  {
    if |xs| == 1 {
      SplitWord(xs[0]);
    } else if |xs| > 1 {
      WordsTail(xs);
      SplitJoin(xs[1..]);
      SplitWordThen(xs[0], Join(" ", xs[1..]));
    }
  }

  lemma WordsTail(xs: seq<string>)
    requires xs != [] && AllWords(xs)
    ensures AllWords(xs[1..]) && xs == [xs[0]] + xs[1..]
  {
    forall i | 0 <= i < |xs| - 1 ensures xs[1..][i] != [] && NoSpace(xs[1..][i]) {
      assert xs[1..][i] == xs[i + 1];
    }
  }

  /** Position of the first newline in `s`, or `|s|` when there is none. */
  function LineEnd(s: string): (k: nat)
    ensures k <= |s|
    ensures forall i :: 0 <= i < k ==> s[i] != '\n'
    ensures k < |s| ==> s[k] == '\n'
  {
    if s == [] || s[0] == '\n' then 0 else 1 + LineEnd(s[1..])
  }

  /** `f.readlines()` on the decoded text `s`: every line keeps its '\n',
      the last one only if the text ends with one. */
  function ReadLines(s: string): (r: seq<string>)
    ensures Concat(r) == s
    ensures forall i :: 0 <= i < |r| ==> r[i] != []
    ensures forall i :: 0 <= i < |r| - 1 ==> r[i][|r[i]| - 1] == '\n'
    ensures forall i :: 0 <= i < |r| ==> NewlineOnlyAtEnd(r[i])
    decreases |s|
  {
    if s == [] then []
    else
      var k := LineEnd(s);
      if k < |s| then
        var rest := ReadLines(s[k + 1..]);
        FirstLine(s, k);
        LinesCons(s[..k + 1], rest);
        [s[..k + 1]] + rest
      else
        LastLine(s);
        [s]
  }

  /** The text up to and including its first newline is a line. */
  lemma FirstLine(s: string, k: nat)
    requires k < |s| && s[k] == '\n'
    requires forall i :: 0 <= i < k ==> s[i] != '\n'
    ensures s[..k + 1] != [] && s[..k + 1][k] == '\n' && NewlineOnlyAtEnd(s[..k + 1])
    ensures s == s[..k + 1] + s[k + 1..]
  {
    var x := s[..k + 1];
    forall j | 0 <= j < k ensures x[j] != '\n' {
      assert x[j] == s[j];
    }
  }

  /** Text with no newline is one last line. */
  lemma LastLine(s: string)
    requires s != [] && forall i :: 0 <= i < |s| ==> s[i] != '\n'
    ensures Concat([s]) == s && NewlineOnlyAtEnd(s)
  {
    assert Concat([s]) == s + Concat([]);
  }

  /** No '\n' anywhere but possibly in the last position. */
  predicate NewlineOnlyAtEnd(x: string) {
    forall j :: 0 <= j < |x| - 1 ==> x[j] != '\n'
  }

  /** A line ending in '\n' in front of a list of lines. */
  lemma LinesCons(x: string, rest: seq<string>)
    requires x != [] && x[|x| - 1] == '\n' && NewlineOnlyAtEnd(x)
    requires forall i :: 0 <= i < |rest| ==> rest[i] != []
    requires forall i :: 0 <= i < |rest| - 1 ==> rest[i][|rest[i]| - 1] == '\n'
    requires forall i :: 0 <= i < |rest| ==> NewlineOnlyAtEnd(rest[i])
    ensures Concat([x] + rest) == x + Concat(rest)
    ensures forall i :: 0 <= i < |[x] + rest| ==> ([x] + rest)[i] != []
    ensures forall i :: 0 <= i < |[x] + rest| - 1 ==> ([x] + rest)[i][|([x] + rest)[i]| - 1] == '\n'
    ensures forall i :: 0 <= i < |[x] + rest| ==> NewlineOnlyAtEnd(([x] + rest)[i])
  {
    var r := [x] + rest;
    assert r[0] == x && r[1..] == rest;
    forall i | 1 <= i < |r| ensures r[i] == rest[i - 1] { }
  }

  /** The entries of `xs`, each but the last followed by its newline. */
  function Terminated(xs: seq<string>): (r: seq<string>)
    ensures |r| == |xs|
  {
    seq(|xs|, i requires 0 <= i < |xs| => if i < |xs| - 1 then xs[i] + "\n" else xs[i])
  }

  lemma {:induction false} LineEndOfLine(x: string, rest: string)
    requires '\n' !in x
    ensures LineEnd(x + "\n" + rest) == |x|
    decreases |x|
  {
    if x != [] {
      assert (x + "\n" + rest)[1..] == x[1..] + "\n" + rest;
      LineEndOfLine(x[1..], rest);
    }
  }

  lemma {:induction false} LineEndOfLastLine(x: string)
    requires '\n' !in x
    ensures LineEnd(x) == |x|
    decreases |x|
  {
    if x != [] {
      LineEndOfLastLine(x[1..]);
    }
  }

  lemma TerminatedCons(xs: seq<string>)
    requires |xs| > 1
    ensures Terminated(xs) == [xs[0] + "\n"] + Terminated(xs[1..])
  {
  }

  lemma ReadLinesStep(x: string, rest: string)
    requires '\n' !in x
    ensures ReadLines(x + "\n" + rest) == [x + "\n"] + ReadLines(rest)
  {
    var s := x + "\n" + rest;
    LineEndOfLine(x, rest);
    assert s[..|x| + 1] == x + "\n";
    assert s[|x| + 1..] == rest;
  }

  /** Reading back `'\n'.join(xs)` gives the entries with their newlines,
      provided no entry holds a newline and the last entry is not empty. */
  lemma {:induction false} ReadLinesOfJoin(xs: seq<string>)
    requires forall i :: 0 <= i < |xs| ==> '\n' !in xs[i]
    requires xs != [] ==> xs[|xs| - 1] != []
    ensures ReadLines(Join("\n", xs)) == Terminated(xs)
    decreases |xs|
  {
    if xs == [] {
    } else if |xs| == 1 {
      LineEndOfLastLine(xs[0]);
      assert Terminated(xs) == [xs[0]];
    } else {
      var rest := Join("\n", xs[1..]);
      assert Join("\n", xs) == xs[0] + "\n" + rest;
      ReadLinesStep(xs[0], rest);
      ReadLinesOfJoin(xs[1..]);
      TerminatedCons(xs);
    }
  }

  /** The slice `xs[-n:]` for `n > 0`: the last `n` entries, or all of them. */
  function LastN<T>(xs: seq<T>, n: nat): (r: seq<T>)
    requires n > 0
    ensures |r| == if |xs| < n then |xs| else n
    ensures forall i :: 0 <= i < |r| ==> r[i] == xs[|xs| - |r| + i]
  {
    if |xs| <= n then xs else xs[|xs| - n..]
  }

  predicate IsDigit(c: char) {
    '0' <= c <= '9'
  }

  /** The number a digit stands for. */
  function DigitValue(c: char): int {
    c as int - '0' as int
  }

  /** The number a string of decimal digits stands for. */
  function DigitsValue(s: string): int
    decreases |s|
  {
    if s == [] then 0 else 10 * DigitsValue(s[..|s| - 1]) + DigitValue(s[|s| - 1])
  }

  /** The digit character for `d`. */
  function DigitChar(d: nat): (c: char)
    requires d < 10
    ensures IsDigit(c) && DigitValue(c) == d
  {
    ('0' as int + d) as char
  }

  /** `str(n)` for a non-negative integer: decimal digits that stand for `n`,
      with no leading zero. */
  function DecimalString(n: nat): (r: string)
    ensures r != [] && NoSpace(r)
    ensures (n < 10) == (|r| == 1)
    ensures forall i :: 0 <= i < |r| ==> IsDigit(r[i])
    ensures DigitsValue(r) == n
    ensures n > 0 ==> r[0] != '0'
  {
    if n < 10 then [DigitChar(n)]
    else
      var init := DecimalString(n / 10);
      var r := init + [DigitChar(n % 10)];
      assert r[..|r| - 1] == init;
      r
  }

  /** `map(str, ns)`. */
  function DecimalStrings(ns: seq<nat>): (r: seq<string>)
    ensures |r| == |ns|
    ensures AllWords(r)
    ensures forall i :: 0 <= i < |r| ==> DigitsValue(r[i]) == ns[i]
  {
    seq(|ns|, i requires 0 <= i < |ns| => DecimalString(ns[i]))
  }
}
