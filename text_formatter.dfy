/** The rich-text wrappers the console applies to each kind of output:
    a fixed prefix and suffix around the text, which is inserted verbatim
    (no escaping of '<', '>' or '&'). */
module TextFormatter {
  import opened Outcomes

  const CommandOpen := "<font color=\"blue\"><b>&gt; "
  const CommandClose := "</b></font>" + "<br />"
  const StderrOpen := "<font color=\"red\"><b>"
  const StderrClose := "</b></font>" + "<br /><br />"
  const StdoutOpen := ""
  const StdoutClose := "\n"

  /** The user's command: blue, bold, after a '>' marker, then a line break. */
  function FCommand(text: string): (r: string)
    ensures Unwrap(CommandOpen, CommandClose, r) == Some(text)
  {
    UnwrapWrap(CommandOpen, CommandClose, text);
    CommandOpen + text + CommandClose
  }

  /** Error output: red, bold, then two line breaks. */
  function FStderr(text: string): (r: string)
    ensures Unwrap(StderrOpen, StderrClose, r) == Some(text)
  {
    UnwrapWrap(StderrOpen, StderrClose, text);
    StderrOpen + text + StderrClose
  }

  /** Normal output: the text and a newline. */
  function FStdout(text: string): (r: string)
    ensures Unwrap(StdoutOpen, StdoutClose, r) == Some(text)
  {
    UnwrapWrap(StdoutOpen, StdoutClose, text);
    assert StdoutOpen + text + StdoutClose == text + "\n";
    text + "\n"
  }

  /** Inverse of wrapping `open + t + close`: the text between the two, if
      `s` has that shape. */
  function Unwrap(open: string, close: string, s: string): (r: Option<string>)
    ensures r.Some? ==> open + r.value + close == s
    ensures r.Some? <==> |open| + |close| <= |s| && s[..|open|] == open && s[|s| - |close|..] == close
  {
    if |open| + |close| <= |s| && s[..|open|] == open && s[|s| - |close|..] == close
    then
      var t := s[|open|..|s| - |close|];
      assert s == s[..|open|] + t + s[|s| - |close|..];
      Some(t)
    else None
  }

  lemma UnwrapWrap(open: string, close: string, t: string)
    ensures Unwrap(open, close, open + t + close) == Some(t)
  {
    var s := open + t + close;
    assert s[..|open|] == open;
    assert s[|s| - |close|..] == close;
    assert s[|open|..|s| - |close|] == t;
  }

  function UnformatCommand(s: string): Option<string> {
    Unwrap(CommandOpen, CommandClose, s)
  }

  function UnformatStderr(s: string): Option<string> {
    Unwrap(StderrOpen, StderrClose, s)
  }

  function UnformatStdout(s: string): Option<string> {
    Unwrap(StdoutOpen, StdoutClose, s)
  }

  /** Each formatter is undone by removing its prefix and suffix, and a string
      that unformats to `t` is exactly the formatting of `t`. */
  lemma FormattersRoundTrip(t: string, s: string)
    ensures UnformatCommand(FCommand(t)) == Some(t)
    ensures UnformatStderr(FStderr(t)) == Some(t)
    ensures UnformatStdout(FStdout(t)) == Some(t)
    ensures UnformatCommand(s) == Some(t) ==> FCommand(t) == s
    ensures UnformatStderr(s) == Some(t) ==> FStderr(t) == s
    ensures UnformatStdout(s) == Some(t) ==> FStdout(t) == s
  {
    UnwrapWrap(CommandOpen, CommandClose, t);
    UnwrapWrap(StderrOpen, StderrClose, t);
    UnwrapWrap(StdoutOpen, StdoutClose, t);
    assert FStdout(t) == StdoutOpen + t + StdoutClose;
  }

  /** Different texts never format to the same output. */
  lemma FormattersInjective(t: string, u: string)
    ensures FCommand(t) == FCommand(u) ==> t == u
    ensures FStderr(t) == FStderr(u) ==> t == u
    ensures FStdout(t) == FStdout(u) ==> t == u
  {
    FormattersRoundTrip(t, FCommand(u));
    FormattersRoundTrip(u, FCommand(u));
    FormattersRoundTrip(t, FStderr(u));
    FormattersRoundTrip(u, FStderr(u));
    FormattersRoundTrip(t, FStdout(u));
    FormattersRoundTrip(u, FStdout(u));
  }

  /** Each formatter adds a fixed number of characters and places the text,
      unescaped, right after its prefix. */
  lemma FormattersShape(t: string)
    ensures |FCommand(t)| == |t| + 44 && FCommand(t)[27..27 + |t|] == t
    ensures |FStderr(t)| == |t| + 44 && FStderr(t)[21..21 + |t|] == t
    ensures |FStdout(t)| == |t| + 1 && FStdout(t)[..|t|] == t
  {
    assert |CommandOpen| == 27 && |CommandClose| == 17;
    assert |StderrOpen| == 21 && |StderrClose| == 23;
    assert FCommand(t)[27..27 + |t|] == t;
    assert FStderr(t)[21..21 + |t|] == t;
  }
}
