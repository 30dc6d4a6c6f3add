/** The console front end: the command line with its history, the
    classification of what the user typed, and where each kind of worker
    output is shown. */
module DebugTool {
  import opened Outcomes
  import opened PyStr
  import opened TextFormatter
  import CommandHandler

  const CmdExit := "exit"
  const CmdClear := "clear"
  const CmdHelp := "help"
  const CmdComment := '#'

  /** At most this many history entries are loaded or saved. */
  const HistoryLimit: nat := 1000

  // ----- command history -----

  /** Whether adding `entry` leaves the history as it is: empty entries and
      repeats of the latest entry are not recorded. */
  predicate SkipsEntry(history: seq<string>, entry: string) {
    entry == [] || (history != [] && history[|history| - 1] == entry)
  }

  /** The history after `addHistory(entry)`. */
  function AddedHistory(history: seq<string>, entry: string): (r: seq<string>)
    ensures SkipsEntry(history, entry) ==> r == history
    ensures !SkipsEntry(history, entry) ==> r == history + [entry]
  {
    if SkipsEntry(history, entry) then history else history + [entry]
  }

  /** No entry is empty and no entry repeats the one before it. */
  predicate Deduplicated(history: seq<string>) {
    (forall i :: 0 <= i < |history| ==> history[i] != [])
    && (forall i :: 0 < i < |history| ==> history[i] != history[i - 1])
  }

  /** A history built only by adding entries never holds an empty entry or
      two equal neighbours, and a non-empty entry just added is the latest. */
  lemma AddedHistoryDeduplicated(history: seq<string>, entry: string)
    requires Deduplicated(history)
    ensures Deduplicated(AddedHistory(history, entry))
    ensures entry != [] ==>
              (AddedHistory(history, entry) != []
               && AddedHistory(history, entry)[|AddedHistory(history, entry)| - 1] == entry)
  {
  }

  /** Adding the same entry twice in a row records it at most once. */
  lemma AddedHistoryIdempotent(history: seq<string>, entry: string)
    ensures AddedHistory(AddedHistory(history, entry), entry) == AddedHistory(history, entry)
  {
  }

  /** `[x.strip() for x in lines]`. */
  function StripAll(lines: seq<string>): (r: seq<string>)
    ensures |r| == |lines|
    ensures forall i :: 0 <= i < |r| ==> r[i] == Strip(lines[i]) && IsStripped(r[i])
  {
    seq(|lines|, i requires 0 <= i < |lines| => Strip(lines[i]))
  }

  /** The history read back from a file's text: its last 1000 lines, each
      stripped of surrounding whitespace (newline included). */
  function LoadedHistory(content: string): (r: seq<string>)
    ensures |r| <= HistoryLimit
    ensures forall i :: 0 <= i < |r| ==> IsStripped(r[i])
  {
    StripAll(LastN(ReadLines(content), HistoryLimit))
  }

  /** Stripping lines that are stripped entries plus their line ends gives
      the entries back. */
  lemma StripAllTerminated(xs: seq<string>)
    requires forall i :: 0 <= i < |xs| ==> IsStripped(xs[i])
    ensures StripAll(Terminated(xs)) == xs
  {
    var r := StripAll(Terminated(xs));
    forall i | 0 <= i < |xs| ensures r[i] == xs[i] {
      StripTerminatedLine(xs, i);
    }
  }

  lemma StripTerminatedLine(xs: seq<string>, i: int)
    requires 0 <= i < |xs| && IsStripped(xs[i])
    ensures Strip(Terminated(xs)[i]) == xs[i]
  {
    if i < |xs| - 1 {
      assert Terminated(xs)[i] == xs[i] + "\n";
      StripNewline(xs[i]);
    } else {
      StripStripped(xs[i]);
    }
  }

  /** The text written to the history file: the last 1000 entries, one per
      line, with no newline after the last. */
  function SavedHistory(history: seq<string>): string {
    Join("\n", LastN(history, HistoryLimit))
  }

  /** Entries that are already stripped and hold no line break survive a
      save followed by a load, except that only the last 1000 are kept. */
  lemma SaveThenLoad(history: seq<string>)
    requires forall i :: 0 <= i < |history| ==>
               history[i] != [] && IsStripped(history[i]) && '\n' !in history[i] && '\r' !in history[i]
    ensures LoadedHistory(SavedHistory(history)) == LastN(history, HistoryLimit)
  {
    var xs := LastN(history, HistoryLimit);
    assert forall i :: 0 <= i < |xs| ==> xs[i] == history[|history| - |xs| + i];
    ReadLinesOfJoin(xs);
    assert LastN(Terminated(xs), HistoryLimit) == Terminated(xs);
    StripAllTerminated(xs);
  }

  /** The command input line: the text being edited, the history of entered
      commands and a cursor into it; `histidx == |history|` is the empty
      line below the newest entry. */
  class CmdLineEdit {
    var history: seq<string>
    var histidx: int
    var text: string

    /** Every read `history[histidx]` is in range. */
    predicate Valid()
      reads this
    {
      0 <= histidx <= |history|
    }

    constructor ()
      ensures Valid() && history == [] && histidx == 0 && text == []
    {
      history := [];
      histidx := 0;
      text := [];
    }

    /** The line edit's `clear`. */
    method Clear()
      modifies this
      ensures text == [] && history == old(history) && histidx == old(histidx)
    {
      text := [];
    }

    /** `useHistory(delta)`: move the cursor by `delta` and show that entry;
        moving up from the top does nothing, and moving down to or past the
        end parks the cursor below the newest entry with an empty line. */
    method UseHistory(delta: int)
      requires Valid()
      requires delta < 0 && histidx != 0 ==> histidx + delta >= 0
      requires delta == 0 ==> histidx < |history|
      modifies this
      ensures Valid() && history == old(history)
      ensures delta < 0 && old(histidx) == 0 ==> histidx == 0 && text == old(text)
      ensures delta > 0 && |history| <= old(histidx) + delta ==> histidx == |history| && text == []
      ensures !(delta < 0 && old(histidx) == 0) && !(delta > 0 && |history| <= old(histidx) + delta) ==>
                histidx == old(histidx) + delta && text == history[histidx]
    {
      if delta < 0 && histidx == 0 {
        return;
      }
      if delta > 0 && |history| <= histidx + delta {
        histidx := |history|;
        Clear();
        return;
      }
      histidx := histidx + delta;
      text := history[histidx];
    }

    /** `addHistory(entry)`: record a non-empty entry unless it repeats the
        newest one, and then park the cursor below it. */
    method AddHistory(entry: string)
      requires Valid()
      modifies this
      ensures Valid() && text == old(text)
      ensures history == AddedHistory(old(history), entry)
      ensures histidx == if SkipsEntry(old(history), entry) then old(histidx) else |history|
    {
      if entry != [] {
        if |history| == 0 || history[|history| - 1] != entry {
          history := history + [entry];
          histidx := |history|;
        }
      }
    }

    /** `loadHistory`: `content` is the history file's text, or None when
        there is no such file, in which case nothing changes. */
    method LoadHistory(content: Option<string>)
      requires Valid()
      modifies this
      ensures Valid()
      ensures content == None ==> history == old(history) && histidx == old(histidx)
      ensures content.Some? ==> history == LoadedHistory(content.value) && histidx == |history|
      ensures text == old(text)
    {
      if content.Some? {
        history := LoadedHistory(content.value);
        histidx := |history|;
      }
    }

    /** `saveHistory`: the text written to the history file. */
    method SaveHistory() returns (content: string)
      ensures content == SavedHistory(history)
    {
      content := Join("\n", LastN(history, HistoryLimit));
    }
  }

  // ----- classifying what the user typed -----

  /** What the window does with a command. */
  datatype Action =
    | NoAction
    | CloseWindow
    | ClearOutput
    | Forward(input: string)

  /** `processCommand`: empty input and comments are ignored; otherwise the
      first word decides, and anything but `exit` and `clear` is handed to the
      worker unchanged. Unpacking the words of a blank input raises
      ValueError. */
  function ProcessCommand(userInput: string): (r: Result<Action>)
    ensures r == Ok(NoAction) <==> userInput == [] || userInput[0] == CmdComment
    ensures r.Raised? <==> userInput != [] && userInput[0] != CmdComment && IsBlank(userInput)
    ensures r.Raised? ==> r.error == ValueError
    ensures FirstToken(userInput) == Some(CmdExit) ==> r == Ok(CloseWindow)
    ensures FirstToken(userInput) == Some(CmdClear) ==> r == Ok(ClearOutput)
    ensures (userInput != [] && userInput[0] != CmdComment && FirstToken(userInput).Some?
             && FirstToken(userInput).value != CmdExit && FirstToken(userInput).value != CmdClear)
            ==> r == Ok(Forward(userInput))
  {
    if userInput == [] then Ok(NoAction)
    else if userInput[0] == CmdComment then
      FirstTokenStartsWith(userInput);
      Ok(NoAction)
    else
      SplitHead(userInput);
      var words := Split(userInput);
      if words == [] then Raised(ValueError)
      else if words[0] == CmdExit then Ok(CloseWindow)
      else if words[0] == CmdClear then Ok(ClearOutput)
      else Ok(Forward(userInput))
  }

  /** Input that went through `strip()` is never blank unless empty, so
      classifying it never raises. */
  lemma StrippedNeverRaises(userInput: string)
    requires IsStripped(userInput)
    ensures ProcessCommand(userInput).Ok?
  {
    if userInput != [] {
      StrippedNonEmptyNotBlank(userInput);
    }
  }

  /** Whatever reaches the worker is the typed text unchanged, and the
      worker's parser answers it with its echo and one reply, without
      raising. */
  lemma ForwardedCommandParses(userInput: string, forwarded: string)
    requires ProcessCommand(userInput) == Ok(Forward(forwarded))
    ensures forwarded == userInput
    ensures CommandHandler.Parser(forwarded).raised == None
    ensures |CommandHandler.Parser(forwarded).events| == 2
    ensures CommandHandler.Parser(forwarded).events[0] == CommandHandler.OutEvent(CommandHandler.CommandType, userInput)
  {
    CommandHandler.ParserEchoesFirst(forwarded);
  }

  // ----- showing worker output -----

  /** What is inserted into the output pane. */
  datatype Insertion = PlainText(text: string) | Html(html: string)

  /** `writeOutput`: type 0 is plain text, types 1 and 2 are formatted as a
      command and as an error, anything else is taken as ready-made HTML. */
  function WriteOutput(textType: int, text: string): (r: Insertion)
    ensures r.PlainText? <==> textType == CommandHandler.StdoutType
    ensures !(0 <= textType <= 2) ==> r == Html(text)
  {
    if textType == CommandHandler.StdoutType then PlainText(FStdout(text))
    else if textType == CommandHandler.CommandType then Html(FCommand(text))
    else if textType == CommandHandler.StderrType then Html(FStderr(text))
    else Html(text)
  }

  /** The text of an insertion of the given type, recovered by removing the
      formatting that type adds. */
  function ShownText(textType: int, shown: Insertion): Option<string> {
    match shown
    case PlainText(t) => if textType == CommandHandler.StdoutType then UnformatStdout(t) else None
    case Html(h) =>
      if textType == CommandHandler.CommandType then UnformatCommand(h)
      else if textType == CommandHandler.StderrType then UnformatStderr(h)
      else if textType == CommandHandler.StdoutType then None
      else Some(h)
  }

  /** The pane shows every output's text intact: undoing the type's
      formatting gives the text back, so different texts of one type are
      never shown alike. */
  lemma WriteOutputRecoversText(textType: int, text: string, other: string)
    ensures ShownText(textType, WriteOutput(textType, text)) == Some(text)
    ensures WriteOutput(textType, text) == WriteOutput(textType, other) ==> text == other
  {
    FormattersRoundTrip(text, []);
    FormattersRoundTrip(other, []);
  }

  /** The worker's replies for one command are shown as the command in blue,
      then either the help text as plain text or the complaint in red. */
  lemma ParserOutputShown(userInput: string)
    requires !IsBlank(userInput)
    ensures var events := CommandHandler.Parser(userInput).events;
            |events| == 2
            && WriteOutput(events[0].textType, events[0].text) == Html(FCommand(userInput))
            && (WriteOutput(events[1].textType, events[1].text) == PlainText(FStdout(CommandHandler.HelpString))
                || WriteOutput(events[1].textType, events[1].text)
                   == Html(FStderr(userInput + CommandHandler.NotFoundSuffix)))
  {
    CommandHandler.ParserEchoesFirst(userInput);
  }

  // ----- the window -----

  /** The main window, reduced to its command line. */
  class DebugTool {
    const cmdline: CmdLineEdit

    /** Building the window creates the command line and loads its history
        from the history file's text, if there is one. */
    constructor (historyFile: Option<string>)
      ensures fresh(cmdline) && cmdline.Valid() && cmdline.text == []
      ensures cmdline.histidx == |cmdline.history|
      ensures historyFile == None ==> cmdline.history == []
      ensures historyFile.Some? ==> cmdline.history == LoadedHistory(historyFile.value)
    {
      var line := new CmdLineEdit();
      line.LoadHistory(historyFile);
      cmdline := line;
    }

    /** `onCmdlineRerurnPressed`: take the stripped text, empty the line,
        record the text in the history and classify it, which cannot raise. */
    method OnCmdlineReturnPressed() returns (action: Action)
      requires cmdline.Valid()
      modifies cmdline
      ensures cmdline.Valid() && cmdline.text == []
      ensures cmdline.history == AddedHistory(old(cmdline.history), Strip(old(cmdline.text)))
      ensures cmdline.histidx == if SkipsEntry(old(cmdline.history), Strip(old(cmdline.text)))
                                 then old(cmdline.histidx) else |cmdline.history|
      ensures ProcessCommand(Strip(old(cmdline.text))) == Ok(action)
    {
      var userInput := Strip(cmdline.text);
      cmdline.Clear();
      cmdline.AddHistory(userInput);
      StrippedNeverRaises(userInput);
      action := ProcessCommand(userInput).value;
    }

    /** The Help menu entry hands `help` to the worker. */
    method OnHelp() returns (action: Action)
      ensures action == Forward(CmdHelp)
    {
      FirstTokenOfWord(CmdHelp);
      var r := ProcessCommand(CmdHelp);
      action := r.value;
    }

    /** Closing the window saves the history: the text written to the file. */
    method CloseEvent() returns (content: string)
      ensures content == SavedHistory(cmdline.history)
    {
      content := cmdline.SaveHistory();
    }
  }
}
