# DebugTool console core in Dafny

DebugTool is a PyQt5 debugging console. The user types a command into a line
edit that keeps a history. The window either acts on the command itself
(`exit`, `clear`, comments starting with `#`) or hands it to a background
worker (`Handler`). The worker echoes each input and answers it with the help
text or "Command not found". Its output is sent as typed events (0 normal,
1 command echo, 2 error), which the window formats as rich text. Debug plugins
(`DPlugin` and the FPGA and ARM handlers) recognise their own verbs by the
first word of a command, but only while activated.

The model has eight modules in seven files: both plugins share `plugins.dfy`:

- `Outcomes` (`outcomes.dfy`): `Option`, and `Result`, which carries the
  Python exception a call raises (`ValueError`, `IndexError`).
- `PyStr` (`pystr.dfy`): the Python string and list semantics the code relies
  on.
  - `str.isspace` over its full Unicode set.
  - `strip`, `split()`, `split(maxsplit=1)`, `sep.join`, `readlines` on
    decoded text, `str(n)` and `xs[-n:]`.
  - Each comes with the properties the rest of the model needs, proved once.
- `TextFormatter` (`text_formatter.dfy`): `fCommand`, `fStderr`, `fStdout`,
  and their inverses.
- `Categories` (`categories.dfy`): the status codes, and the `DPlugin` class
  with its activation flag.
- `FpgaPlugin`, `ArmPlugin` (`plugins.dfy`): each plugin's `execCommand` as a
  function of the activation flag and the command text.
- `CommandHandler` (`command_handler.dfy`):
  - `HELP_STRING`, the three writers and `parser`.
  - `Drain`, a specification of what `run` emits for a queue.
  - The `Handler` class, whose `Run` loop is proved against `Drain`.
- `DebugTool` (`debug_tool.dfy`):
  - The `CmdLineEdit` class (history list, cursor, text) with its history
    functions.
  - `processCommand` and `writeOutput` as classifications that return what
    the window does.
  - The window's return-pressed, help and close handlers.

Python exceptions are part of the model rather than preconditions:

- Unpacking the words of a blank command raises `ValueError`, in
  `processCommand` and in the plugins.
- `parser` on a blank input echoes it and then raises `IndexError` at
  `split()[0]`.
- An exception in `parser` ends `run`, and the inputs behind the blank one
  stay queued.

## Model

| member | source | states |
|---|---|---|
| TextFormatter.FCommand | TextFormatter.py:11-16 | Unwrapping the blue bold prefix and the line break from fCommand(text) gives the text back |
| TextFormatter.FStderr | TextFormatter.py:18-23 | Unwrapping the red bold prefix and the two line breaks from fStderr(text) gives the text back |
| TextFormatter.FStdout | TextFormatter.py:25-29 | fStdout(text) is the text followed by one newline, and removing that newline gives the text back |
| TextFormatter.Unwrap | TextFormatter.py:11-29 | Removing a fixed prefix and suffix succeeds exactly when the string has that shape, and the prefix, the result and the suffix rebuild the string |
| TextFormatter.UnwrapWrap | TextFormatter.py:11-29 | Wrapping a text and then unwrapping it gives the text back |
| TextFormatter.FormattersRoundTrip | TextFormatter.py:11-29 | Each of fCommand, fStderr, fStdout is undone by its unformatter, and a string that unformats to t is exactly the formatting of t |
| TextFormatter.FormattersInjective | TextFormatter.py:11-29 | Different texts never format to the same output, for each of the three formatters |
| TextFormatter.FormattersShape | TextFormatter.py:11-29 | Each formatter adds a fixed number of characters (44, 44, 1) and puts the text unescaped right after its prefix (offsets 27, 21, 0) |
| Categories.StatusOfCode | categories.py:19-21 | An integer is a status code exactly when it is 0, 1 or 2 |
| Categories.StatusCodesDistinct | categories.py:19-21 | EXEC_NOTFOUND, EXEC_SUCCESS and EXEC_FAILED have distinct codes, and decoding a status's code gives back that status |
| Categories.DPlugin.constructor | categories.py:23-24 | A plugin starts inactive, with the given name |
| Categories.DPlugin.Activate | categories.py:26-27 | After activate the plugin is active, whatever it was before |
| Categories.DPlugin.Deactivate | categories.py:29-30 | After deactivate the plugin is inactive, whatever it was before |
| Categories.DPlugin.IsActivate | categories.py:32-33 | Returns exactly the current activation flag and changes nothing |
| Categories.DPlugin.ExecCommand | categories.py:35-37 | The base executor answers (EXEC_NOTFOUND, '') to every command |
| FpgaPlugin.ExecCommand | plugins/fpga.py:16-27 | Inactive: NOTFOUND for any text. Active: ValueError for a blank command; read_fpga gives SUCCESS "1 2 3 4 5" whatever the arguments; write_fpga gives SUCCESS "write fpga success"; any other first word gives NOTFOUND; never FAILED |
| FpgaPlugin.ReadValuesText | plugins/fpga.py:20-21 | Joining the decimal forms of 0x1..0x5 with spaces gives "1 2 3 4 5" |
| FpgaPlugin.ReadReplyDecodes | plugins/fpga.py:20-21 | The read_fpga reply splits back into one numeral per register value, each denoting that value |
| FpgaPlugin.SmallDecimalStrings | plugins/fpga.py:21 | map(str, [0x1, ..., 0x5]) gives the one-digit strings "1" to "5" |
| FpgaPlugin.JoinCons | plugins/fpga.py:21 | Joining a list of two or more entries puts the first entry, then the separator, then the join of the rest |
| ArmPlugin.ExecCommand | plugins/arm.py:16-27 | The same cases with read_arm, write_arm and "write arm success"; read_arm answers the same register values 0x1..0x5 as read_fpga |
| ArmPlugin.VerbsDisjoint | plugins/arm.py:16-27 | No command text gets SUCCESS from both the ARM and the FPGA plugin, whatever their activation flags |
| PyStr.LStrip | DebugTool.py:309 | The result is a suffix of the input, what was removed is all whitespace, and the result does not start with whitespace |
| PyStr.RStrip | DebugTool.py:309 | The result is a prefix of the input, what was removed is all whitespace, and the result does not end with whitespace |
| PyStr.IsSpace | DebugTool.py:309 | Exactly the characters Python 3's str.isspace accepts, which are the ones strip() and split() remove (a predicate, with no contract of its own) |
| PyStr.Strip | DebugTool.py:309 | A stripped string neither starts nor ends with whitespace, and it is empty exactly when the input is blank |
| PyStr.StripStripped | DebugTool.py:309 | Stripping a string that is already stripped changes nothing |
| PyStr.StripIdempotent | DebugTool.py:309 | Stripping twice is the same as stripping once |
| PyStr.StripNewline | DebugTool.py:123 | A stripped entry read back with its line end strips to itself |
| PyStr.FirstToken | DebugTool.py:325 | There is a first word exactly when the input is not blank, and the word is non-empty and holds no whitespace |
| PyStr.Split | CommandHandler.py:92 | Every word of split() is non-empty and holds no whitespace |
| PyStr.SplitHead | CommandHandler.py:92 | split() is empty exactly for blank input, and otherwise its first element is the first word |
| PyStr.SplitKeepsNonSpace | CommandHandler.py:92 | The words of split(), concatenated, are exactly the input's non-whitespace characters in order |
| PyStr.SplitWord | plugins/fpga.py:21 | A single word with no whitespace splits into itself |
| PyStr.SplitWordThen | plugins/fpga.py:21 | A word, a space and any text split into the word followed by the words of the text |
| PyStr.Join | DebugTool.py:128 | sep.join: the entries with the separator between neighbours (a definition, with no contract of its own; SplitJoin and ReadLinesOfJoin state what reading it back gives) |
| PyStr.SplitJoin | plugins/fpga.py:21 | Joining non-empty whitespace-free words with a space is undone by split() |
| PyStr.SplitMax1 | plugins/fpga.py:18 | split(maxsplit=1) has at most two parts, is empty exactly for blank input, and starts with the first word |
| PyStr.SplitMax1AgreesWithSplit | plugins/fpga.py:18 | split(maxsplit=1) has the same first word as split(), and its remainder splits into exactly the remaining words |
| PyStr.FirstTokenOfWordThenArgs | CommandHandler.py:92-94 | The first word of a word followed by a space and any arguments is that word |
| PyStr.FirstTokenStartsWith | DebugTool.py:321-325 | Input that starts with a non-space character has a first word that starts with that same character |
| PyStr.ReadLines | DebugTool.py:122 | readlines loses nothing (the lines concatenate to the text), no line is empty, every line but the last ends with a newline, and no line holds a newline anywhere but at its end |
| PyStr.ReadLinesOfJoin | DebugTool.py:122-128 | Reading back newline-joined entries (no newline inside, last one non-empty) gives the entries, each but the last with its newline |
| PyStr.LastN | DebugTool.py:122 | xs[-n:] has min(len, n) elements, which are the last ones of xs in order |
| PyStr.DecimalString | plugins/fpga.py:21 | str(n) is a non-empty string of decimal digits that denotes n, with no leading zero unless n is 0, one character long exactly for n < 10 |
| PyStr.DecimalStrings | plugins/fpga.py:21 | map(str, ns) has one entry per number, each a non-empty whitespace-free word whose digits denote that number |
| CommandHandler.WriteCommand | CommandHandler.py:59-63 | writeCommand emits exactly one event, of type 1 (command echo), carrying the text unchanged |
| CommandHandler.WriteStdout | CommandHandler.py:65-69 | writeStdout emits exactly one event, of type 0 (normal output), carrying the text unchanged |
| CommandHandler.WriteStderr | CommandHandler.py:71-75 | writeStderr emits exactly one event, of type 2 (error output), carrying the text unchanged |
| CommandHandler.WritersTagText | CommandHandler.py:59-75 | writeCommand, writeStdout and writeStderr each emit one event, with type 1, 0 and 2 and the text unchanged |
| CommandHandler.Parser | CommandHandler.py:85-97 | Blank input: the echo, then IndexError. First word help: the echo, then the help text as normal output. Any other first word: the echo, then "<input>: Command not found" as error output |
| CommandHandler.ParserEchoesFirst | CommandHandler.py:91-97 | The echo (1, input) is always the first event; parser raises exactly for blank input; otherwise it emits exactly two events |
| CommandHandler.HelpIgnoresArguments | CommandHandler.py:92-95 | help and help followed by any arguments are both answered with the echo and the help text |
| CommandHandler.Drain | CommandHandler.py:77-97 | Draining a queue can only raise IndexError, emits at most two events per input, and exactly two per input when nothing is raised |
| CommandHandler.Unprocessed | CommandHandler.py:81-83 | The inputs left when run stops are a suffix of the queue |
| CommandHandler.DrainInOrder | CommandHandler.py:77-97 | With no blank input, run parses every queued input exactly once and in order: input i gives events 2i (its echo) and 2i+1 (its answer), nothing else is emitted, and nothing stays queued |
| CommandHandler.DrainStopsAtBlank | CommandHandler.py:81-92 | A blank input stops run: every input before it is answered, the blank input is echoed, IndexError is raised, and the inputs after it stay queued |
| CommandHandler.DrainAppend | CommandHandler.py:53-83 | Draining a queue whose first part has no blank input emits the first part's events and then the second part's |
| CommandHandler.DrainCons | CommandHandler.py:81-83 | Draining a queue that starts with a non-blank input gives that input's answer, then what draining the rest gives |
| CommandHandler.DrainSingle | CommandHandler.py:81-83 | A single non-blank queued input is answered exactly as parser answers it, and nothing stays queued |
| CommandHandler.Handler.constructor | CommandHandler.py:43-48 | A new worker has an empty queue, has emitted nothing and has not stopped |
| CommandHandler.Handler.Process | CommandHandler.py:53-57 | process appends the input at the tail of the queue and emits nothing; it does not restart a stopped worker |
| CommandHandler.Handler.Run | CommandHandler.py:77-83 | run takes inputs from the head and appends to the output exactly what Drain specifies for the old queue; it reports the exception that stopped it, leaves the unprocessed inputs queued and marks the worker stopped; a stopped worker answers nothing and changes nothing |
| CommandHandler.SubmitTwiceAndRun | CommandHandler.py:53-83 | Two non-blank inputs submitted one after the other to a running worker are answered in that order, each echo before its answer, the queue ends empty and the worker keeps running |
| DebugTool.AddedHistory | DebugTool.py:107-114 | An empty entry, or one equal to the newest entry, leaves the history unchanged; any other entry is appended |
| DebugTool.AddedHistoryDeduplicated | DebugTool.py:111-114 | Adding keeps a history free of empty entries and of equal neighbours, and a non-empty entry just added is the newest |
| DebugTool.AddedHistoryIdempotent | DebugTool.py:111-114 | Adding the same entry twice in a row records it at most once |
| DebugTool.StripAll | DebugTool.py:123 | Each loaded entry is the corresponding line stripped, so it neither starts nor ends with whitespace |
| DebugTool.SavedHistory | DebugTool.py:128 | The text saved is the last 1000 entries joined by newlines (a definition, with no contract of its own; SaveThenLoad states what loading it back gives) |
| DebugTool.LoadedHistory | DebugTool.py:120-124 | A loaded history has at most 1000 entries, each stripped |
| DebugTool.StripAllTerminated | DebugTool.py:123 | Stripping stripped entries that carry their line ends gives the entries back |
| DebugTool.SaveThenLoad | DebugTool.py:116-130 | Loading what was saved gives back the last 1000 entries, for entries that are non-empty, stripped and free of '\n' and '\r' |
| DebugTool.CmdLineEdit.constructor | DebugTool.py:70-75 | A new command line has an empty history with the cursor at 0, which satisfies 0 <= histidx <= len(history) |
| DebugTool.CmdLineEdit.Clear | DebugTool.py:100 | clear empties the text and leaves the history and the cursor as they were |
| DebugTool.CmdLineEdit.UseHistory | DebugTool.py:88-105 | Moving up at the top does nothing. Moving down to or past the end puts the cursor at len(history) and clears the text. Otherwise the cursor moves by delta and the text becomes that entry. The history is unchanged and the cursor stays in range, so the entry read is always in range |
| DebugTool.CmdLineEdit.AddHistory | DebugTool.py:107-114 | The history becomes AddedHistory of the old one; when the entry is recorded the cursor moves to the end, otherwise it stays; the text and the cursor invariant are kept |
| DebugTool.CmdLineEdit.LoadHistory | DebugTool.py:116-124 | With no history file nothing changes; otherwise the history is the file's last 1000 lines stripped and the cursor is at its end |
| DebugTool.CmdLineEdit.SaveHistory | DebugTool.py:126-130 | The text written is the last 1000 entries joined by newlines (see SaveThenLoad for what reading it back gives) |
| DebugTool.ProcessCommand | DebugTool.py:315-333 | Empty input or a comment does nothing, and only those do. Other blank input raises ValueError. First word exit closes the window and clear clears the output. Anything else is forwarded unchanged as the full string |
| DebugTool.StrippedNeverRaises | DebugTool.py:309-325 | Classifying input that went through strip() never raises |
| DebugTool.ForwardedCommandParses | DebugTool.py:321-333 | What the window forwards is the typed text itself, and the worker's parser answers it with the echo and one reply without raising |
| DebugTool.WriteOutput | DebugTool.py:335-352 | Only type 0 is inserted as plain text, and a type other than 0, 1 and 2 inserts the raw text as HTML |
| DebugTool.WriteOutputRecoversText | DebugTool.py:344-352 | For every type, removing that type's formatting from what is inserted gives the text back, so different texts of one type are never shown alike |
| DebugTool.ParserOutputShown | DebugTool.py:335-352 | A non-blank command is shown as the blue echo fCommand(input), then either the help text as plain text or the red fStderr complaint |
| DebugTool.DebugTool.constructor | DebugTool.py:245-250 | Building the window loads the history file into a fresh command line, or leaves the history empty when there is no file; the cursor is at the end of the history and the text is empty |
| DebugTool.DebugTool.OnCmdlineReturnPressed | DebugTool.py:304-313 | The line is emptied and the stripped text is added to the history; the cursor moves to the end when the entry is recorded and stays put when it is skipped (empty, or equal to the newest entry); classifying the text never raises, and the action is processCommand of the stripped text |
| DebugTool.DebugTool.OnHelp | DebugTool.py:298-302 | The Help menu forwards "help" to the worker |
| DebugTool.DebugTool.CloseEvent | DebugTool.py:369-374 | Closing the window saves the last 1000 history entries joined by newlines |

## Left out

- The Qt user interface is not modelled:
  - widgets, menus, the toolbar, icons and `resource_path`;
  - window sizing, signals and slots;
  - `keyPressEvent`, which only calls `useHistory(-1)` and `useHistory(1)` for the arrow keys.
- DebugTool.CmdLineEdit.UseHistory: the preconditions rule out two cases, since the only callers pass -1 or +1:
  - a negative step that would take the cursor below 0 from a non-zero position, where Python would index from the end;
  - a zero step at the end of the history, where Python raises IndexError.
- DebugTool.CmdLineEdit.LoadHistory: the model does not open or read the file.
  - It takes the file's decoded text, or None when there is no file.
  - Encoding errors are not modelled.
  - Universal-newline translation of "\r\n" and "\r" is not modelled; lines are split at "\n" only.
- DebugTool.CmdLineEdit.SaveHistory and DebugTool.DebugTool.CloseEvent return the text instead of writing it to the file.
- DebugTool.SaveThenLoad: it holds only for entries that are non-empty, stripped and free of '\n' and '\r'.
  - A '\r' inside an entry would become a line break under universal newlines, which the model's `ReadLines` does not translate.
  - Entries added on return-pressed are stripped and non-empty.
  - Entries loaded from a file may be empty, and an empty last entry is not read back.
- `HandlerManager` is not part of this model: DebugTool.py:29 imports it from CommandHandler.py, which defines only `Handler`. The window code calls it for:
  - plugin discovery, activation and aggregation of results;
  - `processInput` and `processFile`;
  - the Open File dialog.

  `ProcessCommand` returns `Forward(input)` where the window would call `processInput`. The plugin activate/deactivate menu handlers are left out for the same reason.
- CommandHandler.Handler.Run: the model does not capture concurrency.
  - The `QThread` and the blocking `Queue.get` are not modelled.
  - The model drains the queue it is given and returns when the queue is empty, where the thread would block for more input.
  - An exception in `parser` is returned as `raised` and marks the worker stopped, where in the repository it ends the thread. Under PyQt5 an unhandled exception in `run` may instead abort the whole process; the model keeps the window running.
  - `__del__`/`wait` is not modelled.
- DebugTool.WriteOutput returns the insertion; the pane's text and `moveCursor` are not modelled.
- Yapsy plugin discovery (`IPlugin`) is a foreign library. The class-level default name "No Handler" is replaced by a constructor argument.
- The plugins' `execCommand` is modelled as a function of the activation flag and the text, so it cannot change the flag.
- The commented-out `IsInt`, `ReadOneBin` and `execute` (CommandHandler.py:99-138) are dead code and are not modelled.
- The unused constants `ESYNTAX`, `CMD_*` and `VALID_CMDS` (CommandHandler.py:9-23) are not modelled.
- The help text lists `rd_fpga_reg` and related commands, which `parser` does not implement: they get "Command not found", as modelled.
