/** The background command worker: a FIFO queue of user inputs, drained one
    input at a time by `run`, each input answered by `parser` with typed
    output events (0 normal output, 1 echo of the command, 2 error output). */
module CommandHandler {
  import opened Outcomes
  import opened PyStr

  const HelpString :=
    "help                        \U{5E2E}\U{52A9}\n"
    + "clear                       \U{6E05}\U{5C4F}\n"
    + "exit                        \U{9000}\U{51FA} \n"
    + "rd_fpga_reg addr            \U{8BFB}FPGA\U{5BC4}\U{5B58}\U{5668}\n"
    + "rd_fpga_mem addr length     \U{8BFB}FPGA\U{5185}\U{5B58}\U{7A7A}\U{95F4}\n"
    + "wr_fpga_reg addr val        \U{5199}FPGA\U{79EF}\U{5B58}\U{5668}\n"
    + "wr_fpga_mem addr mem.bin    \U{5199}FPGA\U{5185}\U{5B58}\U{7A7A}\U{95F4}\n"

  const HelpVerb := "help"
  const NotFoundSuffix := ": Command not found"

  /** The output type codes carried by `outSignal`. */
  const StdoutType := 0
  const CommandType := 1
  const StderrType := 2

  /** One emission of `outSignal(int, str)`. */
  datatype OutEvent = OutEvent(textType: int, text: string)

  function WriteCommand(text: string): (r: seq<OutEvent>)
    ensures |r| == 1 && r[0].textType == CommandType && r[0].text == text
  {
    [OutEvent(CommandType, text)]
  }

  function WriteStdout(text: string): (r: seq<OutEvent>)
    ensures |r| == 1 && r[0].textType == StdoutType && r[0].text == text
  {
    [OutEvent(StdoutType, text)]
  }

  function WriteStderr(text: string): (r: seq<OutEvent>)
    ensures |r| == 1 && r[0].textType == StderrType && r[0].text == text
  {
    [OutEvent(StderrType, text)]
  }

  /** Each writer emits one event, with its own type code and the text as
      given; the three codes are distinct, so the kind of output is
      recoverable from the event. */
  lemma WritersTagText(t: string)
    ensures WriteCommand(t) == [OutEvent(1, t)]
    ensures WriteStdout(t) == [OutEvent(0, t)]
    ensures WriteStderr(t) == [OutEvent(2, t)]
  {
  }

  lemma AppendSingletons(a: seq<OutEvent>, b: seq<OutEvent>)
    requires |a| == 1 && |b| == 1
    ensures a + b == [a[0], b[0]]
  {
  }

  /** What one call emitted, and the exception that ended it, if any. */
  datatype Emission = Emission(events: seq<OutEvent>, raised: Option<PyError>)

  /** `parser(userInput)`: echo the input, then answer `help` with the help
      text and anything else with "not found". The echo is emitted before
      `userInput.split()[0]`, which raises IndexError on a blank input. */
  function Parser(userInput: string): (r: Emission)
    ensures IsBlank(userInput) ==> r == Emission([OutEvent(CommandType, userInput)], Some(IndexError))
    ensures FirstToken(userInput) == Some(HelpVerb) ==>
              r == Emission([OutEvent(CommandType, userInput), OutEvent(StdoutType, HelpString)], None)
    ensures !IsBlank(userInput) && FirstToken(userInput) != Some(HelpVerb) ==>
              r == Emission([OutEvent(CommandType, userInput), OutEvent(StderrType, userInput + NotFoundSuffix)], None)
  {
    SplitHead(userInput);
    var echo := WriteCommand(userInput);
    var words := Split(userInput);
    if words == [] then Emission(echo, Some(IndexError))
    else
      var command := words[0];
      assert FirstToken(userInput) == Some(command);
      var answer := if command == HelpVerb then WriteStdout(HelpString)
                    else WriteStderr(userInput + NotFoundSuffix);
      AppendSingletons(echo, answer);
      Emission(echo + answer, None)
  }

  /** Every input is echoed (type 1) before anything else it causes; a
      non-blank input gets exactly one answer after its echo, and only a
      blank input makes `parser` raise. */
  lemma ParserEchoesFirst(userInput: string)
    ensures |Parser(userInput).events| >= 1
    ensures Parser(userInput).events[0] == OutEvent(CommandType, userInput)
    ensures Parser(userInput).raised == None <==> !IsBlank(userInput)
    ensures Parser(userInput).raised == None ==> |Parser(userInput).events| == 2
  {
    if !IsBlank(userInput) {
      assert FirstToken(userInput).Some?;
    }
  }

  /** `help` answers with the help text whatever arguments follow it. */
  lemma HelpIgnoresArguments(args: string)
    ensures Parser(HelpVerb).events == [OutEvent(CommandType, HelpVerb), OutEvent(StdoutType, HelpString)]
    ensures Parser(HelpVerb + " " + args).events
            == [OutEvent(CommandType, HelpVerb + " " + args), OutEvent(StdoutType, HelpString)]
  {
    FirstTokenOfWord(HelpVerb);
    FirstTokenOfWordThenArgs(HelpVerb, args);
    assert !IsBlank(HelpVerb) by { assert !IsSpace(HelpVerb[0]); }
    assert (HelpVerb + " " + args)[0] == 'h';
  }

  /** What `run` emits while draining `queue`: each input is parsed in turn;
      an exception in `parser` ends `run`, and with it the worker. */
  function Drain(queue: seq<string>): (r: Emission)
    ensures r.raised == None || r.raised == Some(IndexError)
    ensures |r.events| <= 2 * |queue|
    ensures r.raised == None ==> |r.events| == 2 * |queue|
    decreases |queue|
  {
    if queue == [] then Emission([], None)
    else
      ParserEchoesFirst(queue[0]);
      var first := Parser(queue[0]);
      if first.raised.Some? then first
      else
        var rest := Drain(queue[1..]);
        Emission(first.events + rest.events, rest.raised)
  }

  /** The inputs still queued when `run` stops. */
  function Unprocessed(queue: seq<string>): (r: seq<string>)
    ensures |r| <= |queue| && r == queue[|queue| - |r|..]
    decreases |queue|
  {
    if queue == [] then []
    else if Parser(queue[0]).raised.Some? then queue[1..]
    else Unprocessed(queue[1..])
  }

  /** No queued input is blank (all whitespace). */
  predicate AllNonBlank(queue: seq<string>) {
    forall i :: 0 <= i < |queue| ==> !IsBlank(queue[i])
  }

  /** Each queued input is parsed exactly once and in submission order: when
      no input is blank, input i produces events 2i (its echo) and 2i+1 (its
      answer), nothing else is emitted and nothing is left queued. */
  lemma {:induction false} DrainInOrder(queue: seq<string>)
    requires AllNonBlank(queue)
    ensures Drain(queue).raised == None
    ensures Unprocessed(queue) == []
    ensures |Drain(queue).events| == 2 * |queue|
    ensures forall i :: 0 <= i < |queue| ==>
              Drain(queue).events[2 * i] == Parser(queue[i]).events[0]
              && Drain(queue).events[2 * i + 1] == Parser(queue[i]).events[1]
    decreases |queue|
  {
    if queue != [] {
      var rest := queue[1..];
      assert AllNonBlank(rest) by {
        forall i | 0 <= i < |rest| ensures !IsBlank(rest[i]) { assert rest[i] == queue[i + 1]; }
      }
      DrainInOrder(rest);
      var first := Parser(queue[0]).events;
      var d := Drain(rest).events;
      assert Drain(queue).events == first + d;
      forall i | 0 <= i < |queue|
        ensures (first + d)[2 * i] == Parser(queue[i]).events[0]
        ensures (first + d)[2 * i + 1] == Parser(queue[i]).events[1]
      {
        if i == 0 {
          assert (first + d)[0] == first[0] && (first + d)[1] == first[1];
        } else {
          assert queue[i] == rest[i - 1];
          ShiftPair(first, d, i);
        }
      }
    }
  }

  lemma ShiftPair(first: seq<OutEvent>, d: seq<OutEvent>, i: int)
    requires |first| == 2 && 1 <= i && 2 * i + 1 < 2 + |d|
    ensures (first + d)[2 * i] == d[2 * (i - 1)]
    ensures (first + d)[2 * i + 1] == d[2 * (i - 1) + 1]
  {
  }

  /** A blank input stops the worker: everything before it is answered, the
      blank input is echoed, and the inputs after it stay queued. */
  lemma {:induction false} DrainStopsAtBlank(before: seq<string>, blank: string, after: seq<string>)
    requires AllNonBlank(before) && IsBlank(blank)
    ensures Drain(before + [blank] + after)
            == Emission(Drain(before).events + [OutEvent(CommandType, blank)], Some(IndexError))
    ensures Unprocessed(before + [blank] + after) == after
    decreases |before|
  {
    var q := before + [blank] + after;
    if before == [] {
      assert q[0] == blank && q[1..] == after;
      assert Drain(before).events + [OutEvent(CommandType, blank)] == [OutEvent(CommandType, blank)];
    } else {
      assert q[0] == before[0];
      assert q[1..] == before[1..] + [blank] + after;
      assert AllNonBlank(before[1..]) by {
        forall i | 0 <= i < |before| - 1 ensures !IsBlank(before[1..][i]) { assert before[1..][i] == before[i + 1]; }
      }
      var p := Parser(before[0]);
      assert p.raised == None;
      DrainStopsAtBlank(before[1..], blank, after);
      assert Drain(q) == Emission(p.events + Drain(q[1..]).events, Drain(q[1..]).raised);
      assert Drain(before) == Emission(p.events + Drain(before[1..]).events, Drain(before[1..]).raised);
      AppendAssoc(p.events, Drain(before[1..]).events, [OutEvent(CommandType, blank)]);
    }
  }

  lemma AppendAssoc(a: seq<OutEvent>, b: seq<OutEvent>, c: seq<OutEvent>)
    ensures a + (b + c) == (a + b) + c
  {
  }

  /** Draining a queue in two parts emits the same as draining it whole, as
      long as the first part has no blank input. */
  lemma {:induction false} DrainAppend(q1: seq<string>, q2: seq<string>)
    requires AllNonBlank(q1)
    ensures Drain(q1 + q2) == Emission(Drain(q1).events + Drain(q2).events, Drain(q2).raised)
    ensures Unprocessed(q1 + q2) == Unprocessed(q2)
    decreases |q1|
  {
    var q := q1 + q2;
    if q1 == [] {
      assert q == q2;
      assert Drain(q1).events + Drain(q2).events == Drain(q2).events;
    } else {
      assert q[0] == q1[0] && q[1..] == q1[1..] + q2;
      assert AllNonBlank(q1[1..]) by {
        forall i | 0 <= i < |q1| - 1 ensures !IsBlank(q1[1..][i]) { assert q1[1..][i] == q1[i + 1]; }
      }
      DrainAppend(q1[1..], q2);
      DrainCons(q);
      DrainCons(q1);
      AppendAssoc(Parser(q1[0]).events, Drain(q1[1..]).events, Drain(q2).events);
    }
  }

  /** Draining a queue that starts with a non-blank input: its answer, then
      whatever draining the rest gives. */
  lemma DrainCons(q: seq<string>)
    requires q != [] && !IsBlank(q[0])
    ensures Drain(q) == Emission(Parser(q[0]).events + Drain(q[1..]).events, Drain(q[1..]).raised)
    ensures Unprocessed(q) == Unprocessed(q[1..])
  {
    ParserEchoesFirst(q[0]);
  }

  /** A single non-blank input is answered and nothing stays queued. */
  lemma DrainSingle(userInput: string)
    requires !IsBlank(userInput)
    ensures Drain([userInput]) == Emission(Parser(userInput).events, None)
    ensures Unprocessed([userInput]) == []
  {
    ParserEchoesFirst(userInput);
    assert [userInput][1..] == [];
    assert Parser(userInput).events + [] == Parser(userInput).events;
  }

  /** The worker: its input queue, everything it has emitted so far, and
      whether an exception in `parser` has ended it. */
  class Handler {
    var userInputQueue: seq<string>
    var emitted: seq<OutEvent>
    var stopped: bool

    constructor ()
      ensures userInputQueue == [] && emitted == [] && !stopped
    {
      userInputQueue := [];
      emitted := [];
      stopped := false;
    }

    /** `process`: enqueue at the tail. */
    method Process(userInput: string)
      modifies this
      ensures userInputQueue == old(userInputQueue) + [userInput]
      ensures emitted == old(emitted) && stopped == old(stopped)
    {
      userInputQueue := userInputQueue + [userInput];
    }

    /** `run`: take inputs from the head and parse each, until the queue is
        empty (where the thread would block) or `parser` raises (which ends
        the thread for good: a worker that has stopped answers nothing). */
    method Run() returns (raised: Option<PyError>)
      modifies this
      ensures old(stopped) ==> raised == None && stopped
                               && emitted == old(emitted) && userInputQueue == old(userInputQueue)
      ensures !old(stopped) ==> emitted == old(emitted) + Drain(old(userInputQueue)).events
      ensures !old(stopped) ==> raised == Drain(old(userInputQueue)).raised
      ensures !old(stopped) ==> userInputQueue == Unprocessed(old(userInputQueue))
      ensures stopped == (old(stopped) || raised.Some?)
    {
      raised := None;
      if stopped {
        return;
      }
      while userInputQueue != []
        invariant old(emitted) + Drain(old(userInputQueue)).events == emitted + Drain(userInputQueue).events
        invariant Drain(old(userInputQueue)).raised == Drain(userInputQueue).raised
        invariant Unprocessed(old(userInputQueue)) == Unprocessed(userInputQueue)
        invariant !stopped && raised == None
        decreases |userInputQueue|
      {
        ghost var before := userInputQueue;
        var userInput := userInputQueue[0];
        userInputQueue := userInputQueue[1..];
        var out := Parser(userInput);
        AppendAssoc(emitted, out.events, Drain(userInputQueue).events);
        emitted := emitted + out.events;
        if out.raised.Some? {
          assert Drain(before) == out;
          raised := out.raised;
          stopped := true;
          return;
        }
        assert Drain(before) == Emission(out.events + Drain(userInputQueue).events, Drain(userInputQueue).raised);
      }
    }
  }

  /** Two inputs submitted one after the other are answered in that order,
      each with its echo first. */
  method SubmitTwiceAndRun(h: Handler, first: string, second: string) returns (raised: Option<PyError>)
    requires h.userInputQueue == [] && !h.stopped
    requires !IsBlank(first) && !IsBlank(second)
    modifies h
    ensures raised == None && h.userInputQueue == [] && !h.stopped
    ensures h.emitted == old(h.emitted) + Parser(first).events + Parser(second).events
  {
    h.Process(first);
    h.Process(second);
    assert h.userInputQueue == [first] + [second];
    assert AllNonBlank([first]);
    DrainAppend([first], [second]);
    DrainSingle(first);
    DrainSingle(second);
    ghost var e := h.emitted;
    raised := h.Run();
    AppendAssoc(e, Parser(first).events, Parser(second).events);
  }
}
