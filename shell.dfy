/** The interactive shell (internal/cli/shell.go): a prompt, a single-shot `closed`
    flag, and a loop that answers one input event at a time. The input goroutine and
    its channel are replaced by a scripted sequence of events, in the order the loop
    receives them. */
module Cli {
  import opened Wrappers
  import opened Text
  import opened Errors
  import opened Host

  const DefaultPrompt := "peared> "
  const Welcome := "Welcome to the Peared shell! Type 'help' to see available commands.\n"
  const HelpHeader := "Available commands:\n"
  const HelpHelp := "  help  - show this message\n"
  const HelpExit := "  exit  - leave the shell\n"
  const HelpQuit := "  quit  - alias for exit\n"
  const HelpText := HelpHeader + HelpHelp + HelpExit + HelpQuit
  const Goodbye := "Goodbye!\n"

  const NilShellContext := Fault("nil context passed to Shell.Run")
  const ShellClosed := Fault("shell already closed")

  /** A ShellOption. */
  datatype ShellOption = WithPrompt(prompt: string)

  /** The prompt after applying the options in order to `start`; nil options are skipped. */
  function PromptAfter(start: string, opts: seq<Option<ShellOption>>): string
  {
    if opts == [] then start
    else
      var before := PromptAfter(start, opts[..|opts| - 1]);
      var last := opts[|opts| - 1];
      if last.Some? then last.value.prompt else before
  }

  /** The last WithPrompt wins; without one the prompt is the starting one. */
  lemma {:induction false} PromptIsLastWithPrompt(start: string, opts: seq<Option<ShellOption>>)
    ensures (forall i :: 0 <= i < |opts| ==> opts[i].None?) ==> PromptAfter(start, opts) == start
    ensures forall i :: 0 <= i < |opts| && opts[i].Some? && (forall j :: i < j < |opts| ==> opts[j].None?) ==>
      PromptAfter(start, opts) == opts[i].value.prompt
  {
    if opts != [] {
      var init := opts[..|opts| - 1];
      PromptIsLastWithPrompt(start, init);
      assert forall i :: 0 <= i < |init| ==> init[i] == opts[i];
      forall i | 0 <= i < |opts| && opts[i].Some? && (forall j :: i < j < |opts| ==> opts[j].None?)
        ensures PromptAfter(start, opts) == opts[i].value.prompt
      {
        if i < |opts| - 1 {
          assert opts[|opts| - 1].None?;
          assert PromptAfter(start, opts) == PromptAfter(start, init);
        }
      }
    }
  }

  /** What arrives at the loop's select: a line with the reader's error (if any), the
      context being done, or the input channel closed. */
  datatype Event = Input(line: string, err: Option<Error>) | Cancelled | ChannelClosed

  /** How Run ends: it returns, or it is still waiting when the script runs out. */
  datatype Outcome = Finished(err: Option<Error>) | Waiting

  /** What a dispatched command does: answer and keep going, or say goodbye. */
  datatype Action = Keep(text: string) | Leave

  /** Dispatch on the trimmed command, compared in lower case. */
  function Respond(cmd: string): Action
  {
    var lower := ToLower(cmd);
    if lower == "" || lower == "#" then Keep("")
    else if lower == "exit" || lower == "quit" then Leave
    else if lower == "help" then Keep(HelpText)
    else Keep("Unknown command: " + cmd + "\n")
  }

  /** Only exit and quit, in any letter case, leave; an unknown command is echoed as typed. */
  lemma RespondCases(cmd: string)
    ensures Respond(cmd) == Leave <==> ToLower(cmd) == "exit" || ToLower(cmd) == "quit"
    ensures Respond(cmd) == Keep("") <==> ToLower(cmd) == "" || ToLower(cmd) == "#"
    ensures ToLower(cmd) !in {"", "#", "exit", "quit", "help"} ==> Respond(cmd) == Keep("Unknown command: " + cmd + "\n")
  {
    if Respond(cmd) == Keep("") {
      assert |"Unknown command: " + cmd + "\n"| > 0;
      assert |HelpText| > 0;
    }
  }

  /** Everything the loop writes, and how it ends. */
  datatype Transcript = Transcript(text: string, outcome: Outcome)

  /** What one received event makes the loop write after its prompt, and whether (and
      with what) the loop then returns. */
  datatype Answer = Answer(text: string, done: bool, result: Option<Error>)

  function AnswerTo(cause: Error, e: Event): Answer
  {
    match e
    case Cancelled => Answer("", true, Some(cause))
    case ChannelClosed => Answer("\n", true, None)
    case Input(line, err) =>
      if err.Some? then
        if Is(err.value, EOF) then Answer("\n", true, None) else Answer("", true, Some(err.value))
      else match Respond(TrimSpace(line))
        case Leave => Answer(Goodbye, true, None)
        case Keep(text) => Answer(text, false, None)
  }

  /** The loop: the prompt before each wait, then the answer to the event received,
      until an answer returns. `cause` is context.Cause of the shell's context. */
  function Loop(prompt: string, cause: Error, events: seq<Event>): Transcript
    decreases |events|
  {
    if events == [] then Transcript(prompt, Waiting)
    else
      var a := AnswerTo(cause, events[0]);
      if a.done then Transcript(prompt + a.text, Finished(a.result))
      else
        var rest := Loop(prompt, cause, events[1..]);
        Transcript(prompt + a.text + rest.text, rest.outcome)
  }

  /** The turn of the loop at position i. */
  lemma LoopStep(prompt: string, cause: Error, events: seq<Event>, i: nat)
    requires i < |events|
    ensures var a := AnswerTo(cause, events[i]);
      var here := Loop(prompt, cause, events[i..]);
      var rest := Loop(prompt, cause, events[i + 1..]);
      && (a.done ==> here == Transcript(prompt + a.text, Finished(a.result)))
      && (!a.done ==> here == Transcript(prompt + a.text + rest.text, rest.outcome))
  {
    assert events[i..][0] == events[i] && events[i..][1..] == events[i + 1..];
  }

  /** One turn seen from the text already written: a turn that returns completes the
      transcript; one that does not leaves the rest of the loop to write the rest. */
  lemma ServeTurn(prompt: string, cause: Error, events: seq<Event>, i: nat, before: string, total: string)
    requires i < |events|
    requires before + Loop(prompt, cause, events[i..]).text == total
    ensures var a := AnswerTo(cause, events[i]);
      a.done ==> before + prompt + a.text == total && Loop(prompt, cause, events[i..]).outcome == Finished(a.result)
    ensures var a := AnswerTo(cause, events[i]);
      !a.done ==> && before + prompt + a.text + Loop(prompt, cause, events[i + 1..]).text == total
                  && Loop(prompt, cause, events[i + 1..]).outcome == Loop(prompt, cause, events[i..]).outcome
  {
    LoopStep(prompt, cause, events, i);
    var a := AnswerTo(cause, events[i]);
    if a.done {
      ConcatAssoc(before, prompt, a.text);
    } else {
      AppendAssoc(before, prompt, a.text, Loop(prompt, cause, events[i + 1..]).text);
    }
  }

  /** Every wait is preceded by the prompt, so the transcript starts with it. */
  lemma LoopStartsWithPrompt(prompt: string, cause: Error, events: seq<Event>)
    ensures HasPrefix(Loop(prompt, cause, events).text, prompt)
  {
    if events == [] {
      PrefixOfConcat(prompt, "");
      assert prompt + "" == prompt;
    } else {
      var a := AnswerTo(cause, events[0]);
      var rest := Loop(prompt, cause, events[1..]);
      if a.done {
        PrefixOfConcat(prompt, a.text);
      } else {
        ConcatAssoc(prompt, a.text, rest.text);
        PrefixOfConcat(prompt, a.text + rest.text);
      }
    }
  }

  /** A shell still waiting has just written its prompt. */
  lemma {:induction false} WaitingEndsWithPrompt(prompt: string, cause: Error, events: seq<Event>)
    requires Loop(prompt, cause, events).outcome == Waiting
    ensures HasSuffix(Loop(prompt, cause, events).text, prompt)
    decreases |events|
  {
    if events == [] {
      SuffixExtend([], prompt, prompt);
      assert [] + prompt == prompt;
    } else {
      var a := AnswerTo(cause, events[0]);
      var rest := Loop(prompt, cause, events[1..]);
      WaitingEndsWithPrompt(prompt, cause, events[1..]);
      SuffixExtend(prompt + a.text, rest.text, prompt);
    }
  }

  /** Once the loop has returned, later events are never looked at. */
  lemma {:induction false} LoopIgnoresLaterEvents(prompt: string, cause: Error, events: seq<Event>, later: seq<Event>)
    requires Loop(prompt, cause, events).outcome.Finished?
    ensures Loop(prompt, cause, events + later) == Loop(prompt, cause, events)
    decreases |events|
  {
    assert events != [];
    assert (events + later)[0] == events[0];
    assert (events + later)[1..] == events[1..] + later;
    if events[0].Input? && events[0].err.None? && Respond(TrimSpace(events[0].line)).Keep? {
      LoopIgnoresLaterEvents(prompt, cause, events[1..], later);
    }
  }

  /** Cancellation while waiting returns context.Cause: the recorded cause if there is
      one, otherwise the context's own error (context.Canceled for a cancelled context). */
  lemma CancellationResult(prompt: string, ctx: Context, later: seq<Event>)
    ensures Loop(prompt, Cause(ctx), [Cancelled] + later) == Transcript(prompt, Finished(Some(Cause(ctx))))
    ensures ctx.cause.Some? ==> Loop(prompt, Cause(ctx), [Cancelled] + later).outcome == Finished(ctx.cause)
    ensures ctx.cause.None? && ctx.err == Canceled ==>
      Loop(prompt, Cause(ctx), [Cancelled] + later).outcome == Finished(Some(Canceled))
  {
    assert ([Cancelled] + later)[0] == Cancelled;
  }

  /** End of input prints a newline and returns nil; any other read error is returned; the
      text read together with an error is never dispatched. */
  lemma ReadErrorResult(prompt: string, cause: Error, line: string, e: Error, later: seq<Event>)
    ensures Is(e, EOF) ==> Loop(prompt, cause, [Input(line, Some(e))] + later) == Transcript(prompt + "\n", Finished(None))
    ensures !Is(e, EOF) ==> Loop(prompt, cause, [Input(line, Some(e))] + later) == Transcript(prompt, Finished(Some(e)))
    ensures Loop(prompt, cause, [Input(line, Some(e))] + later) == Loop(prompt, cause, [Input("", Some(e))])
  {
    assert ([Input(line, Some(e))] + later)[0] == Input(line, Some(e));
  }

  /** The events a strings.Reader yields through ReadString('\n'): each line with its
      newline, then whatever follows the last newline together with io.EOF. */
  function ReaderEvents(input: string): seq<Event>
  {
    var parts := Split(input, '\n');
    seq(|parts| - 1, k requires 0 <= k < |parts| - 1 => Input(parts[k] + "\n", None)) + [Input(parts[|parts| - 1], Some(EOF))]
  }

  /** Two newline-terminated commands read as two lines, then an empty read with EOF. */
  lemma ReaderEventsOfTwoLines(first: string, second: string)
    requires '\n' !in first && '\n' !in second
    ensures ReaderEvents(first + "\n" + second + "\n") ==
      [Input(first + "\n", None), Input(second + "\n", None), Input("", Some(EOF))]
  {
    var input := first + "\n" + second + "\n";
    assert input == first + ['\n'] + (second + ['\n'] + []);
    SplitAfterField(first, '\n', second + ['\n'] + []);
    SplitAfterField(second, '\n', []);
    assert Split([], '\n') == [[]];
    assert Split(input, '\n') == [first, second, []];
  }

  /** A command word such as "help" or "exit", followed by a newline. */
  lemma TrimLine(word: string)
    requires word != [] && !IsSpace(word[0]) && !IsSpace(word[|word| - 1])
    ensures TrimSpace(word + "\n") == word
  {
    TrimSpaceOfTrimmed(word, "\n");
  }

  /** A command word followed by exit, as a strings.Reader delivers them: the word is
      answered, then the shell says goodbye and returns nil. */
  lemma {:induction false} CommandThenExit(prompt: string, cause: Error, word: string, answer: string)
    requires word != [] && '\n' !in word && !IsSpace(word[0]) && !IsSpace(word[|word| - 1])
    requires Respond(word) == Keep(answer)
    ensures Loop(prompt, cause, ReaderEvents(word + "\n" + "exit" + "\n")) ==
      Transcript(prompt + answer + (prompt + Goodbye), Finished(None))
  {
    ReaderEventsOfTwoLines(word, "exit");
    var events := [Input(word + "\n", None), Input("exit" + "\n", None), Input("", Some(EOF))];
    ExitLine(prompt, cause, [Input("", Some(EOF))]);
    assert events[1..] == [Input("exit" + "\n", None)] + [Input("", Some(EOF))];
    TrimLine(word);
  }

  /** An exit line says goodbye and ends the loop. */
  lemma ExitLine(prompt: string, cause: Error, later: seq<Event>)
    ensures Loop(prompt, cause, [Input("exit" + "\n", None)] + later) == Transcript(prompt + Goodbye, Finished(None))
  {
    var e := Input("exit" + "\n", None);
    var events := [e] + later;
    TrimLine("exit");
    assert ToLower("exit") == "exit";
    assert Respond(TrimSpace(e.line)) == Leave;
    assert AnswerTo(cause, e) == Answer(Goodbye, true, None);
    assert events != [] && events[0] == e;
  }

  /** "help\nexit\n": welcome, help text, goodbye, and no error. */
  lemma HelpThenExit(prompt: string, cause: Error)
    ensures Loop(prompt, cause, ReaderEvents("help\nexit\n")) ==
      Transcript(prompt + HelpText + (prompt + Goodbye), Finished(None))
  {
    assert "help\nexit\n" == "help" + "\n" + "exit" + "\n";
    assert ToLower("help") == "help";
    assert Respond("help") == Keep(HelpText);
    CommandThenExit(prompt, cause, "help", HelpText);
  }

  /** "foo\nexit\n": the unknown command is echoed, then the shell says goodbye. */
  lemma UnknownThenExit(prompt: string, cause: Error)
    ensures Loop(prompt, cause, ReaderEvents("foo\nexit\n")) ==
      Transcript(prompt + "Unknown command: foo\n" + (prompt + Goodbye), Finished(None))
  {
    assert "foo\nexit\n" == "foo" + "\n" + "exit" + "\n";
    assert ToLower("foo") == "foo";
    assert "Unknown command: " + "foo" + "\n" == "Unknown command: foo\n";
    assert Respond("foo") == Keep("Unknown command: foo\n");
    CommandThenExit(prompt, cause, "foo", "Unknown command: foo\n");
  }

  lemma AppendAssoc(a: string, b: string, c: string, d: string)
    ensures a + b + c + d == a + (b + c + d)
  {
  }

  lemma AppendAssoc5(a: string, b: string, c: string, d: string, e: string)
    ensures a + b + c + d + e == a + (b + c + d + e)
  {
  }

  class Shell {
    var prompt: string
    var closed: bool
    var written: string

    /** NewShell: the default prompt, then the options in order. */
    constructor NewShell(opts: seq<Option<ShellOption>>)
      ensures prompt == PromptAfter(DefaultPrompt, opts)
      ensures !closed && written == ""
    {
      prompt := DefaultPrompt;
      closed := false;
      written := "";
      new;
      var i := 0;
      while i < |opts|
        invariant 0 <= i <= |opts|
        invariant prompt == PromptAfter(DefaultPrompt, opts[..i])
        invariant !closed && written == ""
      {
        assert opts[..i + 1][..i] == opts[..i];
        if opts[i].Some? {
          prompt := opts[i].value.prompt;
        }
        i := i + 1;
      }
      assert opts[..i] == opts;
    }

    method WriteHelp()
      modifies this`written
      ensures written == old(written) + HelpText
    {
      ghost var start := written;
      written := written + HelpHeader;
      written := written + HelpHelp;
      written := written + HelpExit;
      written := written + HelpQuit;
      AppendAssoc5(start, HelpHeader, HelpHelp, HelpExit, HelpQuit);
    }

    /** The switch on the trimmed command: answers it, or says goodbye and reports that
        the loop should return. */
    method Dispatch(cmd: string) returns (leave: bool)
      modifies this`written
      ensures leave <==> Respond(cmd) == Leave
      ensures leave ==> written == old(written) + Goodbye
      ensures !leave ==> written == old(written) + Respond(cmd).text
    {
      var lower := ToLower(cmd);
      if lower == "" || lower == "#" {
        return false;
      }
      if lower == "exit" || lower == "quit" {
        written := written + Goodbye;
        return true;
      }
      if lower == "help" {
        WriteHelp();
      } else {
        written := written + "Unknown command: " + cmd + "\n";
      }
      return false;
    }

    /** The body of the loop for one received event, after the prompt: the answer is
        written, and a returning loop closes the shell. */
    method Answer(cause: Error, e: Event) returns (done: bool, result: Option<Error>)
      requires !closed
      modifies this`closed, this`written
      ensures written == old(written) + AnswerTo(cause, e).text
      ensures done == AnswerTo(cause, e).done && result == AnswerTo(cause, e).result
      ensures closed == done
    {
      match e {
        case Cancelled =>
          closed := true;
          return true, Some(cause);
        case ChannelClosed =>
          written := written + "\n";
          closed := true;
          return true, None;
        case Input(line, err) =>
          if err.Some? {
            if Is(err.value, EOF) {
              written := written + "\n";
              closed := true;
              return true, None;
            }
            closed := true;
            return true, Some(err.value);
          }
          var leave := Dispatch(TrimSpace(line));
          if leave {
            closed := true;
            return true, None;
          }
          return false, None;
      }
    }

    /** Shell.Run over a scripted stream of events. */
    method Run(ctx: Option<Context>, events: seq<Event>) returns (outcome: Outcome)
      modifies this`closed, this`written
      ensures ctx.None? ==>
        outcome == Finished(Some(NilShellContext)) && closed == old(closed) && written == old(written)
      ensures ctx.Some? && old(closed) ==>
        outcome == Finished(Some(ShellClosed)) && closed && written == old(written)
      ensures ctx.Some? && !old(closed) ==>
        var t := Loop(prompt, Cause(ctx.value), events);
        && written == old(written) + Welcome + t.text
        && outcome == t.outcome
        && closed == outcome.Finished?
    {
      if ctx.None? {
        return Finished(Some(NilShellContext));
      }
      if closed {
        return Finished(Some(ShellClosed));
      }
      written := written + Welcome;
      outcome := Serve(Cause(ctx.value), events);
    }

    /** The loop of Run: the prompt, then the answer to each event until one returns. */
    method Serve(cause: Error, events: seq<Event>) returns (outcome: Outcome)
      requires !closed
      modifies this`closed, this`written
      ensures written == old(written) + Loop(prompt, cause, events).text
      ensures outcome == Loop(prompt, cause, events).outcome
      ensures closed == outcome.Finished?
    {
      var p := prompt;
      ghost var start := written;
      ghost var whole := Loop(p, cause, events);
      var i := 0;
      assert events[0..] == events;
      while i < |events|
        invariant 0 <= i <= |events|
        invariant !closed
        invariant written + Loop(p, cause, events[i..]).text == start + whole.text
        invariant Loop(p, cause, events[i..]).outcome == whole.outcome
        decreases |events| - i
      {
        ServeTurn(p, cause, events, i, written, start + whole.text);
        written := written + p;
        var done, result := Answer(cause, events[i]);
        if done {
          return Finished(result);
        }
        i := i + 1;
      }
      assert events[i..] == [];
      written := written + p;
      return Waiting;
    }
  }

  /** A shell that finished once refuses to run again. */
  method RunTwice(opts: seq<Option<ShellOption>>, ctx: Context, events: seq<Event>) returns (first: Outcome, second: Outcome)
    ensures first == Loop(PromptAfter(DefaultPrompt, opts), Cause(ctx), events).outcome
    ensures first.Finished? ==> second == Finished(Some(ShellClosed))
  {
    var shell := new Shell.NewShell(opts);
    first := shell.Run(Some(ctx), events);
    second := shell.Run(Some(ctx), events);
  }
}
