/** The `Terminal` component: a screen of output lines, the line being
    edited, and a command history browsed with the arrow keys.

    `Session` and `AfterKey` give the meaning of one key press as a value;
    the class `Terminal` holds the same four pieces of state as fields and
    its methods update them in the order the component's handlers do. */
module Console {
  import opened Text
  import opened Commands

  /** One line of the terminal's output. */
  datatype OutputLine = Command(content: string) | Response(content: string)

  /** The keys `handleKeyDown` reacts to; any other key is `OtherKey`. */
  datatype Key = Enter | ArrowUp | ArrowDown | OtherKey

  /** The component's state: history is newest first, and historyIndex is
      -1 while no history entry is being shown. */
  datatype Session = Session(output: seq<OutputLine>, input: string, history: seq<string>, historyIndex: int)

  /** The history cursor is -1 or a valid index of the history. */
  predicate IndexInRange(s: Session) {
    -1 <= s.historyIndex < |s.history|
  }

  /** One response line per piece. */
  function Responses(pieces: seq<string>): seq<OutputLine> {
    seq(|pieces|, i requires 0 <= i < |pieces| => Response(pieces[i]))
  }

  /** The text shown by a sequence of lines. */
  function Contents(lines: seq<OutputLine>): seq<string> {
    seq(|lines|, i requires 0 <= i < |lines| => lines[i].content)
  }

  /** What `typeOutput(text)` appends: one response line per '\n'-separated piece. */
  function ResponseLines(text: string): seq<OutputLine> {
    Responses(Split(text, '\n'))
  }

  /** typeOutput loses nothing: the appended lines are all responses, and
      joined with '\n' they give back the typed text. */
  lemma ResponseLinesRoundTrip(text: string)
    ensures |ResponseLines(text)| >= 1
    ensures forall i :: 0 <= i < |ResponseLines(text)| ==> ResponseLines(text)[i].Response?
    ensures Join(Contents(ResponseLines(text)), '\n') == text
  {
    assert Contents(ResponseLines(text)) == Split(text, '\n');
  }

  /** The lines of the welcome banner typed out when the terminal mounts (a
      stand-in for the ASCII art and greeting). */
  const WelcomeLines: seq<string> := ["TERMINAL", "", "Bem-vindo ao meu terminal.", "Digite 'help' para ver os comandos."]

  /** The welcome banner as one text, its lines separated by '\n'. */
  const WelcomeText: string := Join(WelcomeLines, '\n')

  lemma WelcomeLinesAreLines()
    ensures forall i :: 0 <= i < |WelcomeLines| ==> '\n' !in WelcomeLines[i]
  {
  }

  /** The state right after mounting: the welcome banner typed out, one
      response line per banner line; empty input, empty history, nothing
      selected. */
  function Mounted(): (s: Session)
    ensures IndexInRange(s) && s.history == [] && s.input == ""
    ensures s.output == ResponseLines(WelcomeText)
  {
    WelcomeLinesAreLines();
    SplitJoin(WelcomeLines, '\n');
    Session(Responses(WelcomeLines), "", [], -1)
  }

  /** The output after `processCommand(command)` has run to completion. */
  function Executed(output: seq<OutputLine>, command: string): seq<OutputLine> {
    match Dispatch(command)
    case Respond(text) => output + ResponseLines(text)
    case Clear => []
    case Exit => output
  }

  /** Enter: a line that is not blank once trimmed is echoed as a command,
      becomes the newest history entry and is executed; the cursor resets
      and the input clears. A blank line changes nothing. */
  function Entered(s: Session): (r: Session)
    requires IndexInRange(s)
    ensures IndexInRange(r)
  {
    var command := Trim(s.input);
    if command != "" then
      Session(Executed(s.output + [Command(command)], command), "", [command] + s.history, -1)
    else s
  }

  /** ArrowUp: one entry older, if there is one. */
  function Older(s: Session): (r: Session)
    requires IndexInRange(s)
    ensures IndexInRange(r) && r.output == s.output && r.history == s.history
  {
    if s.historyIndex < |s.history| - 1 then
      s.(input := s.history[s.historyIndex + 1], historyIndex := s.historyIndex + 1)
    else s
  }

  /** ArrowDown: one entry newer, or back to an empty prompt. */
  function Newer(s: Session): (r: Session)
    requires IndexInRange(s)
    ensures IndexInRange(r) && r.output == s.output && r.history == s.history
  {
    if s.historyIndex > 0 then
      s.(input := s.history[s.historyIndex - 1], historyIndex := s.historyIndex - 1)
    else s.(input := "", historyIndex := -1)
  }

  /** `handleKeyDown`: the session after one key press. */
  function AfterKey(s: Session, key: Key): (r: Session)
    requires IndexInRange(s)
    ensures IndexInRange(r)
    ensures key != Enter ==> r.history == s.history && r.output == s.output
    ensures key == OtherKey ==> r == s
  {
    match key
    case Enter => Entered(s)
    case ArrowUp => Older(s)
    case ArrowDown => Newer(s)
    case OtherKey => s
  }

  /** Whether the key press submits `exit`, which asks the page to leave
      terminal mode. */
  function KeyExits(s: Session, key: Key): bool {
    key == Enter && !IsBlank(s.input) && Dispatch(Trim(s.input)) == Exit
  }

  /** What a line shows on screen: a command verbatim, a response with its
      spaces escaped. */
  function Rendered(line: OutputLine): (shown: string)
    ensures line.Command? ==> shown == line.content
    ensures line.Response? ==> ' ' !in shown
    ensures line.Response? ==> shown == EscapeSpaces(line.content)
    ensures line.Response? && '&' !in line.content ==> UnescapeSpaces(shown) == line.content
  {
    match line
    case Command(content) => content
    case Response(content) =>
      if '&' !in content then UnescapeEscape(content); EscapeSpaces(content)
      else EscapeSpaces(content)
  }

  /** Enter on the line "exit" asks to leave terminal mode. */
  lemma ExitKeyExits(s: Session)
    requires s.input == "exit"
    ensures KeyExits(s, Enter)
  {
    ExitCommand();
  }

  /** Enter on a line that is not blank records the trimmed line once: one
      command line on screen (unless `clear` wipes the screen), newest in
      history, cursor reset and input cleared. */
  lemma EnterRecordsCommand(s: Session)
    requires IndexInRange(s) && !IsBlank(s.input)
    ensures var r := AfterKey(s, Enter); var c := Trim(s.input);
      && r.history == [c] + s.history
      && r.historyIndex == -1
      && r.input == ""
      && (Dispatch(c) == Clear ==> r.output == [])
      && (Dispatch(c) == Exit ==> r.output == s.output + [Command(c)])
      && (Dispatch(c).Respond? ==> r.output == s.output + [Command(c)] + ResponseLines(Dispatch(c).text))
  {
  }

  /** Enter on an empty or whitespace-only line changes nothing and does not exit. */
  lemma BlankEnterIsNoOp(s: Session)
    requires IndexInRange(s) && IsBlank(s.input)
    ensures AfterKey(s, Enter) == s && !KeyExits(s, Enter)
  {
  }

  /** `n` presses of the same key. */
  function Presses(s: Session, key: Key, n: nat): (r: Session)
    requires IndexInRange(s)
    ensures IndexInRange(r)
    decreases n
  {
    if n == 0 then s else AfterKey(Presses(s, key, n - 1), key)
  }

  /** ArrowUp walks the history from newest to oldest: `n` presses from the
      cursor at `i` show entry `i + n`, and leave the output and history alone. */
  lemma {:induction false} ArrowUpWalksBack(s: Session, n: nat)
    requires IndexInRange(s) && s.historyIndex + n < |s.history|
    ensures var r := Presses(s, ArrowUp, n);
      && r.historyIndex == s.historyIndex + n
      && (n > 0 ==> r.input == s.history[r.historyIndex])
      && r.output == s.output && r.history == s.history
    decreases n
  {
    if n > 0 {
      ArrowUpWalksBack(s, n - 1);
    }
  }

  /** From a fresh prompt, the k-th ArrowUp recalls the k-th most recent command. */
  lemma RecallNewestFirst(s: Session, k: nat)
    requires IndexInRange(s) && s.historyIndex == -1 && 1 <= k <= |s.history|
    ensures Presses(s, ArrowUp, k).input == s.history[k - 1]
  {
    ArrowUpWalksBack(s, k);
  }

  /** At the oldest entry, or with an empty history, ArrowUp changes nothing. */
  lemma ArrowUpStopsAtOldest(s: Session)
    requires IndexInRange(s) && s.historyIndex == |s.history| - 1
    ensures AfterKey(s, ArrowUp) == s
  {
  }

  /** ArrowDown walks back towards the newest entry: `n` presses from the
      cursor at `i` show entry `i - n`, and leave the output and history alone. */
  lemma {:induction false} ArrowDownWalksForward(s: Session, n: nat)
    requires IndexInRange(s) && n <= s.historyIndex
    ensures var r := Presses(s, ArrowDown, n);
      && r.historyIndex == s.historyIndex - n
      && (n > 0 ==> r.input == s.history[r.historyIndex])
      && r.output == s.output && r.history == s.history
    decreases n
  {
    if n > 0 {
      ArrowDownWalksForward(s, n - 1);
    }
  }

  /** Past the newest entry, ArrowDown returns to an empty prompt with no
      entry selected, keeping the output. */
  lemma ArrowDownReturnsToPrompt(s: Session)
    requires IndexInRange(s) && s.historyIndex >= 0
    ensures var r := Presses(s, ArrowDown, s.historyIndex + 1);
      r.historyIndex == -1 && r.input == "" && r.output == s.output
  {
    ArrowDownWalksForward(s, s.historyIndex);
  }

  /** At the newest entry or at a fresh prompt, ArrowDown empties the input
      (discarding whatever was typed) and leaves no entry selected. */
  lemma ArrowDownClearsPrompt(s: Session)
    requires IndexInRange(s) && s.historyIndex <= 0
    ensures AfterKey(s, ArrowDown) == s.(input := "", historyIndex := -1)
  {
  }

  /** ArrowDown undoes ArrowUp's move of the cursor whenever ArrowUp moved it. */
  lemma DownUndoesUp(s: Session)
    requires IndexInRange(s) && s.historyIndex < |s.history| - 1
    ensures AfterKey(AfterKey(s, ArrowUp), ArrowDown).historyIndex == s.historyIndex
  {
  }

  /** Typing `command` and pressing Enter. */
  function Submit(s: Session, command: string): (r: Session)
    requires IndexInRange(s)
    ensures IndexInRange(r)
  {
    AfterKey(s.(input := command), Enter)
  }

  /** Submitting a trimmed, non-empty line puts it at the front of the history. */
  lemma SubmitPrepends(s: Session, command: string)
    requires IndexInRange(s) && IsTrimmed(command) && command != []
    ensures Submit(s, command).history == [command] + s.history
  {
    TrimPadded("", command, "");
    assert "" + command + "" == command;
  }

  /** Submitting each command of `commands` in turn. */
  function SubmitAll(s: Session, commands: seq<string>): (r: Session)
    requires IndexInRange(s)
    ensures IndexInRange(r)
    decreases |commands|
  {
    if commands == [] then s
    else Submit(SubmitAll(s, commands[..|commands| - 1]), commands[|commands| - 1])
  }

  /** `xs` last to first. */
  function Reversed(xs: seq<string>): (r: seq<string>)
    ensures |r| == |xs|
    ensures forall k :: 0 <= k < |xs| ==> r[k] == xs[|xs| - 1 - k]
  {
    if xs == [] then [] else [xs[|xs| - 1]] + Reversed(xs[..|xs| - 1])
  }

  /** History keeps every submitted command, most recent first. */
  lemma {:induction false} HistoryNewestFirst(s: Session, commands: seq<string>)
    requires IndexInRange(s)
    requires forall i :: 0 <= i < |commands| ==> IsTrimmed(commands[i]) && commands[i] != []
    ensures SubmitAll(s, commands).history == Reversed(commands) + s.history
    decreases |commands|
  {
    if commands != [] {
      var earlier := commands[..|commands| - 1];
      var last := commands[|commands| - 1];
      HistoryNewestFirst(s, earlier);
      SubmitPrepends(SubmitAll(s, earlier), last);
    }
  }

  /** The component's state and handlers. */
  class Terminal {
    var output: seq<OutputLine>
    var input: string
    var history: seq<string>
    var historyIndex: int

    /** The fields as a session value. */
    function Snapshot(): Session
      reads this
    {
      Session(output, input, history, historyIndex)
    }

    ghost predicate Valid()
      reads this
    {
      IndexInRange(Snapshot())
    }

    /** Mounting: initial state, then the welcome text typed out. */
    constructor ()
      ensures Valid() && Snapshot() == Mounted()
    {
      output, input, history, historyIndex := [], "", [], -1;
      new;
      TypeOutput(WelcomeText);
    }

    /** `typeOutput`: appends one response line per piece, in order; earlier
        lines are kept. */
    method TypeOutput(text: string)
      modifies this`output
      ensures output == old(output) + ResponseLines(text)
    {
      var lines := Split(text, '\n');
      for i := 0 to |lines|
        invariant output == old(output) + Responses(lines[..i])
      {
        assert Responses(lines[..i + 1]) == Responses(lines[..i]) + [Response(lines[i])];
        output := output + [Response(lines[i])];
      }
      assert lines[..|lines|] == lines;
    }

    /** `processCommand`: the dispatcher's action applied to the output;
        `exit` reports the command that asks to leave terminal mode. */
    method ProcessCommand(command: string) returns (exit: bool)
      modifies this`output
      ensures output == Executed(old(output), command)
      ensures exit <==> Dispatch(command) == Exit
    {
      exit := false;
      match Dispatch(command)
      case Respond(text) => TypeOutput(text);
      case Clear => output := [];
      case Exit => exit := true;
    }

    /** The input's `onChange`: the edited line replaces the input. */
    method Edit(value: string)
      modifies this`input
      ensures input == value
    {
      input := value;
    }

    /** `handleKeyDown`. */
    method HandleKeyDown(key: Key) returns (exit: bool)
      requires Valid()
      modifies this
      ensures Valid()
      ensures Snapshot() == AfterKey(old(Snapshot()), key)
      ensures exit == KeyExits(old(Snapshot()), key)
    {
      exit := false;
      var command := Trim(input);
      if key == Enter && command != "" {
        output := output + [Command(command)];
        history := [command] + history;
        historyIndex := -1;
        exit := ProcessCommand(command);
        input := "";
      } else if key == ArrowUp {
        if historyIndex < |history| - 1 {
          var newIndex := historyIndex + 1;
          input := history[newIndex];
          historyIndex := newIndex;
        }
      } else if key == ArrowDown {
        if historyIndex > 0 {
          var newIndex := historyIndex - 1;
          input := history[newIndex];
          historyIndex := newIndex;
        } else {
          input := "";
          historyIndex := -1;
        }
      }
    }
  }
}
