# Portfolio terminal — a Dafny model

The repository is a one-page React portfolio. Almost all of it is
presentation. The stateful logic lives in `src/App.tsx`, and that is what
this project models and proves things about:

- **The `App` component** switches between three modes: the professional
  page, a boot screen and a terminal. While booting, a timer reveals an
  11-entry boot log one entry per tick and then switches to the terminal.
  Leaving the terminal returns to the professional page and empties the
  boot log.
- **The `Terminal` component** keeps four pieces of state:
  - a screen of output lines, each a command echo or a response;
  - the line being edited;
  - a history of submitted commands, newest first;
  - a history cursor, which is -1 when no entry is recalled.

  Enter submits the trimmed line: it is echoed, recorded in history and
  dispatched. ArrowUp and ArrowDown walk the history.
- **The dispatcher, `processCommand`**, reads the lower-cased first
  space-separated word of the command. That word selects one of four
  actions: type out a canned text one response line per `'\n'`-separated
  piece, clear the screen, leave the terminal, or print a "command not
  found" line that quotes the command as typed.
- **On screen**, every space of a response line is replaced by `&nbsp;`.
  Command lines are shown verbatim.

The project has four modules, one file each:

- `text.dfy` (`Text`): the JavaScript string built-ins the terminal uses.
  - `String.prototype.trim`, with the ECMAScript white-space and
    line-terminator set;
  - `toLowerCase`;
  - `split` on one character, and its inverse `Join`;
  - the `&nbsp;` escape.
- `commands.dfy` (`Commands`): the dispatcher as a pure function from a
  command to an `Action` (`Respond(text) | Clear | Exit`).
- `console.dfy` (`Console`):
  - the terminal state as a value, `Session`, and the meaning of one key
    press, `AfterKey`;
  - the class `Terminal`. Its fields are that state, and its methods are
    proved to follow `AfterKey`.
- `portfolio.dfy` (`Portfolio`):
  - the page state as a value, `Shell`, and the meaning of one event,
    `Step`. An event is a toggle click, a timer tick, an edit of the
    terminal's input, or a key press;
  - the class `App`. Its fields are that state, and its methods are proved
    to follow `Step`.

Timer callbacks are explicit `Tick` events. Each asynchronous handler runs
to completion before the next event.

## Model

| member | source | states |
|---|---|---|
| Text.Trim | src/App.tsx:505-506 | The trimmed line neither starts nor ends with whitespace. It is empty exactly when the input is all whitespace, which is the falsy test Enter makes. |
| Text.TrimStrips | src/App.tsx:505-506 | Trim only strips. Its result is the slice of the input just after the leading whitespace, with nothing but whitespace on either side of it. |
| Text.TrimPadded | src/App.tsx:505-506 | A trimmed string padded with any whitespace on either side trims back to itself. Together with TrimStrips, this pins down trim completely. |
| Text.TrimIdempotent | src/App.tsx:505-506 | Trimming an already trimmed line changes nothing. |
| Text.LowerChar | src/App.tsx:456 | An upper-case ASCII letter becomes its lower-case letter (code point plus 32), the Kelvin sign U+212A becomes `k`, and any other character is kept. A space maps to a space and nothing else does, and no upper-case ASCII letter is left. |
| Text.Split | src/App.tsx:448 | The pieces of a split contain no separator, there is at least one of them, and joined with the separator they give back the text. |
| Text.SplitJoin | src/App.tsx:448 | Splitting the join of separator-free pieces gives back exactly those pieces. |
| Text.SplitWithout | src/App.tsx:448 | A text without the separator splits into itself alone. |
| Text.SplitAtFirst | src/App.tsx:456 | A split cuts at the first separator: `a + sep + b`, where `a` has no separator, splits into `a` followed by the pieces of `b`. |
| Text.SplitHead | src/App.tsx:456 | The first piece is the prefix of the text up to the first separator, or the whole text when there is none. |
| Text.SplitSpaceLower | src/App.tsx:456 | Lower-casing then taking the first space-separated word gives the same as taking the word then lower-casing it. |
| Text.EscapeSpaces | src/App.tsx:554 | The rendered response text has no space left, and it is no shorter than the content. |
| Text.UnescapeEscape | src/App.tsx:554 | On text without `&`, reading every `&nbsp;` back as a space gives the original content. EscapeConcat and EscapeOne state the escape for all text. |
| Text.EscapeConcat | src/App.tsx:554 | The escape works character by character: escaping a concatenation escapes each part. This holds for all text, including text with `&`. |
| Text.EscapeOne | src/App.tsx:554 | A space becomes `&nbsp;` and every other character is kept. With EscapeConcat, this says that only spaces change. |
| Text.EscapeWithoutSpaces | src/App.tsx:554 | Text without spaces is rendered unchanged. |
| Commands.CommandWord | src/App.tsx:456 | The command word is the lower-cased prefix of the command up to its first space. It holds no space, and it is followed by a space or by the end of the command. |
| Commands.Dispatch | src/App.tsx:455-501 | Each of `help`, `whoami`, `education`, `skills`, `projects` and `contact` prints its own canned text. `clear` clears exactly when the word is `clear`, and `exit` exits exactly when the word is `exit`. The not-found message quoting the command appears exactly when the word is not one of the eight known words. |
| Commands.DispatchIgnoresArguments | src/App.tsx:456 | For a known word, in any letter case and followed by a space and anything at all, dispatch acts as on the lower-case word alone. |
| Commands.UpperCaseHelp | src/App.tsx:456-458 | `HELP` followed by any arguments prints the help text. |
| Commands.NotFoundIsOneLine | src/App.tsx:499 | An unknown single-line command prints exactly one line: the not-found message with the command in its original casing. |
| Commands.ExitCommand | src/App.tsx:498 | The line `exit` is not blank, trims to itself, and dispatches to Exit. |
| Console.ResponseLinesRoundTrip | src/App.tsx:447-452 | The lines typeOutput appends are all responses, at least one of them. Joined with `'\n'`, their contents give back the text. |
| Console.Mounted | src/App.tsx:532-545 | A freshly mounted terminal shows the welcome text typed out. Its input and history are empty, and the cursor is in range. |
| Console.Entered | src/App.tsx:505-511 | Enter keeps the history cursor in range. What it records and prints is stated by EnterRecordsCommand and BlankEnterIsNoOp. |
| Console.Older | src/App.tsx:512-518 | ArrowUp keeps the cursor in range and leaves the output and history alone. The entry it recalls is stated by ArrowUpWalksBack and ArrowUpStopsAtOldest. |
| Console.Newer | src/App.tsx:519-529 | ArrowDown keeps the cursor in range and leaves the output and history alone. The entry it recalls is stated by ArrowDownWalksForward, ArrowDownReturnsToPrompt and ArrowDownClearsPrompt. |
| Console.AfterKey | src/App.tsx:504-530 | The cursor stays between -1 and the last history index across every key. The arrow keys change neither output nor history, and any other key changes nothing. |
| Console.Rendered | src/App.tsx:554 | A command line is shown verbatim. A response line is shown as its content with every space escaped, which EscapeConcat and EscapeOne characterise for all text, `&` included. No space is left, and on text without `&` the escape can be undone. |
| Console.EnterRecordsCommand | src/App.tsx:505-511 | Enter on a non-blank line prepends the trimmed line to the history, resets the cursor to -1 and clears the input. It echoes one command line and then, by action: `clear` leaves the output empty; `exit` appends nothing more; otherwise the response lines follow. |
| Console.BlankEnterIsNoOp | src/App.tsx:505 | Enter on an empty or whitespace-only line changes nothing and does not leave the terminal. |
| Console.ExitKeyExits | src/App.tsx:498 | Enter on the line `exit` asks the page to leave terminal mode. |
| Console.ArrowUpWalksBack | src/App.tsx:512-518 | `n` ArrowUp presses from cursor `i`, while entries remain, move the cursor to `i + n` and show that entry. Output and history are unchanged. |
| Console.RecallNewestFirst | src/App.tsx:512-518 | From a fresh prompt, the k-th ArrowUp recalls the k-th most recent command. |
| Console.ArrowUpStopsAtOldest | src/App.tsx:514-518 | At the oldest entry, or with an empty history, ArrowUp changes nothing. |
| Console.ArrowDownWalksForward | src/App.tsx:519-525 | `n` ArrowDown presses from cursor `i >= n` move the cursor to `i - n` and show that entry. Output and history are unchanged. |
| Console.ArrowDownReturnsToPrompt | src/App.tsx:519-529 | Once past the newest entry, ArrowDown empties the input and resets the cursor to -1, keeping the output. |
| Console.ArrowDownClearsPrompt | src/App.tsx:525-528 | At the newest entry or at a fresh prompt, ArrowDown empties the input, discarding what was typed, and selects no entry. |
| Console.DownUndoesUp | src/App.tsx:512-525 | Whenever ArrowUp moved the cursor, ArrowDown moves it back. |
| Console.SubmitPrepends | src/App.tsx:508 | Submitting a trimmed non-empty line puts it at the front of the history. |
| Console.Reversed | src/App.tsx:508 | The reversal puts the k-th element from the end at position k. |
| Console.HistoryNewestFirst | src/App.tsx:508 | After submitting a list of trimmed, non-empty commands, the history is those commands in reverse order, followed by the earlier history. |
| Console.Terminal.constructor | src/App.tsx:436-545 | Mounting yields the Mounted session: the initial empty state, then the welcome text typed out. |
| Console.Terminal.TypeOutput | src/App.tsx:447-453 | The loop appends one response line per `'\n'`-separated piece, in order, and keeps the earlier lines. |
| Console.Terminal.ProcessCommand | src/App.tsx:455-502 | The output becomes the dispatcher's action applied to it, and the method reports whether the command was `exit`. |
| Console.Terminal.Edit | src/App.tsx:555 | The edited value replaces the input. |
| Console.Terminal.HandleKeyDown | src/App.tsx:504-530 | The new state is AfterKey of the old one, with the cursor kept in range. The method reports an exit exactly when KeyExits holds. |
| Portfolio.Toggled | src/App.tsx:730-736 | Toggling never lands in terminal mode. It lands in booting exactly when it starts from the professional page. |
| Portfolio.ToggleMode | src/App.tsx:730-767 | A toggle follows Toggled, keeps the page consistent and unmounts the terminal. Either mode it lands in starts with an empty boot log, and a boot starts with nothing revealed. |
| Portfolio.Ticked | src/App.tsx:753-762 | A timer tick keeps the page consistent: the boot log stays a prefix of the boot sequence, and a terminal exists exactly in terminal mode. The entry each tick reveals is stated by TickRevealsNext and BootReveals. |
| Portfolio.Edited | src/App.tsx:555 | Editing replaces the terminal's input and changes nothing else: mode, boot log and the rest of the session are kept. Without a terminal it changes nothing. |
| Portfolio.Pressed | src/App.tsx:504-511 | A key press that does not exit applies AfterKey to the session and keeps mode and boot log. A press that exits toggles the mode. Without a terminal nothing changes. Every case keeps the page consistent. |
| Portfolio.Step | src/App.tsx:726-767 | Every event keeps the page consistent. |
| Portfolio.BootReveals | src/App.tsx:753-758 | While booting, `n` ticks reveal the next `n` boot entries, in order. |
| Portfolio.TickRevealsNext | src/App.tsx:755-757 | One tick while entries remain appends exactly the next boot entry. |
| Portfolio.BootCompletes | src/App.tsx:739-762 | After the toggle, eleven ticks show the whole boot sequence. The twelfth switches to terminal mode with a freshly mounted terminal. |
| Portfolio.TickOnlyWhileBooting | src/App.tsx:739 | Outside the boot, a tick changes nothing. |
| Portfolio.SubmitExit | src/App.tsx:498 | Enter on `exit` in the terminal brings back the initial page. |
| Portfolio.ExitLeavesTerminal | src/App.tsx:498 | From any terminal state, typing `exit` and pressing Enter gives the professional page with an empty boot log and no terminal. |
| Portfolio.VisitRoundTrip | src/App.tsx:726-767 | Toggle, let the boot finish, type `exit`: the page is back exactly where it started. |
| Portfolio.App.constructor | src/App.tsx:726-728 | The page starts on the professional view with an empty boot log and no terminal. |
| Portfolio.App.HandleToggleMode | src/App.tsx:730-736 | The fields follow ToggleMode, and the page stays consistent. |
| Portfolio.App.Tick | src/App.tsx:754-761 | The fields follow Ticked. A terminal created on the last tick is fresh. |
| Portfolio.App.Edit | src/App.tsx:555 | The fields follow Edited. |
| Portfolio.App.KeyDown | src/App.tsx:504-511 | The fields follow Pressed. On `exit`, the terminal hands control to the toggle, which unmounts it. |

## Left out

- Styling, JSX layout, images and the professional page's content are not part of this model.
- The scroll fade-in is left out: it uses IntersectionObserver, a browser API.
- Scrolling to the bottom, input focus, `preventDefault` on the arrow keys and the HTML interpretation of `dangerouslySetInnerHTML` are browser behaviour and are left out.
- The brand-name scramble animation (src/App.tsx:571-604) is left out. It depends on `Math.random` and a floating-point counter.
- Real time is not modelled:
  - the 30 ms delay between typed lines;
  - the 150 ms boot interval;
  - the 500 ms delay before terminal mode.

  Each interval firing is one `Tick`. The last firing and the 500 ms timeout that follows it are one step.
- Console.Terminal.TypeOutput: appends all the lines of a text in one call. A key press cannot land between two typed lines, because the model has no interleaving of overlapping asynchronous commands.
- The uncancelled 500 ms timeout at src/App.tsx:760 is left out. It can still fire after the mode has changed, which is a timer race and not sequential logic.
- Commands.Dispatch: the canned texts and the welcome banner (`Console.WelcomeLines`) are shorter ASCII stand-ins. They keep the first words but not the originals' wording, accents or HTML markup. The help, whoami and contact stand-ins keep their originals' line counts. The education, skills and projects stand-ins have 3 lines against 9, 7 and 6, and the banner has 4 against 10. Which action a command selects is modelled exactly.
- Text.LowerChar: models `toLowerCase` only for the characters whose lower case is an ASCII letter (A-Z, and U+212A KELVIN SIGN to `k`) and keeps every other character. Every comparison with a command word is therefore decided exactly, but lower-cased non-ASCII text is not.
- The `welcomeMessageSent` ref and React StrictMode's double effect run are left out. A mount types the welcome text once.
- Portfolio.Step: accepts a toggle click in any mode. Only the professional page renders a toggle button. The boot screen has none, and the terminal's title-bar buttons have no handlers, so the model allows clicks the page cannot receive in booting and terminal mode. They follow the same toggle rule. In terminal mode, the only way back is the `exit` command.
- A terminal's history does not survive leaving it. The page unmounts the terminal on `exit`, and the next visit mounts a fresh session.
