/** The `App` component: which of the three views is shown, the boot log
    revealed one entry per timer tick while booting, and the terminal that
    is mounted while in terminal mode.

    Timer callbacks are explicit `Tick` events. `Shell` and `Step` give the
    meaning of each event as a value; the class `App` holds the same state
    as fields and its methods follow `Step`. */
module Portfolio {
  import opened Text
  import opened Commands
  import opened Console

  datatype Mode = Professional | Booting | TerminalMode

  datatype Option<T> = None | Some(value: T)

  /** The lines revealed while booting, in order. */
  const BootSequence: seq<string> := [
    "Initializing system...",
    "Loading kernel module v5.8.0-43-generic...",
    "Checking file systems... [OK]",
    "Mounting local file systems... [OK]",
    "Starting system logger... [OK]",
    "Configuring network interfaces... [OK]",
    "Establishing secure connection to portfolio server...",
    "Connection established. Encrypting data stream...",
    "Authentication successful. Welcome, user.",
    "Loading interactive shell...",
    " "
  ]

  /** `handleToggleMode`: the professional page starts the boot; any other
      mode goes back to the professional page. */
  function Toggled(m: Mode): (r: Mode)
    ensures r != TerminalMode
    ensures r == Booting <==> m == Professional
  {
    if m == Professional then Booting else Professional
  }

  /** The page's state: the mode, the boot log, how many boot entries the
      running interval has revealed, and the mounted terminal's session. */
  datatype Shell = Shell(mode: Mode, bootLog: seq<string>, shown: nat, session: Option<Session>)

  /** What holds between events: the professional page has an empty boot
      log; while booting the log is the first `shown` entries of the boot
      sequence; the terminal shows after the whole sequence, and a terminal
      session exists exactly in terminal mode. */
  predicate Consistent(s: Shell) {
    && (s.mode == Professional ==> s.bootLog == [])
    && (s.mode == Booting ==> s.shown <= |BootSequence| && s.bootLog == BootSequence[..s.shown])
    && (s.mode == TerminalMode ==> s.bootLog == BootSequence)
    && (s.session.Some? <==> s.mode == TerminalMode)
    && (s.session.Some? ==> IndexInRange(s.session.value))
  }

  /** The page as first rendered. */
  const Start: Shell := Shell(Professional, [], 0, None)

  /** What can happen to the page. */
  datatype Event =
    | ToggleClick           // the toggle button
    | Tick                  // the boot interval fires
    | Edit(value: string)   // the terminal's input is edited
    | Press(key: Key)       // a key goes down in the terminal's input

  /** A mode change with its effects: entering booting starts a fresh
      interval (nothing revealed yet), entering professional empties the boot
      log; either way the terminal, if any, is unmounted. */
  function ToggleMode(s: Shell): (r: Shell)
    requires Consistent(s)
    ensures Consistent(r)
    ensures r.mode == Toggled(s.mode)
    ensures r.mode == Professional ==> r.bootLog == []
    ensures r.mode == Booting ==> r.bootLog == [] && r.shown == 0
    ensures r.session == None
  {
    if Toggled(s.mode) == Booting then Shell(Booting, s.bootLog, 0, None)
    else Shell(Professional, [], 0, None)
  }

  /** One firing of the boot interval: while entries remain, the next one is
      appended; after the last, the page switches to the terminal, which
      mounts. Outside the boot no interval runs. */
  function Ticked(s: Shell): (r: Shell)
    requires Consistent(s)
    ensures Consistent(r)
  {
    if s.mode != Booting then s
    else if s.shown < |BootSequence| then
      s.(bootLog := s.bootLog + [BootSequence[s.shown]], shown := s.shown + 1)
    else
      s.(mode := TerminalMode, session := Some(Mounted()))
  }

  /** The terminal's input edited; nothing happens without a terminal. */
  function Edited(s: Shell, value: string): (r: Shell)
    requires Consistent(s)
    ensures Consistent(r)
    ensures r.mode == s.mode && r.bootLog == s.bootLog && r.shown == s.shown
    ensures s.session.Some? ==> r.session == Some(s.session.value.(input := value))
    ensures s.session.None? ==> r == s
  {
    if s.session.Some? then s.(session := Some(s.session.value.(input := value))) else s
  }

  /** A key press in the terminal; the `exit` command toggles the mode. */
  function Pressed(s: Shell, key: Key): (r: Shell)
    requires Consistent(s)
    ensures Consistent(r)
    ensures s.session.None? ==> r == s
    ensures s.session.Some? && !KeyExits(s.session.value, key) ==>
      r.mode == s.mode && r.bootLog == s.bootLog && r.shown == s.shown
      && r.session == Some(AfterKey(s.session.value, key))
    ensures s.session.Some? && KeyExits(s.session.value, key) ==> r == ToggleMode(s)
  {
    if s.session.None? then s
    else if KeyExits(s.session.value, key) then ToggleMode(s)
    else s.(session := Some(AfterKey(s.session.value, key)))
  }

  /** The page after one event. */
  function Step(s: Shell, e: Event): (r: Shell)
    requires Consistent(s)
    ensures Consistent(r)
  {
    match e
    case ToggleClick => ToggleMode(s)
    case Tick => Ticked(s)
    case Edit(value) => Edited(s, value)
    case Press(key) => Pressed(s, key)
  }

  /** The page after a sequence of events. */
  function Run(s: Shell, events: seq<Event>): (r: Shell)
    requires Consistent(s)
    ensures Consistent(r)
    decreases |events|
  {
    if events == [] then s else Run(Step(s, events[0]), events[1..])
  }

  lemma {:induction false} RunAppend(s: Shell, a: seq<Event>, b: seq<Event>)
    requires Consistent(s)
    ensures Run(s, a + b) == Run(Run(s, a), b)
    decreases |a|
  {
    if a == [] {
      assert a + b == b;
    } else {
      assert (a + b)[0] == a[0] && (a + b)[1..] == a[1..] + b;
      RunAppend(Step(s, a[0]), a[1..], b);
    }
  }

  function Ticks(n: nat): (r: seq<Event>)
    ensures |r| == n && forall i :: 0 <= i < n ==> r[i] == Tick
  {
    if n == 0 then [] else [Tick] + Ticks(n - 1)
  }

  /** While booting, each tick reveals the next boot entry in order. */
  lemma {:induction false} BootReveals(s: Shell, n: nat)
    requires Consistent(s) && s.mode == Booting && s.shown + n <= |BootSequence|
    ensures Run(s, Ticks(n)) == s.(bootLog := BootSequence[..s.shown + n], shown := s.shown + n)
    decreases n
  {
    if n > 0 {
      var next := Ticked(s);
      TickRevealsNext(s);
      assert Run(s, Ticks(n)) == Run(next, Ticks(n - 1)) by {
        assert Ticks(n)[0] == Tick && Ticks(n)[1..] == Ticks(n - 1);
      }
      BootReveals(next, n - 1);
    }
  }

  /** One tick while booting reveals the next entry. */
  lemma TickRevealsNext(s: Shell)
    requires Consistent(s) && s.mode == Booting && s.shown < |BootSequence|
    ensures Ticked(s) == s.(bootLog := BootSequence[..s.shown + 1], shown := s.shown + 1)
  {
    assert BootSequence[..s.shown] + [BootSequence[s.shown]] == BootSequence[..s.shown + 1];
  }

  /** Once the toggle starts the boot, eleven ticks show the whole boot
      sequence and the twelfth mounts a fresh terminal. */
  lemma BootCompletes()
    ensures Run(Start, [ToggleClick] + Ticks(|BootSequence|)).mode == Booting
    ensures Run(Start, [ToggleClick] + Ticks(|BootSequence|)).bootLog == BootSequence
    ensures Run(Start, [ToggleClick] + Ticks(|BootSequence| + 1))
         == Shell(TerminalMode, BootSequence, |BootSequence|, Some(Mounted()))
  {
    var booting := Step(Start, ToggleClick);
    var n := |BootSequence|;
    RunAppend(Start, [ToggleClick], Ticks(n));
    BootReveals(booting, n);
    assert BootSequence[..n] == BootSequence;
    RunAppend(Start, [ToggleClick], Ticks(n + 1));
    RunAppend(booting, Ticks(n), [Tick]);
    assert Ticks(n + 1) == Ticks(n) + [Tick] by {
      assert Ticks(n + 1)[..n] == Ticks(n);
    }
  }

  /** Ticks do nothing outside the boot. */
  lemma TickOnlyWhileBooting(s: Shell)
    requires Consistent(s) && s.mode != Booting
    ensures Step(s, Tick) == s
  {
  }

  /** Typing `exit` in the terminal leaves it: the professional page comes
      back with an empty boot log, and the terminal is unmounted. */
  lemma ExitLeavesTerminal(s: Shell)
    requires Consistent(s) && s.mode == TerminalMode
    ensures Run(s, [Edit("exit"), Press(Enter)]) == Start
  {
    var edited := Step(s, Edit("exit"));
    assert edited.session == Some(s.session.value.(input := "exit"));
    SubmitExit(edited);
    RunTwo(s, Edit("exit"), Press(Enter));
  }

  /** Enter on the line "exit" toggles the terminal back to the professional page. */
  lemma SubmitExit(s: Shell)
    requires Consistent(s) && s.session.Some? && s.session.value.input == "exit"
    ensures Step(s, Press(Enter)) == Start
  {
    ExitKeyExits(s.session.value);
    assert Pressed(s, Enter) == ToggleMode(s);
  }

  lemma RunTwo(s: Shell, a: Event, b: Event)
    requires Consistent(s)
    ensures Run(s, [a, b]) == Step(Step(s, a), b)
  {
    var s1 := Step(s, a);
    assert Run(s, [a, b]) == Run(s1, [b]) by {
      assert [a, b][0] == a && [a, b][1..] == [b];
    }
    assert Run(s1, [b]) == Run(Step(s1, b), []) by {
      assert [b][0] == b && [b][1..] == [];
    }
  }

  /** A whole visit: toggle into the boot, let it finish, type `exit`; the
      page is back where it started. */
  lemma VisitRoundTrip()
    ensures Run(Start, [ToggleClick] + Ticks(|BootSequence| + 1) + [Edit("exit"), Press(Enter)]) == Start
  {
    BootCompletes();
    RunAppend(Start, [ToggleClick] + Ticks(|BootSequence| + 1), [Edit("exit"), Press(Enter)]);
    ExitLeavesTerminal(Run(Start, [ToggleClick] + Ticks(|BootSequence| + 1)));
  }

  /** The component's state and handlers. */
  class App {
    var mode: Mode
    var bootLog: seq<string>
    var shown: nat
    var terminal: Terminal?

    /** The fields as a value. */
    function State(): Shell
      reads this, terminal
    {
      Shell(mode, bootLog, shown, if terminal == null then None else Some(terminal.Snapshot()))
    }

    ghost predicate Valid()
      reads this, terminal
    {
      Consistent(State())
    }

    constructor ()
      ensures Valid() && State() == Start
    {
      mode, bootLog, shown, terminal := Professional, [], 0, null;
    }

    /** `handleToggleMode` together with the effect the new mode triggers. */
    method HandleToggleMode()
      requires Valid()
      modifies this
      ensures Valid()
      ensures State() == ToggleMode(old(State()))
    {
      if mode == Professional {
        mode := Booting;
        shown := 0;
      } else {
        mode := Professional;
        bootLog := [];
        shown := 0;
        terminal := null;
      }
    }

    /** One firing of the boot interval; after the last entry the page
        switches to the terminal, which mounts. */
    method Tick()
      requires Valid()
      modifies this
      ensures Valid()
      ensures State() == Ticked(old(State()))
      ensures terminal != null && terminal != old(terminal) ==> fresh(terminal)
    {
      if mode == Booting {
        if shown < |BootSequence| {
          bootLog := bootLog + [BootSequence[shown]];
          shown := shown + 1;
        } else {
          var t := new Terminal();
          terminal := t;
          mode := TerminalMode;
        }
      }
    }

    /** The terminal input's `onChange`. */
    method Edit(value: string)
      requires Valid()
      modifies this, terminal
      ensures Valid()
      ensures State() == Edited(old(State()), value)
    {
      if terminal != null {
        terminal.Edit(value);
      }
    }

    /** A key press in the terminal; `exit` toggles the mode, which unmounts it. */
    method KeyDown(key: Key)
      requires Valid()
      modifies this, terminal
      ensures Valid()
      ensures State() == Pressed(old(State()), key)
    {
      if terminal != null {
        var exit := terminal.HandleKeyDown(key);
        if exit {
          HandleToggleMode();
        }
      }
    }
  }
}
