/** The terminal's command dispatcher (`processCommand`): the command word
    is the lower-cased first space-separated token of the submitted line,
    and it selects one canned text, clearing the screen, leaving the
    terminal, or the "command not found" message. */
module Commands {
  import opened Text

  /** What a submitted command does. */
  datatype Action =
    | Respond(text: string)  // type `text` out, one response line per '\n'-separated piece
    | Clear                  // empty the output
    | Exit                   // switch back to the professional page

  /** Stand-ins for the canned texts: each keeps the first words of the
      original and is multi-line, but not its wording, accents or line
      count (help, whoami and contact keep theirs; education, skills and
      projects have 3 lines where the originals have 9, 7 and 6). */
  const HelpText: string := "Comandos disponiveis:\n"
    + "  whoami\n  education\n  skills\n  projects\n"
    + "  contact\n  clear\n  exit"
  const WhoAmIText: string := "> Wagner Daniell\n> Backend\n\nAbout me."
  const EducationText: string := "Carregando historico academico...\n"
    + "\n  [Graduacao]"
  const SkillsText: string := "Analisando competencias...\n\n  [Linguagens]"
  const ProjectsText: string := "Iniciando query...\n\n  1. Cognitus"
  const ContactText: string := "Conectando...\n\n  - GitHub\n  - LinkedIn"

  /** The words the dispatcher recognises. */
  const Known: set<string> := {"help", "whoami", "education", "skills", "projects", "contact", "clear", "exit"}

  const NotFoundPrefix: string := "bash: comando n\U{E3}o encontrado: "

  /** The message for an unrecognised command quotes it as typed. */
  function NotFound(command: string): string {
    NotFoundPrefix + command + "."
  }

  /** `command.toLowerCase().split(' ')[0]`: the lower-cased text before the
      first space. */
  function CommandWord(command: string): (w: string)
    ensures |w| <= |command|
    ensures w == Lower(command[..|w|])
    ensures ' ' !in w
    ensures |w| < |command| ==> command[|w|] == ' '
  {
    SplitSpaceLower(command);
    SplitHead(command, ' ');
    Split(Lower(command), ' ')[0]
  }

  /** The switch of `processCommand`. */
  function Dispatch(command: string): (a: Action)
    ensures a == Clear <==> CommandWord(command) == "clear"
    ensures a == Exit <==> CommandWord(command) == "exit"
    ensures CommandWord(command) !in Known <==> a == Respond(NotFound(command))
    ensures CommandWord(command) == "help" ==> a == Respond(HelpText)
    ensures CommandWord(command) == "whoami" ==> a == Respond(WhoAmIText)
    ensures CommandWord(command) == "education" ==> a == Respond(EducationText)
    ensures CommandWord(command) == "skills" ==> a == Respond(SkillsText)
    ensures CommandWord(command) == "projects" ==> a == Respond(ProjectsText)
    ensures CommandWord(command) == "contact" ==> a == Respond(ContactText)
  {
    var word := CommandWord(command);
    assert NotFound(command)[0] == 'b';
    assert HelpText[0] == 'C' && WhoAmIText[0] == '>' && EducationText[0] == 'C';
    assert SkillsText[0] == 'A' && ProjectsText[0] == 'I' && ContactText[0] == 'C';
    if word == "help" then Respond(HelpText)
    else if word == "whoami" then Respond(WhoAmIText)
    else if word == "education" then Respond(EducationText)
    else if word == "skills" then Respond(SkillsText)
    else if word == "projects" then Respond(ProjectsText)
    else if word == "contact" then Respond(ContactText)
    else if word == "clear" then Clear
    else if word == "exit" then Exit
    else Respond(NotFound(command))
  }

  /** Only the command word matters: anything after the first space, and the
      letter case of the word, are ignored when the word is recognised. */
  lemma DispatchIgnoresArguments(word: string, rest: string)
    requires Lower(word) in Known
    ensures Dispatch(word + " " + rest) == Dispatch(Lower(word))
  {
    WordBeforeSpace(word, rest);
    KnownWordIsItsOwnCommand(Lower(word));
    SameWordSameAction(word + " " + rest, Lower(word));
  }

  /** The command word of `word rest` is `word` lower-cased. */
  lemma WordBeforeSpace(word: string, rest: string)
    requires Lower(word) in Known
    ensures CommandWord(word + " " + rest) == Lower(word)
  {
    assert ' ' !in word by {
      forall i | 0 <= i < |word| ensures word[i] != ' ' {
        assert Lower(word)[i] == LowerChar(word[i]);
      }
    }
    var c := word + " " + rest;
    assert c == word + [' '] + rest;
    SplitAtFirst(word, rest, ' ');
    SplitSpaceLower(c);
  }

  /** A recognised word, typed alone, is its own command word. */
  lemma KnownWordIsItsOwnCommand(w: string)
    requires w in Known
    ensures CommandWord(w) == w
  {
    assert ' ' !in w;
    assert w == Lower(w) by {
      forall i | 0 <= i < |w| ensures Lower(w)[i] == w[i] {
        assert 'a' <= w[i] <= 'z';
      }
    }
    SplitWithout(w, ' ');
  }

  /** Two commands with the same recognised word do the same thing. */
  lemma SameWordSameAction(c1: string, c2: string)
    requires CommandWord(c1) == CommandWord(c2) && CommandWord(c1) in Known
    ensures Dispatch(c1) == Dispatch(c2)
  {
  }

  /** `HELP`, in capitals and followed by anything, prints the help text. */
  lemma UpperCaseHelp(rest: string)
    ensures Dispatch("HELP " + rest) == Respond(HelpText)
  {
    var w := "HELP";
    assert Lower(w) == "help" by {
      assert LowerChar('H') == 'h' && LowerChar('E') == 'e';
      assert LowerChar('L') == 'l' && LowerChar('P') == 'p';
      assert Lower(w) == [LowerChar('H'), LowerChar('E'), LowerChar('L'), LowerChar('P')];
    }
    WordBeforeSpace(w, rest);
    assert w + " " + rest == "HELP " + rest;
  }

  /** An unrecognised single-line command prints exactly one line, the
      not-found message with the command in its original casing. */
  lemma NotFoundIsOneLine(command: string)
    requires CommandWord(command) !in Known
    requires '\n' !in command
    ensures Dispatch(command).Respond?
    ensures Split(Dispatch(command).text, '\n') == [NotFound(command)]
  {
    assert '\n' !in NotFoundPrefix;
    assert '\n' !in NotFound(command);
    SplitWithout(NotFound(command), '\n');
  }

  /** The line "exit", as submitted, is the `exit` command. */
  lemma ExitCommand()
    ensures !IsBlank("exit") && Trim("exit") == "exit" && Dispatch("exit") == Exit
  {
    var e := "exit";
    assert !IsWhitespace(e[0]);
    TrimPadded("", e, "");
    assert "" + e + "" == e;
    ExitWord();
  }

  lemma ExitWord()
    ensures CommandWord("exit") == "exit"
  {
    var e := "exit";
    assert Lower(e) == e by {
      forall i | 0 <= i < |e| ensures Lower(e)[i] == e[i] {
        assert 'a' <= e[i] <= 'z';
      }
    }
    SplitWithout(e, ' ');
  }
}
