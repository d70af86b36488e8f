/** Command texts: what each asks for, and how it is carried out. */
module Commands {
  import opened GoStrings
  import opened Snapshots

  /** What a command text asks for. */
  datatype Order =
    | Nothing
    | Leave
    | ShowHelp
    | ShowBreakpoints
    | SetBreakpoint(location: string)
    | Act(action: Action)
    | Expand(name: string)
    | ShowLocals
    | Evaluate(expr: string)
    | ShowOutput
    | Mistake

  /** The first field of a text that does not begin with white space. */
  function FirstWord(text: string): (word: string)
    ensures word <= text
    ensures text != "" && !IsSpace(text[0]) ==> word != ""
  {
    if text == "" || IsSpace(text[0]) then ""
    else
      var rest := FirstWord(text[1..]);
      assert text == [text[0]] + text[1..];
      [text[0]] + rest
  }

  function ByWord(colon: bool, word: string, argument: string): Order {
    if word == "q" then Leave
    else if word == "h" then ShowHelp
    else if word == "b" then
      if !colon then ShowBreakpoints else if argument == "" then Mistake else SetBreakpoint(argument)
    else if word == "c" then Act(Continue)
    else if word == "n" then Act(Next)
    else if word == "s" then Act(StepIn)
    else if word == "e" then
      if !colon || argument == "" then Mistake else Expand(argument)
    else if word == "l" then
      if colon && argument != "" then Evaluate(argument) else ShowLocals
    else if word == "o" then ShowOutput
    else Mistake
  }

  /** What executeCommandText makes of a trimmed text. */
  function Understand(text: string, exited: bool): Order
    requires Trimmed(text)
  {
    var colon := text != "" && text[0] == ':';
    var body := if colon then TrimSpace(text[1..]) else text;
    if body == "" then Nothing
    else
      var word := FirstWord(body);
      if exited then (if word == "o" then ShowOutput else Leave)
      else ByWord(colon, word, TrimSpace(body[|word|..]))
  }

  /** After the exit a text means what it meant before when that is output or nothing, and leaving otherwise. */
  lemma AfterExitOnlyOutput(text: string)
    requires Trimmed(text)
    ensures Understand(text, true) == match Understand(text, false)
                                      case Nothing => Nothing
                                      case ShowOutput => ShowOutput
                                      case _ => Leave
  {
    var colon := text != "" && text[0] == ':';
    var body := if colon then TrimSpace(text[1..]) else text;
    if body != "" {
      OnlyOneWordIsOutput(colon, FirstWord(body), TrimSpace(body[|FirstWord(body)|..]));
    }
  }

  lemma OnlyOneWordIsOutput(colon: bool, word: string, argument: string)
    ensures ByWord(colon, word, argument).ShowOutput? <==> word == "o"
    ensures !ByWord(colon, word, argument).Nothing?
  {
  }

  /** A shortcut key means what the same letter means after a colon, except `b`:
      the key lists breakpoints, and the colon command needs a location. */
  lemma {:induction false} ShortcutsAgree(b: char, exited: bool)
    requires b in "hbcnslo"
    ensures Understand([b], exited) == Understand([':', b], exited) || (b == 'b' && !exited)
    ensures Understand("b", false) == ShowBreakpoints && Understand(":b", false) == Mistake
  {
    LetterIsAWord(b);
    LetterIsAWord('b');
    assert [':', b][1..] == [b];
    assert ":b"[1..] == "b" == ['b'];
    assert [b][1..] == "";
  }

  lemma LetterIsAWord(b: char)
    requires !IsSpace(b)
    ensures FirstWord([b]) == [b] && TrimSpace([b]) == [b]
  {
    assert [b][1..] == "";
  }

  /** White space around what follows the colon does not matter. */
  lemma {:induction false} SpacingAfterColon(text: string, exited: bool)
    ensures Understand(TrimSpace([':'] + text), exited) == Understand(TrimSpace([':'] + TrimSpace(text)), exited)
  {
    ColonTrim(text);
    ColonTrim(TrimSpace(text));
    TrimRightThenLeft(text);
    TrimRightThenLeft(TrimSpace(text));
  }

  lemma ColonTrim(text: string)
    ensures TrimSpace([':'] + text) == [':'] + TrimRight(text)
  {
    ColonTrimRight(text);
  }

  lemma {:induction false} ColonTrimRight(text: string)
    ensures TrimRight([':'] + text) == [':'] + TrimRight(text)
  {
    if text != "" && IsSpace(text[|text| - 1]) {
      assert ([':'] + text)[..|text|] == [':'] + text[..|text| - 1];
      ColonTrimRight(text[..|text| - 1]);
    }
  }

  lemma {:induction false} TrimLeftOfRight(s: string)
    ensures TrimLeft(TrimRight(s)) == TrimRight(TrimLeft(s))
    decreases |s|
  {
    if s != "" && IsSpace(s[0]) {
      TrimLeftOfRight(s[1..]);
      TrimRightCons(s[0], s[1..]);
      assert s == [s[0]] + s[1..];
      if TrimRight(s[1..]) != "" {
        assert ([s[0]] + TrimRight(s[1..]))[1..] == TrimRight(s[1..]);
      }
    } else if s != "" {
      KeepsFirst(s);
    }
  }

  /** A leading white space survives right trimming only when something else does. */
  lemma {:induction false} TrimRightCons(c: char, s: string)
    requires IsSpace(c)
    ensures TrimRight([c] + s) == if TrimRight(s) == "" then "" else [c] + TrimRight(s)
  {
    if s == "" {
      assert ([c] + s)[..0] == "";
    } else if IsSpace(s[|s| - 1]) {
      assert ([c] + s)[..|s|] == [c] + s[..|s| - 1];
      TrimRightCons(c, s[..|s| - 1]);
    }
  }

  lemma TrimRightThenLeft(text: string)
    ensures TrimSpace(TrimRight(text)) == TrimSpace(text)
  {
    TrimLeftOfRight(text);
  }

  // ---------- in plain terms ----------

  lemma TrimOfSpaced(argument: string)
    requires Trimmed(argument) && argument != ""
    ensures TrimSpace(" " + argument) == argument
  {
    assert (" " + argument)[0] == ' ' && (" " + argument)[1..] == argument;
    assert TrimLeft(argument) == argument;
    assert TrimLeft(" " + argument) == argument;
  }

  lemma WordBefore(c: char, argument: string)
    requires !IsSpace(c)
    ensures FirstWord([c] + " " + argument) == [c]
  {
    var body := [c] + " " + argument;
    assert body[1..][0] == ' ';
    assert FirstWord(body[1..]) == "";
  }

  /** A letter and what follows it, behind a colon or not. */
  lemma LetterAndArgument(text: string, c: char, argument: string, colon: bool)
    requires !IsSpace(c) && c != ':' && argument != "" && Trimmed(argument)
    requires text == (if colon then ":" else "") + ([c] + " " + argument)
    ensures Trimmed(text) && Understand(text, false) == ByWord(colon, [c], argument)
  {
    hide ByWord, FirstWord;
    var body := [c] + " " + argument;
    assert if colon then text[0] == ':' && text[1..] == body else text == body;
    assert Trimmed(body);
    assert body[|[c]|..] == " " + argument;
    WordBefore(c, argument);
    TrimOfSpaced(argument);
  }

  /** The commands with an argument. */
  lemma WithArgument(text: string, argument: string)
    requires argument != "" && Trimmed(argument) && Trimmed(text)
    ensures text == ":b " + argument ==> Understand(text, false) == SetBreakpoint(argument)
    ensures text == ":e " + argument ==> Understand(text, false) == Expand(argument)
    ensures text == ":l " + argument ==> Understand(text, false) == Evaluate(argument)
    ensures text == "b " + argument ==> Understand(text, false) == ShowBreakpoints
    ensures text == "l " + argument ==> Understand(text, false) == ShowLocals
    ensures text == "e " + argument ==> Understand(text, false) == Mistake
  {
    hide Understand, ByWord;
    Words(argument);
    if |text| == |argument| + 3 && text[0] == ':' {
      var c := text[1];
      if c in "bel" && text == ":" + ([c] + " " + argument) {
        LetterAndArgument(text, c, argument, true);
      }
    } else if |text| == |argument| + 2 {
      var c := text[0];
      if c in "bel" && text == "" + ([c] + " " + argument) {
        LetterAndArgument(text, c, argument, false);
      }
    }
  }

  lemma Words(argument: string)
    requires argument != ""
    ensures ByWord(true, "b", argument) == SetBreakpoint(argument) && ByWord(true, "e", argument) == Expand(argument)
    ensures ByWord(true, "l", argument) == Evaluate(argument) && ByWord(false, "b", argument) == ShowBreakpoints
    ensures ByWord(false, "l", argument) == ShowLocals && ByWord(false, "e", argument) == Mistake
  {
  }

  /** A letter alone, behind a colon or not. */
  lemma LetterAlone(text: string, c: char)
    requires !IsSpace(c) && c != ':'
    requires text == [c] || text == [':', c]
    ensures Trimmed(text) && Understand(text, false) == ByWord(text != [c], [c], "")
  {
    hide ByWord;
    LetterIsAWord(c);
    assert text == [':', c] ==> text[1..] == [c];
    assert [c][1..] == "";
  }

  /** What each letter means, with or without the colon. */
  lemma Vocabulary(text: string)
    requires Trimmed(text)
    ensures text == "c" || text == ":c" ==> Understand(text, false) == Act(Continue)
    ensures text == "n" || text == ":n" ==> Understand(text, false) == Act(Next)
    ensures text == "s" || text == ":s" ==> Understand(text, false) == Act(StepIn)
    ensures text == "q" || text == ":q" ==> Understand(text, false) == Leave
    ensures text == "h" || text == ":h" ==> Understand(text, false) == ShowHelp
    ensures text == "l" || text == ":l" ==> Understand(text, false) == ShowLocals
    ensures text == "o" || text == ":o" ==> Understand(text, false) == ShowOutput
    ensures text == "e" || text == ":e" ==> Understand(text, false) == Mistake
    ensures text == "b" ==> Understand(text, false) == ShowBreakpoints
    ensures text == ":b" ==> Understand(text, false) == Mistake
    ensures text == "" || text == ":" ==> Understand(text, false) == Nothing
  {
    hide Understand, ByWord;
    if |text| == 2 || text in ["c", "n", "s", "q", "h", "l", "o", "e", "b"] {
      var c := text[|text| - 1];
      Letters(text != [c]);
      if c in "cnsqhloeb" && (text == [c] || text == [':', c]) {
        LetterAlone(text, c);
      }
    } else if text == "" || text == ":" {
      NothingTyped(text);
    }
  }

  lemma Letters(colon: bool)
    ensures ByWord(colon, "c", "") == Act(Continue) && ByWord(colon, "n", "") == Act(Next)
    ensures ByWord(colon, "s", "") == Act(StepIn) && ByWord(colon, "q", "") == Leave
    ensures ByWord(colon, "h", "") == ShowHelp && ByWord(colon, "l", "") == ShowLocals
    ensures ByWord(colon, "o", "") == ShowOutput && ByWord(colon, "e", "") == Mistake
    ensures ByWord(colon, "b", "") == if colon then Mistake else ShowBreakpoints
  {
  }

  lemma NothingTyped(text: string)
    requires text == "" || text == ":"
    ensures Understand(text, false) == Nothing
  {
    assert ":"[1..] == "";
  }

  /** Any other first word is a mistake. */
  lemma OtherWords(text: string)
    requires Trimmed(text) && text != "" && text[0] != ':'
    requires FirstWord(text) !in ["q", "h", "b", "c", "n", "s", "e", "l", "o"]
    ensures Understand(text, false) == Mistake
  {
    hide TrimSpace;
  }

  /** The first word ends where the text does or at white space, and has none inside. */
  lemma {:induction false} WordEnds(text: string)
    ensures var word := FirstWord(text);
            && (forall i :: 0 <= i < |word| ==> word[i] == text[i] && !IsSpace(word[i]))
            && (word == text || IsSpace(text[|word|]))
  {
    if text != "" && !IsSpace(text[0]) {
      WordEnds(text[1..]);
      assert text == [text[0]] + text[1..];
    }
  }
}
