/** The command line of the terminal loop: its modes, its buffer and its history, key by key. */
module Editor {
  import opened GoStrings

  const HISTORY_LIMIT: nat := 100
  const CTRL_C: char := 3 as char
  const CTRL_D: char := 4 as char
  const BACKSPACE: char := 8 as char
  const ESCAPE: char := 27 as char
  const DELETE: char := 127 as char

  predicate IsPrintable(b: char) {
    32 <= b as int <= 126
  }

  // ---------- history ----------

  /** appendTTYCommandHistory */
  function AppendHistory(history: seq<string>, text: string): seq<string> {
    var command := TrimSpace(text);
    if command == "" then history else LastN(HISTORY_LIMIT, history + [command])
  }

  /** append(draft[:0], buffer...): a nil draft stays nil when there is nothing to save. */
  function Saved(draft: Option<string>, buffer: string): Option<string> {
    if draft.None? && buffer == "" then None else Some(buffer)
  }

  datatype Line = Line(buffer: string, index: int, draft: Option<string>)

  /** previousTTYHistory */
  function PreviousHistory(line: Line, history: seq<string>): Line
    requires line.index < |history|
  {
    if history == [] then line
    else if line.index < 0 then Line(history[|history| - 1], |history| - 1, Saved(line.draft, line.buffer))
    else
      var index := if line.index > 0 then line.index - 1 else 0;
      Line(history[index], index, line.draft)
  }

  /** nextTTYHistory */
  function NextHistory(line: Line, history: seq<string>): Line
    requires line.index < |history|
  {
    if history == [] || line.index < 0 then line
    else if line.index < |history| - 1 then Line(history[line.index + 1], line.index + 1, line.draft)
    else Line(if line.draft.Some? then line.draft.value else "", -1, None)
  }

  // ---------- keys ----------

  datatype Editor = Editor(commandMode: bool, line: Line, history: seq<string>)

  /** A byte, or what the bytes after an escape spelled out. */
  datatype Key = Plain(b: char) | EscapeKey | ArrowUp | ArrowDown | OtherSequence

  /** What a key asks of the loop besides changing the command line. */
  datatype Effect = Nothing | Submit(text: string) | Stop | Interrupt | LeaveInspection

  const EMPTY_LINE: Line := Line("", -1, None)
  const FRESH: Editor := Editor(false, EMPTY_LINE, [])

  function Submitted(e: Editor, text: string): (Editor, Effect) {
    (Editor(false, EMPTY_LINE, AppendHistory(e.history, text)), Submit(text))
  }

  function PressByte(e: Editor, b: char): (Editor, Effect) {
    if b == CTRL_C then (e, Interrupt)
    else if b == CTRL_D && (!e.commandMode || e.line.buffer == "") then (e, Stop)
    else if b == '\r' || b == '\n' then
      if e.commandMode then Submitted(e, TrimSpace(e.line.buffer)) else (e, Nothing)
    else if b == DELETE || b == BACKSPACE then
      var buffer := e.line.buffer;
      if !e.commandMode || buffer == "" then (e, Nothing)
      else (e.(line := Line(buffer[..|buffer| - 1], -1, None)), Nothing)
    else if e.commandMode then
      if IsPrintable(b) then (e.(line := Line(e.line.buffer + [b], -1, None)), Nothing) else (e, Nothing)
    else if b == 'q' then (e, Stop)
    else if b in "hbcnslo" then Submitted(e, [b])
    else if b == ':' then (e.(commandMode := true, line := Line(":", -1, None)), Nothing)
    else (e, Nothing)
  }

  /** One key of the loop's switch, when the session is live. */
  function PressLive(e: Editor, key: Key, inspecting: bool): (Editor, Effect)
    requires e.line.index < |e.history| || e.history == []
  {
    match key
    case Plain(b) => PressByte(e, b)
    case ArrowUp =>
      if e.history == [] then (e, Nothing)
      else
        var line := if e.commandMode then e.line else EMPTY_LINE;
        (e.(commandMode := true, line := PreviousHistory(line, e.history)), Nothing)
    case ArrowDown =>
      if !e.commandMode || e.history == [] then (e, Nothing)
      else (e.(line := NextHistory(e.line, e.history)), Nothing)
    case EscapeKey =>
      if e.commandMode then (e.(commandMode := false, line := EMPTY_LINE), Nothing)
      else (e, if inspecting then LeaveInspection else Nothing)
    case OtherSequence => (e, Nothing)
  }

  /** A key at a loop head, where the program may have exited and an inspection may be open. */
  function Press(e: Editor, key: Key, exited: bool, inspecting: bool): (Editor, Effect)
    requires e.line.index < |e.history| || e.history == []
  {
    if exited && !e.commandMode then
      if key == Plain('o') && !inspecting then Submitted(e, "o") else (e, Stop)
    else PressLive(e, key, inspecting)
  }

  // ---------- what every key keeps ----------

  /** Outside command mode the line is empty; the index is -1 or in bounds; only a recalled entry has an
      index and then the buffer is that entry; without an index no draft is saved. */
  ghost predicate Tidy(e: Editor) {
    && (!e.commandMode ==> e.line == EMPTY_LINE)
    && -1 <= e.line.index < |e.history|
    && (e.line.index == -1 ==> e.line.draft.None?)
    && (e.line.index >= 0 ==> e.line.buffer == e.history[e.line.index])
  }

  lemma PressKeepsTidy(e: Editor, key: Key, exited: bool, inspecting: bool)
    requires Tidy(e)
    ensures Tidy(Press(e, key, exited, inspecting).0)
  {
  }

  // ---------- whole runs ----------

  /** A key and what its loop head saw. */
  datatype Pressed = Pressed(key: Key, exited: bool, inspecting: bool)

  /** The command line after a run of keys from a fresh loop. */
  ghost function Replay(presses: seq<Pressed>): (e: Editor)
    ensures Tidy(e)
    decreases |presses|
  {
    if presses == [] then FRESH
    else
      var last := presses[|presses| - 1];
      var before := Replay(presses[..|presses| - 1]);
      PressKeepsTidy(before, last.key, last.exited, last.inspecting);
      Press(before, last.key, last.exited, last.inspecting).0
  }

  /** What the last key of a run asked for. */
  ghost function LastEffect(presses: seq<Pressed>): Effect
    requires presses != []
  {
    var last := presses[|presses| - 1];
    Press(Replay(presses[..|presses| - 1]), last.key, last.exited, last.inspecting).1
  }

  /** Every command text a run submitted, in order. */
  ghost function Submissions(presses: seq<Pressed>): seq<string>
    decreases |presses|
  {
    if presses == [] then []
    else
      var before := Submissions(presses[..|presses| - 1]);
      var effect := LastEffect(presses);
      if effect.Submit? then before + [effect.text] else before
  }

  /** The non-blank texts, trimmed. */
  function Kept(texts: seq<string>): seq<string> {
    if texts == [] then []
    else
      var init := Kept(texts[..|texts| - 1]);
      var command := TrimSpace(texts[|texts| - 1]);
      if command == "" then init else init + [command]
  }

  lemma LastNSnoc<T>(n: nat, s: seq<T>, x: T)
    requires n > 0
    ensures LastN(n, LastN(n, s) + [x]) == LastN(n, s + [x])
  {
  }

  lemma OnlySubmittingTouchesHistory(e: Editor, key: Key, exited: bool, inspecting: bool)
    requires Tidy(e)
    ensures var (after, effect) := Press(e, key, exited, inspecting);
            after.history == if effect.Submit? then AppendHistory(e.history, effect.text) else e.history
  {
  }

  /** In every run the history is the last hundred non-blank commands submitted, oldest first. */
  lemma {:induction false} HistoryIsTheLastHundred(presses: seq<Pressed>)
    ensures Replay(presses).history == LastN(HISTORY_LIMIT, Kept(Submissions(presses)))
    decreases |presses|
  {
    hide Press, TrimSpace;
    if presses != [] {
      var init := presses[..|presses| - 1];
      var last := presses[|presses| - 1];
      HistoryIsTheLastHundred(init);
      OnlySubmittingTouchesHistory(Replay(init), last.key, last.exited, last.inspecting);
      var effect := LastEffect(presses);
      if effect.Submit? {
        var texts := Submissions(init);
        assert (texts + [effect.text])[..|texts|] == texts;
        LastNSnoc(HISTORY_LIMIT, Kept(texts), TrimSpace(effect.text));
      }
    }
  }

  // ---------- up and down ----------

  ghost function Ups(e: Editor, k: nat): (r: Editor)
    requires Tidy(e)
    ensures Tidy(r)
  {
    if k == 0 then e
    else
      var before := Ups(e, k - 1);
      PressKeepsTidy(before, ArrowUp, false, false);
      Press(before, ArrowUp, false, false).0
  }

  ghost function Downs(e: Editor, k: nat): (r: Editor)
    requires Tidy(e)
    ensures Tidy(r)
  {
    if k == 0 then e
    else
      var before := Downs(e, k - 1);
      PressKeepsTidy(before, ArrowDown, false, false);
      Press(before, ArrowDown, false, false).0
  }

  function Smaller(a: int, b: int): int {
    if a < b then a else b
  }

  /** k Ups show the k-th entry from the end, and stay on the oldest one. */
  lemma {:induction false} UpsLand(e: Editor, k: nat)
    requires Tidy(e) && e.line.index == -1 && e.history != [] && k >= 1
    ensures var i := |e.history| - Smaller(k, |e.history|);
            Ups(e, k) == Editor(true, Line(e.history[i], i, Saved(None, e.line.buffer)), e.history)
  {
    if k > 1 {
      UpsLand(e, k - 1);
    }
  }

  lemma {:induction false} DownsClimb(e: Editor, k: nat)
    requires Tidy(e) && e.commandMode && e.line.index >= 0 && e.line.index + k < |e.history|
    ensures var i := e.line.index + k;
            Downs(e, k) == Editor(true, Line(e.history[i], i, e.line.draft), e.history)
  {
    if k > 0 {
      DownsClimb(e, k - 1);
    }
  }

  /** One more Down, when the newest entry is recalled, gives the saved draft back. */
  lemma DownFromTheNewest(e: Editor, k: nat)
    requires Tidy(e) && Downs(e, k).commandMode && Downs(e, k).history != []
    requires Downs(e, k).line.index == |Downs(e, k).history| - 1
    ensures var before := Downs(e, k);
            var draft := before.line.draft;
            Downs(e, k + 1) == Editor(true, Line(if draft.Some? then draft.value else "", -1, None), before.history)
  {
  }

  /** From any draft, k Ups and then min(k, n) Downs over n entries give the draft back,
      with no entry recalled and no draft saved. */
  lemma UpsThenDowns(e: Editor, k: nat)
    requires Tidy(e) && e.line.index == -1 && e.history != [] && k >= 1
    ensures Downs(Ups(e, k), Smaller(k, |e.history|)) == Editor(true, Line(e.line.buffer, -1, None), e.history)
  {
    hide Ups, Downs, Press;
    var m := Smaller(k, |e.history|);
    UpsLand(e, k);
    DownsClimb(Ups(e, k), m - 1);
    DownFromTheNewest(Ups(e, k), m - 1);
  }

  // ---------- typing ----------

  predicate AllPrintable(text: string) {
    forall i :: 0 <= i < |text| ==> IsPrintable(text[i])
  }

  ghost function Type(e: Editor, text: string): (r: Editor)
    requires Tidy(e)
    ensures Tidy(r)
    decreases |text|
  {
    if text == "" then e
    else
      var before := Type(e, text[..|text| - 1]);
      var key := Plain(text[|text| - 1]);
      PressKeepsTidy(before, key, false, false);
      Press(before, key, false, false).0
  }

  lemma PrintableAppends(e: Editor, b: char)
    requires Tidy(e) && e.commandMode && IsPrintable(b)
    ensures Press(e, Plain(b), false, false) == (e.(line := Line(e.line.buffer + [b], -1, None)), Nothing)
  {
  }

  lemma ColonOpens(e: Editor)
    requires Tidy(e) && !e.commandMode
    ensures Press(e, Plain(':'), false, false) == (e.(commandMode := true, line := Line(":", -1, None)), Nothing)
  {
  }

  lemma {:induction false} TypingAppends(e: Editor, text: string)
    requires Tidy(e) && e.commandMode && AllPrintable(text) && text != ""
    ensures Type(e, text) == e.(line := Line(e.line.buffer + text, -1, None))
    decreases |text|
  {
    hide Press;
    var init, b := text[..|text| - 1], text[|text| - 1];
    if init == "" {
      assert text == [b];
      NothingTyped(e);
      PrintableAppends(e, b);
    } else {
      TypingAppends(e, init);
      PrintableAppends(Type(e, init), b);
      assert e.line.buffer + text == e.line.buffer + init + [b];
    }
  }

  /** In command mode a backspace takes back a printable byte; any recalled entry becomes plain text. */
  lemma BackspaceUndoes(e: Editor, b: char, back: char)
    requires Tidy(e) && e.commandMode && IsPrintable(b) && (back == DELETE || back == BACKSPACE)
    ensures var typed := Press(e, Plain(b), false, false).0;
            Press(typed, Plain(back), false, false) == (e.(line := Line(e.line.buffer, -1, None)), Nothing)
  {
    var buffer := e.line.buffer;
    assert (buffer + [b])[..|buffer|] == buffer;
  }

  lemma EnterSubmits(e: Editor, enter: char)
    requires Tidy(e) && e.commandMode && (enter == '\r' || enter == '\n')
    ensures var text := TrimSpace(e.line.buffer);
            Press(e, Plain(enter), false, false)
              == (Editor(false, EMPTY_LINE, AppendHistory(e.history, text)), Submit(text))
  {
    hide TrimSpace, AppendHistory;
  }

  lemma AppendTrims(history: seq<string>, text: string)
    ensures AppendHistory(history, TrimSpace(text)) == AppendHistory(history, text)
  {
  }

  /** Outside command mode, a colon, a printable text and Enter submit exactly that text, trimmed,
      and leave command mode with one more entry in the history. */
  lemma TypedTextIsSubmitted(e: Editor, text: string, enter: char)
    requires Tidy(e) && !e.commandMode && AllPrintable(text) && (enter == '\r' || enter == '\n')
    ensures var typed := Type(e, [':'] + text);
            Press(typed, Plain(enter), false, false)
              == (Editor(false, EMPTY_LINE, AppendHistory(e.history, [':'] + text)), Submit(TrimSpace([':'] + text)))
  {
    hide TrimSpace, AppendHistory, Type, Press;
    ColonOpens(e);
    PressKeepsTidy(e, Plain(':'), false, false);
    var begun := Press(e, Plain(':'), false, false).0;
    TypeFirst(e, ':', text);
    if text == "" {
      NothingTyped(begun);
      assert [':'] + text == ":";
    } else {
      TypingAppends(begun, text);
      assert [':'] + text == ":" + text;
    }
    EnterSubmits(Type(begun, text), enter);
    AppendTrims(e.history, [':'] + text);
  }

  lemma NothingTyped(e: Editor)
    requires Tidy(e)
    ensures Type(e, "") == e
  {
  }

  lemma {:induction false} TypeFirst(e: Editor, b: char, text: string)
    requires Tidy(e)
    ensures Tidy(Press(e, Plain(b), false, false).0)
    ensures Type(e, [b] + text) == Type(Press(e, Plain(b), false, false).0, text)
    decreases |text|
  {
    hide Press;
    PressKeepsTidy(e, Plain(b), false, false);
    if text == "" {
      assert ([b] + text)[..0] == "";
      assert Type(e, "") == e;
    } else {
      var init := text[..|text| - 1];
      TypeFirst(e, b, init);
      assert ([b] + text)[..|text|] == [b] + init;
    }
  }

  // ---------- in plain terms ----------

  /** The keys of a live session outside command mode. */
  lemma KeysOutside(e: Editor, b: char, inspecting: bool)
    requires Tidy(e) && !e.commandMode
    ensures var (after, effect) := Press(e, Plain(b), false, inspecting);
            if b == 3 as char then after == e && effect == Interrupt
            else if b == 4 as char || b == 'q' then after == e && effect == Stop
            else if b == 'h' || b == 'b' || b == 'c' || b == 'n' || b == 's' || b == 'l' || b == 'o' then
              !after.commandMode && effect == Submit([b])
            else if b == ':' then
              && after.commandMode && after.line.buffer == ":" && after.line.index == -1
              && after.history == e.history && effect == Nothing
            else after == e && effect == Nothing
  {
  }

  /** And in command mode. */
  lemma KeysInside(e: Editor, b: char, exited: bool, inspecting: bool)
    requires Tidy(e) && e.commandMode
    ensures var (after, effect) := Press(e, Plain(b), exited, inspecting);
            var buffer := e.line.buffer;
            if b == 3 as char then after == e && effect == Interrupt
            else if b == 4 as char && buffer == "" then after == e && effect == Stop
            else if b == 13 as char || b == 10 as char then
              !after.commandMode && after.line.buffer == "" && effect == Submit(TrimSpace(buffer))
            else if (b == 8 as char || b == 127 as char) && buffer != "" then
              && after.commandMode && after.line.buffer == buffer[..|buffer| - 1] && after.line.index == -1
              && after.history == e.history && effect == Nothing
            else if 32 <= b as int < 127 then
              && after.commandMode && after.line.buffer == buffer + [b] && after.line.index == -1
              && after.history == e.history && effect == Nothing
            else after == e && effect == Nothing
  {
  }

  /** An escape leaves command mode, and otherwise the inspection; after the exit every key but `o` over no
      inspection stops. */
  lemma EscapeAndExit(e: Editor, key: Key, inspecting: bool)
    requires Tidy(e)
    ensures var (after, effect) := Press(e, EscapeKey, false, inspecting);
            && !after.commandMode && after.history == e.history
            && effect == if !e.commandMode && inspecting then LeaveInspection else Nothing
    ensures !e.commandMode ==>
              var effect := Press(e, key, true, inspecting).1;
              if key == Plain('o') && !inspecting then effect == Submit("o") else effect == Stop
  {
  }

  /** The history takes a trimmed text at its end, and drops its oldest entry when it has a hundred. */
  lemma HistoryInFields(history: seq<string>, text: string)
    requires |history| <= 100
    ensures var now := AppendHistory(history, text);
            if TrimSpace(text) == "" then now == history
            else
              && |now| == (if |history| < 100 then |history| + 1 else 100)
              && now[|now| - 1] == TrimSpace(text) && now[..|now| - 1] == history[|history| + 1 - |now|..]
  {
    hide TrimSpace;
  }
}
