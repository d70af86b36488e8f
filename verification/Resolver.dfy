/** The location a break command means: resolveBreakpointLocation. */
module Resolver {
  import opened GoStrings
  import opened Locations
  import opened Snapshots

  /** The package clause of a file: None when it cannot be parsed, and empty when it names none. */
  type Packages = string -> Option<string>

  predicate IsLetter(c: char) {
    'a' <= c <= 'z' || 'A' <= c <= 'Z' || c == '_'
  }

  const KEYWORDS: seq<string> :=
    ["break", "case", "chan", "const", "continue", "default", "defer", "else", "fallthrough", "for", "func",
     "go", "goto", "if", "import", "interface", "map", "package", "range", "return", "select", "struct",
     "switch", "type", "var"]

  /** token.IsIdentifier, for names of ASCII bytes. */
  predicate IsIdentifier(name: string) {
    && name != "" && name !in KEYWORDS
    && IsLetter(name[0])
    && forall i :: 0 <= i < |name| ==> IsLetter(name[i]) || IsDigit(name[i])
  }

  predicate IsBareSymbol(text: string) {
    ':' !in text && '.' !in text && IsIdentifier(text)
  }

  function CurrentFile(snapshot: Option<Snapshot>): string {
    if snapshot.Some? && snapshot.value.frame.Some? then snapshot.value.frame.value.file else ""
  }

  /** A line number means that line of the current file, a bare symbol one of the current file's package;
      any other text stands for itself. */
  function Resolve(raw: string, snapshot: Option<Snapshot>, packages: Packages): Option<string> {
    var text := TrimSpace(raw);
    var file := CurrentFile(snapshot);
    var line := Atoi(text);
    if text == "" then None
    else if line.Some? && line.value > 0 then
      if file == "" then None else Some(FormatFileLine(file, line.value))
    else if IsBareSymbol(text) then
      match if file == "" then Some("") else packages(file)
      case None => None
      case Some(name) => Some(if name == "" then text else name + "." + text)
    else Some(text)
  }

  /** A line number is resolved to a location that parses back to that line of the current file. */
  lemma LineOfTheCurrentFile(raw: string, snapshot: Option<Snapshot>, packages: Packages, line: nat)
    requires Atoi(TrimSpace(raw)) == Some(line) && line > 0 && CurrentFile(snapshot) != ""
    ensures var r := Resolve(raw, snapshot, packages);
            r.Some? && ParseFileLine(r.value) == AtLine(CurrentFile(snapshot), line)
  {
    ParseOfFormat(CurrentFile(snapshot), line);
  }

  lemma NoNumber(text: string, c: char, i: nat)
    requires i < |text| && text[i] == c && !IsDigit(c) && c != '-' && c != '+'
    ensures Atoi(text).None?
  {
    var body := if text[0] == '-' || text[0] == '+' then text[1..] else text;
    assert body[if body == text then i else i - 1] == c;
  }

  /** What a text is resolved to is resolved to itself, at the same place. */
  lemma {:induction false} ResolvingAgainChangesNothing(raw: string, snapshot: Option<Snapshot>, packages: Packages)
    requires var r := Resolve(raw, snapshot, packages); r.Some? && Trimmed(r.value)
    ensures Resolve(Resolve(raw, snapshot, packages).value, snapshot, packages) == Resolve(raw, snapshot, packages)
  {
    hide Atoi, TrimSpace, IsIdentifier;
    var text := TrimSpace(raw);
    var file := CurrentFile(snapshot);
    var location := Resolve(raw, snapshot, packages).value;
    var line := Atoi(text);
    if line.Some? && line.value > 0 {
      assert location[|file|] == ':';
      NoNumber(location, ':', |file|);
    } else if IsBareSymbol(text) && location != text {
      var name := packages(file).value;
      assert location[|name|] == '.';
      NoNumber(location, '.', |name|);
    }
  }

  // ---------- in plain terms ----------

  /** Letters, digits and underscores only. */
  predicate OfWordBytes(text: string) {
    forall c :: c in text ==> 'a' <= c <= 'z' || 'A' <= c <= 'Z' || c == '_' || '0' <= c <= '9'
  }

  /** A bare symbol stands for the symbol of the current file's package, and for itself without a file or a
      package name; when the file cannot be parsed it stands for nothing. */
  lemma SymbolOfTheCurrentPackage(raw: string, snapshot: Option<Snapshot>, packages: Packages)
    requires var text := TrimSpace(raw);
             text != "" && text !in KEYWORDS && !IsDigit(text[0]) && OfWordBytes(text)
    ensures var text := TrimSpace(raw);
            var file :=
              if snapshot.Some? && snapshot.value.frame.Some? then snapshot.value.frame.value.file else "";
            Resolve(raw, snapshot, packages)
              == if file == "" then Some(text)
                 else if packages(file).None? then None
                 else if packages(file).value == "" then Some(text)
                 else Some(packages(file).value + "." + text)
  {
    hide TrimSpace, Atoi;
    var text := TrimSpace(raw);
    assert forall i :: 0 <= i < |text| ==> text[i] in text;
    assert IsIdentifier(text);
    NoNumber(text, text[0], 0);
    assert ':' !in text && '.' !in text;
  }

  /** A text with a colon or a dot in it stands for itself, trimmed. */
  lemma OtherTextsStand(raw: string, snapshot: Option<Snapshot>, packages: Packages, i: nat)
    requires i < |TrimSpace(raw)| && (TrimSpace(raw)[i] == ':' || TrimSpace(raw)[i] == '.')
    ensures Resolve(raw, snapshot, packages) == Some(TrimSpace(raw))
  {
    hide TrimSpace, Atoi;
    NoNumber(TrimSpace(raw), TrimSpace(raw)[i], i);
  }

  /** A number is a line of the current file, and nothing without one; a blank text is nothing. */
  lemma NumbersAreLines(raw: string, snapshot: Option<Snapshot>, packages: Packages, line: nat)
    requires Atoi(TrimSpace(raw)) == Some(line) && line > 0
    ensures var file :=
              if snapshot.Some? && snapshot.value.frame.Some? then snapshot.value.frame.value.file else "";
            Resolve(raw, snapshot, packages) == if file == "" then None else Some(file + ":" + Itoa(line))
    ensures Resolve("", snapshot, packages) == None
  {
  }

  /** A keyword of Go is no symbol: it stands for itself. */
  lemma KeywordsStand(raw: string, snapshot: Option<Snapshot>, packages: Packages)
    requires TrimSpace(raw) in KEYWORDS
    ensures KEYWORDS
              == ["break", "case", "chan", "const", "continue", "default", "defer", "else", "fallthrough", "for",
                  "func", "go", "goto", "if", "import", "interface", "map", "package", "range", "return", "select",
                  "struct", "switch", "type", "var"]
    ensures Resolve(raw, snapshot, packages) == Some(TrimSpace(raw))
  {
    hide TrimSpace, Atoi;
    var text := TrimSpace(raw);
    KeywordsBeginWithLetters();
    NoNumber(text, text[0], 0);
  }

  lemma KeywordsBeginWithLetters()
    ensures forall word :: word in KEYWORDS ==> word != "" && 'a' <= word[0] <= 'z'
  {
  }
}
