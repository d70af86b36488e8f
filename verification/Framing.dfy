/** The Content-Length framing of the Debug Adapter Protocol ("Base Protocol"):
    a printer and a parser over one byte stream. */
module Framing {
  import opened GoStrings

  datatype FrameError = HeaderCut | BadLength | MissingLength | PayloadCut

  /** What one header line means to the reader. */
  datatype Meaning = EndOfHeader | Ignored | Length(n: int) | Malformed

  const CRLF: string := "\r\n"

  function TrimLineEnd(s: string): (r: string)
    ensures r <= s
    ensures s != "" && s[|s| - 1] != '\r' && s[|s| - 1] != '\n' ==> r == s
  {
    if s != "" && (s[|s| - 1] == '\r' || s[|s| - 1] == '\n') then TrimLineEnd(s[..|s| - 1]) else s
  }

  function Lower(c: char): char {
    if 'A' <= c <= 'Z' then (c as int + 32) as char else c
  }

  /** strings.EqualFold, for names made of ASCII letters and '-'. */
  predicate EqualFold(a: string, b: string) {
    |a| == |b| && forall i :: 0 <= i < |a| ==> Lower(a[i]) == Lower(b[i])
  }

  function LineMeaning(line: string): Meaning {
    var text := TrimLineEnd(line);
    if text == "" then EndOfHeader
    else
      var colon := IndexOf(text, ':');
      if colon == |text| || !EqualFold(TrimSpace(text[..colon]), "Content-Length") then Ignored
      else
        match Atoi(TrimSpace(text[colon + 1..]))
        case None => Malformed
        case Some(n) => Length(n)
  }

  // ---------- the reading side, as functions of the bytes still unread ----------

  /** Reads header lines up to the blank one. `current` is the length announced so far, -1 for none.
      Answers the payload length (or an error) and the bytes left unread. */
  function ReadHeader(input: string, current: int): (r: (Result<nat, FrameError>, string))
    ensures |r.1| <= |input|
    ensures r.0.Ok? ==> |r.1| < |input|
    decreases |input|
  {
    var i := IndexOf(input, '\n');
    if i == |input| then (Err(HeaderCut), "")
    else
      var rest := input[i + 1..];
      match LineMeaning(input[..i + 1])
      case EndOfHeader => if current < 0 then (Err(MissingLength), rest) else (Ok(current), rest)
      case Ignored => ReadHeader(rest, current)
      case Length(n) => ReadHeader(rest, n)
      case Malformed => (Err(BadLength), rest)
  }

  /** Reads one whole message: its header, then exactly the announced number of bytes. */
  function ReadFrame(input: string): (r: (Result<string, FrameError>, string))
    ensures r.0.Ok? ==> |r.1| < |input|
  {
    var (length, rest) := ReadHeader(input, -1);
    if length.Err? then (Err(length.error), rest)
    else if |rest| < length.value then (Err(PayloadCut), "")
    else (Ok(rest[..length.value]), rest[length.value..])
  }

  /** Reads messages until one cannot be read: the payloads, in order, and what is left. */
  function ReadAll(input: string): (seq<string>, string)
    decreases |input|
  {
    var (payload, rest) := ReadFrame(input);
    if payload.Err? then ([], input)
    else
      var (more, left) := ReadAll(rest);
      ([payload.value] + more, left)
  }

  // ---------- the writing side ----------

  function LengthLine(n: nat): string {
    "Content-Length: " + Itoa(n)
  }

  /** The bytes writeRequestLocked puts on the connection for one payload. */
  function FrameOf(payload: string): string {
    LengthLine(|payload|) + CRLF + CRLF + payload
  }

  // ---------- streams other peers may write: more header lines around the length ----------

  /** A header line that is neither blank nor a Content-Length line. */
  predicate Harmless(line: string) {
    '\n' !in line && LineMeaning(line + CRLF) == Ignored
  }

  predicate AllHarmless(lines: seq<string>) {
    lines == [] || (Harmless(lines[0]) && AllHarmless(lines[1..]))
  }

  function HeaderText(lines: seq<string>): string {
    if lines == [] then "" else lines[0] + CRLF + HeaderText(lines[1..])
  }

  datatype WireFrame = WireFrame(before: seq<string>, after: seq<string>, payload: string) {
    predicate Valid() {
      && AllHarmless(before)
      && AllHarmless(after)
      && |payload| <= MAX_INT
    }

    function Header(): seq<string> {
      before + [LengthLine(|payload|)] + after
    }

    function Text(): string {
      HeaderText(Header()) + CRLF + payload
    }
  }

  function StreamText(frames: seq<WireFrame>): string {
    if frames == [] then "" else frames[0].Text() + StreamText(frames[1..])
  }

  function Payloads(frames: seq<WireFrame>): (ps: seq<string>)
    ensures |ps| == |frames|
    ensures forall i :: 0 <= i < |frames| ==> ps[i] == frames[i].payload
  {
    if frames == [] then [] else [frames[0].payload] + Payloads(frames[1..])
  }

  // ---------- lemmas ----------

  lemma TrimCRLF(text: string)
    requires text != "" && text[|text| - 1] != '\r' && text[|text| - 1] != '\n'
    ensures TrimLineEnd(text + CRLF) == text
  {
    var s := text + CRLF;
    assert s[..|s| - 1] == text + "\r";
    assert (text + "\r")[..|text|] == text;
    assert TrimLineEnd(text + "\r") == TrimLineEnd(text);
  }

  lemma TrimLeadingSpace(s: string)
    requires Trimmed(s)
    ensures TrimSpace([' '] + s) == s
  {
    assert ([' '] + s)[1..] == s;
    assert TrimLeft([' '] + s) == TrimLeft(s) == s;
  }

  /** A header line of the form name + ": " + value, once its line end is trimmed. */
  lemma FieldMeaning(name: string, digits: string)
    requires ':' !in name && Trimmed(name) && EqualFold(name, "Content-Length")
    requires digits != "" && AllDigits(digits) && Atoi(digits).Some?
    ensures LineMeaning(name + [':'] + ([' '] + digits) + CRLF) == Length(Atoi(digits).value)
  {
    var text := name + [':'] + ([' '] + digits);
    assert IsDigit(digits[0]) && IsDigit(digits[|digits| - 1]);
    assert text[|text| - 1] == digits[|digits| - 1];
    TrimCRLF(text);
    IndexOfAt(name, ':', [' '] + digits);
    assert text[..|name|] == name;
    assert text[|name| + 1..] == [' '] + digits;
    TrimLeadingSpace(digits);
  }

  lemma NoNewline(name: string, digits: string)
    requires '\n' !in name && AllDigits(digits)
    ensures '\n' !in name + [':'] + ([' '] + digits)
  {
    assert forall i :: 0 <= i < |digits| ==> IsDigit(digits[i]);
  }

  lemma LengthLineMeaning(n: nat)
    requires n <= MAX_INT
    ensures '\n' !in LengthLine(n)
    ensures LineMeaning(LengthLine(n) + CRLF) == Length(n)
  {
    var name, digits := "Content-Length", Itoa(n);
    assert LengthLine(n) == name + [':'] + ([' '] + digits);
    NoNewline(name, digits);
    AtoiOfItoa(n);
    FieldMeaning(name, digits);
  }

  /** Header lines that only announce a length or are ignored. */
  predicate Readable(line: string) {
    '\n' !in line && (LineMeaning(line + CRLF).Ignored? || LineMeaning(line + CRLF).Length?)
  }

  predicate AllReadable(lines: seq<string>) {
    lines == [] || (Readable(lines[0]) && AllReadable(lines[1..]))
  }

  /** The length announced after some header lines: the last one wins. */
  function LengthAfter(lines: seq<string>, current: int): int {
    if lines == [] then current
    else
      var m := LineMeaning(lines[0] + CRLF);
      LengthAfter(lines[1..], if m.Length? then m.n else current)
  }

  /** Reading past one complete line. */
  lemma {:induction false} OneLine(line: string, rest: string, current: int)
    requires '\n' !in line
    ensures ReadHeader(line + CRLF + rest, current) ==
            match LineMeaning(line + CRLF)
            case EndOfHeader => if current < 0 then (Err(MissingLength), rest) else (Ok(current), rest)
            case Ignored => ReadHeader(rest, current)
            case Length(n) => ReadHeader(rest, n)
            case Malformed => (Err(BadLength), rest)
  {
    var input := line + CRLF + rest;
    assert input == (line + "\r") + ['\n'] + rest;
    IndexOfAt(line + "\r", '\n', rest);
    assert input[..|line| + 2] == line + CRLF;
    assert input[|line| + 2..] == rest;
  }

  lemma {:induction false} HeaderLines(lines: seq<string>, rest: string, current: int)
    requires AllReadable(lines)
    ensures ReadHeader(HeaderText(lines) + rest, current) == ReadHeader(rest, LengthAfter(lines, current))
  {
    if lines == [] {
      assert HeaderText(lines) + rest == rest;
    } else {
      var tail := HeaderText(lines[1..]) + rest;
      assert HeaderText(lines) + rest == lines[0] + CRLF + tail;
      OneLine(lines[0], tail, current);
      var m := LineMeaning(lines[0] + CRLF);
      HeaderLines(lines[1..], rest, if m.Length? then m.n else current);
    }
  }

  lemma HarmlessFirst(line: string, lines: seq<string>, current: int)
    requires Harmless(line) && AllReadable(lines)
    ensures AllReadable([line] + lines)
    ensures LengthAfter([line] + lines, current) == LengthAfter(lines, current)
  {
    assert ([line] + lines)[1..] == lines;
  }

  lemma {:induction false} HarmlessKeepsLength(before: seq<string>, lines: seq<string>, current: int)
    requires AllHarmless(before)
    requires AllReadable(lines)
    ensures AllReadable(before + lines)
    ensures LengthAfter(before + lines, current) == LengthAfter(lines, current)
  {
    hide LineMeaning;
    if before == [] {
      assert before + lines == lines;
    } else {
      HarmlessKeepsLength(before[1..], lines, current);
      HarmlessFirst(before[0], before[1..] + lines, current);
      assert before + lines == [before[0]] + (before[1..] + lines);
    }
  }

  lemma AnnouncedLength(own: string, after: seq<string>, n: nat)
    requires AllHarmless(after)
    requires '\n' !in own && LineMeaning(own + CRLF) == Length(n)
    ensures AllReadable([own] + after)
    ensures LengthAfter([own] + after, -1) == n
  {
    assert ([own] + after)[1..] == after == after + [];
    HarmlessKeepsLength(after, [], n);
  }

  lemma HeaderLength(f: WireFrame)
    requires f.Valid()
    ensures AllReadable(f.Header())
    ensures LengthAfter(f.Header(), -1) == |f.payload|
  {
    hide LineMeaning, Harmless, AllHarmless, LengthLine, AllReadable, LengthAfter;
    var own := LengthLine(|f.payload|);
    LengthLineMeaning(|f.payload|);
    AnnouncedLength(own, f.after, |f.payload|);
    HarmlessKeepsLength(f.before, [own] + f.after, -1);
    assert f.Header() == f.before + ([own] + f.after);
  }

  lemma BlankLine(rest: string, n: nat)
    ensures ReadHeader(CRLF + rest, n) == (Ok(n), rest)
  {
    assert CRLF + rest == "" + CRLF + rest;
    OneLine("", rest, n);
    assert TrimLineEnd("" + CRLF) == TrimLineEnd("\r") == "";
  }

  /** The header of a valid frame announces its payload's length, whatever lines surround it. */
  lemma HeaderOfFrame(f: WireFrame, rest: string)
    requires f.Valid()
    ensures ReadHeader(HeaderText(f.Header()) + (CRLF + rest), -1) == (Ok(|f.payload|), rest)
  {
    HeaderLength(f);
    HeaderLines(f.Header(), CRLF + rest, -1);
    BlankLine(rest, |f.payload|);
  }

  /** One frame, whatever extra header lines surround its length, reads back as its payload. */
  lemma ReadOneFrame(f: WireFrame, rest: string)
    requires f.Valid()
    ensures ReadFrame(f.Text() + rest) == (Ok(f.payload), rest)
  {
    HeaderOfFrame(f, f.payload + rest);
    Regroup(HeaderText(f.Header()) + CRLF, f.payload, rest);
    Regroup(HeaderText(f.Header()), CRLF, f.payload + rest);
  }

  /** Every stream of frames reads back as exactly its payloads, in order, with no byte left over. */
  lemma {:induction false} StreamRoundTrip(frames: seq<WireFrame>)
    requires forall f :: f in frames ==> f.Valid()
    ensures ReadAll(StreamText(frames)) == (Payloads(frames), "")
  {
    if frames != [] {
      ReadOneFrame(frames[0], StreamText(frames[1..]));
      StreamRoundTrip(frames[1..]);
    }
  }

  /** What the client itself writes is a frame without extra lines. */
  lemma WrittenFrame(payload: string)
    ensures FrameOf(payload) == WireFrame([], [], payload).Text()
  {
    var n := LengthLine(|payload|);
    assert WireFrame([], [], payload).Header() == [n];
    assert HeaderText([n]) == n + CRLF + HeaderText([]);
    assert n + CRLF + "" == n + CRLF;
  }

  /** A header cut anywhere before its blank line is complete never yields a length. */
  lemma {:induction false} CutHeader(lines: seq<string>, cut: string, current: int)
    requires AllReadable(lines)
    requires cut < HeaderText(lines) + CRLF
    ensures ReadHeader(cut, current) == (Err(HeaderCut), "")
  {
    if lines == [] {
      NoNewlineInCut("", "", cut);
    } else {
      var tail := HeaderText(lines[1..]) + CRLF;
      Regroup(lines[0] + CRLF, HeaderText(lines[1..]), CRLF);
      Regroup(lines[0], CRLF, tail);
      assert CRLF + tail == CRLF + (HeaderText(lines[1..]) + CRLF);
      if |cut| < |lines[0]| + 2 {
        NoNewlineInCut(lines[0], tail, cut);
      } else {
        var cut' := CutAfterLine(lines[0], tail, cut);
        OneLine(lines[0], cut', current);
        var m := LineMeaning(lines[0] + CRLF);
        CutHeader(lines[1..], cut', if m.Length? then m.n else current);
      }
    }
  }

  lemma CutAfterLine(first: string, tail: string, cut: string) returns (cut': string)
    requires cut < first + (CRLF + tail) && |first| + 2 <= |cut|
    ensures cut == first + CRLF + cut' && cut' < tail
  {
    var whole := first + (CRLF + tail);
    cut' := cut[|first| + 2..];
    assert tail == whole[|first| + 2..];
    assert cut == whole[..|cut|];
  }

  lemma NoNewlineInCut(first: string, tail: string, cut: string)
    requires '\n' !in first
    requires cut < first + (CRLF + tail) && |cut| < |first| + 2
    ensures IndexOf(cut, '\n') == |cut|
  {
    var whole := first + (CRLF + tail);
    assert forall k :: 0 <= k < |cut| ==> cut[k] == whole[k];
    assert forall k :: 0 <= k < |first| ==> whole[k] == first[k] && first[k] in first;
    assert whole[|first|] == '\r';
  }

  /** A frame cut short anywhere is an error: a partial message is never taken for a whole one. */
  lemma CutFrameIsAnError(f: WireFrame, cut: string)
    requires f.Valid()
    requires cut < f.Text()
    ensures ReadFrame(cut).0.Err?
  {
    var head := HeaderText(f.Header()) + CRLF;
    assert f.Text() == head + f.payload;
    if |cut| < |head| {
      HeaderLength(f);
      assert cut == f.Text()[..|cut|] == head[..|cut|];
      CutHeader(f.Header(), cut, -1);
    } else {
      var part := cut[|head|..];
      assert head == f.Text()[..|head|] == cut[..|head|];
      CutPayload(f, part);
      assert cut == HeaderText(f.Header()) + (CRLF + part);
    }
  }

  lemma CutPayload(f: WireFrame, part: string)
    requires f.Valid()
    requires |part| < |f.payload|
    ensures ReadFrame(HeaderText(f.Header()) + (CRLF + part)).0 == Err(PayloadCut)
  {
    HeaderOfFrame(f, part);
  }

  // ---------- the two sides as the code runs them, on a stream with a position ----------

  /** The buffered reader of the connection, reduced to the bytes not read yet. */
  class ByteReader {
    var pending: string

    constructor (bytes: string)
      ensures pending == bytes
    {
      pending := bytes;
    }

    /** bufio.Reader.ReadString('\n'): a line with its end, or everything that is left and an error. */
    method ReadLine() returns (line: Result<string, FrameError>)
      modifies this
      ensures var i := IndexOf(old(pending), '\n');
              if i < |old(pending)| then line == Ok(old(pending)[..i + 1]) && pending == old(pending)[i + 1..]
              else line == Err(HeaderCut) && pending == ""
    {
      var i := IndexOf(pending, '\n');
      if i == |pending| {
        pending := "";
        return Err(HeaderCut);
      }
      line := Ok(pending[..i + 1]);
      pending := pending[i + 1..];
    }

    method ReadContentLength() returns (length: Result<nat, FrameError>)
      modifies this
      ensures (length, pending) == ReadHeader(old(pending), -1)
    {
      hide LineMeaning, IndexOf;
      var contentLength := -1;
      while true
        invariant ReadHeader(pending, contentLength) == ReadHeader(old(pending), -1)
        decreases |pending|
      {
        var line := ReadLine();
        if line.Err? {
          return Err(line.error);
        }
        match LineMeaning(line.value) {
          case EndOfHeader =>
            return if contentLength < 0 then Err(MissingLength) else Ok(contentLength);
          case Ignored =>
          case Length(n) => contentLength := n;
          case Malformed => return Err(BadLength);
        }
      }
    }

    /** The framing part of readMessageLocked. */
    method ReadPayload() returns (payload: Result<string, FrameError>)
      modifies this
      ensures (payload, pending) == ReadFrame(old(pending))
    {
      var length := ReadContentLength();
      if length.Err? {
        return Err(length.error);
      }
      if |pending| < length.value {
        pending := "";
        return Err(PayloadCut);
      }
      payload := Ok(pending[..length.value]);
      pending := pending[length.value..];
    }
  }

  // ---------- in plain terms ----------

  /** The same text, but that a letter may be in the other case. */
  predicate SameLetters(a: string, b: string) {
    && |a| == |b|
    && forall i :: 0 <= i < |a| ==>
                     || a[i] == b[i]
                     || ('A' <= a[i] <= 'Z' && b[i] as int == a[i] as int + 32)
                     || ('A' <= b[i] <= 'Z' && a[i] as int == b[i] as int + 32)
  }

  /** What a header line says: only a line with this name, in any case, says how long the payload is, and then
      it must hold a number; and any other line with a name says nothing. */
  lemma LineInWords(name: string, value: string)
    requires ':' !in name && '\n' !in name && '\r' !in name && (value == "" || value[|value| - 1] !in "\r\n")
    ensures var meaning := LineMeaning(name + ":" + value + "\r\n");
            if !SameLetters(TrimSpace(name), "Content-Length") then meaning == Ignored
            else if Atoi(TrimSpace(value)).None? then meaning == Malformed
            else meaning == Length(Atoi(TrimSpace(value)).value)
    ensures LineMeaning(name + "\r\n") == if name == "" then EndOfHeader else Ignored
  {
    hide TrimSpace, Atoi, IndexOf;
    var line := name + ":" + value;
    TrimmedEnd(line);
    TrimmedEnd(name);
    IndexOfAt(name, ':', value);
    IndexOfAbsent(name, ':');
    assert line[..|name|] == name && line[|name| + 1..] == value;
  }

  lemma TrimmedEnd(text: string)
    requires text == "" || text[|text| - 1] !in "\r\n"
    ensures TrimLineEnd(text + "\r\n") == text
  {
    assert (text + "\r\n")[..|text| + 1] == text + "\r";
    assert (text + "\r")[..|text|] == text;
  }

  /** What is written for a payload, byte by byte. */
  lemma FrameInBytes(payload: string)
    ensures FrameOf(payload) == "Content-Length: " + Itoa(|payload|) + "\r\n\r\n" + payload
  {
    hide Itoa;
    TwoLineEnds("Content-Length: " + Itoa(|payload|), payload);
  }

  lemma TwoLineEnds(header: string, payload: string)
    ensures header + CRLF + CRLF + payload == header + "\r\n\r\n" + payload
  {
    Regroup(header, CRLF, CRLF);
    assert CRLF + CRLF == "\r\n\r\n";
  }

  /** What reading one header line does: the last length announced counts, a bad one ends the reading, and the
      blank line ends the header. */
  lemma HeaderInWords(name: string, value: string, rest: string, current: int)
    requires ':' !in name && '\n' !in name + value && '\r' !in name && (value == "" || value[|value| - 1] != '\r')
    ensures ReadHeader(name + ":" + value + "\r\n" + rest, current) ==
            if !SameLetters(TrimSpace(name), "Content-Length") then ReadHeader(rest, current)
            else if Atoi(TrimSpace(value)).None? then (Err(BadLength), rest)
            else ReadHeader(rest, Atoi(TrimSpace(value)).value)
    ensures ReadHeader("\r\n" + rest, current) == (if current < 0 then Err(MissingLength) else Ok(current), rest)
  {
    hide ReadHeader, LineMeaning, TrimSpace, Atoi;
    assert forall c :: c in name || c in value ==> c in name + value;
    LineInWords(name, value);
    OneLine(name + ":" + value, rest, current);
    LineInWords("", "");
    OneLine("", rest, current);
    assert "" + CRLF + rest == "\r\n" + rest && "" + "\r\n" == "" + CRLF;
  }
}
