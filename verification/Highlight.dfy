/** Syntax highlighting of Go source, and stripping the escape sequences it adds. */
module Highlight {
  import opened GoStrings

  const ESC: char := 27 as char

  // ---------- stripping ----------

  predicate IsParameter(c: char) {
    IsDigit(c) || c == ';' || c == '?'
  }

  predicate IsIntermediate(c: char) {
    ' ' <= c <= '/'
  }

  predicate IsFinal(c: char) {
    '@' <= c <= '~'
  }

  /** How many leading characters satisfy a predicate. */
  function RunLength(t: string, p: char -> bool): (n: nat)
    ensures n <= |t|
  {
    if t == "" || !p(t[0]) then 0 else 1 + RunLength(t[1..], p)
  }

  /** The length of the escape sequence a text begins with, or 0. */
  function SequenceLength(t: string): (n: nat)
    ensures n <= |t|
  {
    if |t| < 2 || t[0] != ESC || t[1] != '[' then 0
    else
      var i := 2 + RunLength(t[2..], IsParameter);
      var j := i + RunLength(t[i..], IsIntermediate);
      if j < |t| && IsFinal(t[j]) then j + 1 else 0
  }

  /** stripANSIForNonTTY: every escape sequence is removed, from left to right. */
  function Strip(t: string): string
    decreases |t|
  {
    if t == "" then ""
    else
      var n := SequenceLength(t);
      if n > 0 then Strip(t[n..]) else [t[0]] + Strip(t[1..])
  }

  lemma PlainFirst(t: string)
    requires t != "" && t[0] != ESC
    ensures Strip(t) == [t[0]] + Strip(t[1..])
  {
  }

  lemma {:induction false} PlainPrefixStays(a: string, b: string)
    requires ESC !in a
    ensures Strip(a + b) == a + Strip(b)
  {
    hide Strip;
    if a == "" {
      assert a + b == b;
    } else {
      PlainFirst(a + b);
      assert (a + b)[1..] == a[1..] + b;
      PlainPrefixStays(a[1..], b);
      assert a + Strip(b) == [a[0]] + (a[1..] + Strip(b));
    }
  }

  lemma StripOfPlain(a: string)
    requires ESC !in a
    ensures Strip(a) == a
  {
    PlainPrefixStays(a, "");
    assert a + "" == a;
  }

  lemma {:induction false} RunStops(a: string, c: char, b: string, p: char -> bool)
    requires !p(c)
    ensures RunLength(a + [c] + b, p) == RunLength(a, p)
  {
    if a == "" {
      assert (a + [c] + b)[0] == c;
    } else {
      assert (a + [c] + b)[1..] == a[1..] + [c] + b;
      RunStops(a[1..], c, b, p);
    }
  }

  /** No escape sequence reaches over a line end. */
  lemma SequenceStaysInLine(a: string, b: string)
    requires a != ""
    ensures SequenceLength(a + ['\n'] + b) == SequenceLength(a)
  {
    var t := a + ['\n'] + b;
    if |a| >= 2 && a[0] == ESC && a[1] == '[' {
      assert t[2..] == a[2..] + ['\n'] + b;
      RunStops(a[2..], '\n', b, IsParameter);
      var i := 2 + RunLength(a[2..], IsParameter);
      assert t[i..] == a[i..] + ['\n'] + b;
      RunStops(a[i..], '\n', b, IsIntermediate);
    }
  }

  /** Stripping works line by line, on every text, complete sequences or not. */
  lemma {:induction false} StripByLine(a: string, b: string)
    ensures Strip(a + ['\n'] + b) == Strip(a) + ['\n'] + Strip(b)
    decreases |a|
  {
    hide SequenceLength;
    var t := a + ['\n'] + b;
    if a == "" {
      assert t == ['\n'] + b;
      PlainPrefixStays(['\n'], b);
    } else {
      SequenceStaysInLine(a, b);
      var n := SequenceLength(a);
      if n > 0 {
        assert t[n..] == a[n..] + ['\n'] + b;
        StripByLine(a[n..], b);
      } else {
        assert t[1..] == a[1..] + ['\n'] + b;
        StripByLine(a[1..], b);
        assert [a[0]] + (Strip(a[1..]) + ['\n'] + Strip(b)) == [a[0]] + Strip(a[1..]) + ['\n'] + Strip(b);
      }
    }
  }

  function StripAll(lines: seq<string>): (r: seq<string>)
    ensures |r| == |lines|
    ensures forall i :: 0 <= i < |r| ==> r[i] == Strip(lines[i])
  {
    seq(|lines|, i requires 0 <= i < |lines| => Strip(lines[i]))
  }

  lemma {:induction false} StripNoLineEnd(a: string)
    requires '\n' !in a
    ensures '\n' !in Strip(a)
    decreases |a|
  {
    if a != "" {
      var n := SequenceLength(a);
      StripNoLineEnd(if n > 0 then a[n..] else a[1..]);
    }
  }

  /** Splitting into lines and stripping commute: line k of the stripped text is line k, stripped. */
  lemma {:induction false} StripKeepsLines(t: string)
    ensures Split(Strip(t), '\n') == StripAll(Split(t, '\n'))
    decreases |t|
  {
    hide Strip, Split, IndexOf;
    var i := IndexOf(t, '\n');
    var line := t[..i];
    NoneBeforeFirst(t, '\n');
    StripNoLineEnd(line);
    if i == |t| {
      assert line == t;
      SplitAbsent(t, '\n');
      SplitAbsent(Strip(t), '\n');
    } else {
      var rest := t[i + 1..];
      assert t == line + ['\n'] + rest;
      StripByLine(line, rest);
      SplitAt(line, '\n', rest);
      SplitAt(Strip(line), '\n', Strip(rest));
      StripKeepsLines(rest);
      assert StripAll([line] + Split(rest, '\n')) == [Strip(line)] + StripAll(Split(rest, '\n'));
    }
  }

  // ---------- highlighting ----------

  datatype Kind = Keyword | Text | Comment | Number | Operator

  /** A scanned token; the literal is empty when the token's spelling says it all. */
  datatype Token = Token(offset: nat, kind: Kind, literal: string, spelling: string) {
    function Written(): string {
      if literal == "" then spelling else literal
    }

    function End(): nat {
      offset + |Written()|
    }
  }

  const RESET: string := [ESC] + "[0m"

  /** colorForToken: strings and characters are Text, the number kinds Number. */
  function ColorFor(kind: Kind): string {
    match kind
    case Keyword => [ESC] + "[34m"
    case Text => [ESC] + "[32m"
    case Comment => [ESC] + "[90m"
    case Number => [ESC] + "[35m"
    case Operator => ""
  }

  /** The scanner reports positions inside the file. */
  ghost predicate InFile(tokens: seq<Token>, size: nat) {
    forall i :: 0 <= i < |tokens| ==> tokens[i].offset <= size
  }

  function Gap(src: string, prev: nat, offset: nat): string
    requires offset <= |src|
  {
    if offset > prev then src[prev..offset] else ""
  }

  /** What follows the last token: up to the end-of-file token, and then once more up to the end. */
  function Tail(src: string, prev: nat, eof: nat): string
    requires eof <= |src|
  {
    Gap(src, prev, eof) + Gap(src, prev, |src|)
  }

  function Colored(token: Token): string {
    var color := ColorFor(token.kind);
    if color == "" then token.Written() else color + token.Written() + RESET
  }

  function HighlightFrom(src: string, tokens: seq<Token>, prev: nat, eof: nat): string
    requires InFile(tokens, |src|) && eof <= |src|
    decreases |tokens|
  {
    if tokens == [] then Tail(src, prev, eof)
    else Gap(src, prev, tokens[0].offset) + Colored(tokens[0]) + HighlightFrom(src, tokens[1..], tokens[0].End(), eof)
  }

  /** The same without colors. */
  function PlainFrom(src: string, tokens: seq<Token>, prev: nat, eof: nat): string
    requires InFile(tokens, |src|) && eof <= |src|
    decreases |tokens|
  {
    if tokens == [] then Tail(src, prev, eof)
    else Gap(src, prev, tokens[0].offset) + tokens[0].Written() + PlainFrom(src, tokens[1..], tokens[0].End(), eof)
  }

  lemma HighlightStep(src: string, tokens: seq<Token>, i: nat, prev: nat, eof: nat, out: string)
    requires InFile(tokens, |src|) && eof <= |src| && i < |tokens|
    ensures var token := tokens[i];
            out + HighlightFrom(src, tokens[i..], prev, eof)
              == (out + Gap(src, prev, token.offset) + Colored(token))
                + HighlightFrom(src, tokens[i + 1..], token.End(), eof)
  {
    hide Colored, Gap, Tail;
    assert tokens[i..][1..] == tokens[i + 1..];
  }

  lemma HighlightEnd(src: string, prev: nat, eof: nat, out: string)
    requires eof <= |src|
    ensures out + HighlightFrom(src, [], prev, eof) == (out + Gap(src, prev, eof)) + Gap(src, prev, |src|)
  {
    hide Gap;
  }

  method WriteColored(out: string, token: Token) returns (more: string)
    ensures more == out + Colored(token)
  {
    var text := token.literal;
    if text == "" {
      text := token.spelling;
    }
    var color := ColorFor(token.kind);
    if color == "" {
      return out + text;
    }
    more := out + color;
    more := more + text;
    more := more + RESET;
  }

  /** highlightGoSource */
  method HighlightGoSource(src: string, tokens: seq<Token>, eof: nat) returns (out: string)
    requires InFile(tokens, |src|) && eof <= |src|
    ensures out == HighlightFrom(src, tokens, 0, eof)
  {
    hide HighlightFrom, Colored;
    out := "";
    var prev: nat := 0;
    assert tokens[0..] == tokens;
    for i := 0 to |tokens|
      invariant HighlightFrom(src, tokens, 0, eof) == out + HighlightFrom(src, tokens[i..], prev, eof)
    {
      var token := tokens[i];
      HighlightStep(src, tokens, i, prev, eof, out);
      ghost var before := out;
      if token.offset > prev {
        out := out + src[prev..token.offset];
      }
      assert out == before + Gap(src, prev, token.offset);
      out := WriteColored(out, token);
      prev := token.End();
    }
    assert tokens[|tokens|..] == [];
    HighlightEnd(src, prev, eof, out);
    ghost var before := out;
    if eof > prev {
      out := out + src[prev..eof];
    }
    assert out == before + Gap(src, prev, eof);
    if prev < |src| {
      out := out + src[prev..];
    }
  }

  predicate EscFree(tokens: seq<Token>) {
    forall i :: 0 <= i < |tokens| ==> ESC !in tokens[i].Written()
  }

  lemma {:induction false} RunThrough(a: string, c: char, b: string, p: char -> bool)
    requires forall i :: 0 <= i < |a| ==> p(a[i])
    requires !p(c)
    ensures RunLength(a + [c] + b, p) == |a|
  {
    if a != "" {
      assert (a + [c] + b)[1..] == a[1..] + [c] + b;
      RunThrough(a[1..], c, b, p);
    }
  }

  /** A complete colour sequence is removed, whatever follows. */
  lemma SequenceThenRest(digits: string, rest: string)
    requires AllDigits(digits)
    ensures Strip([ESC] + "[" + digits + "m" + rest) == Strip(rest)
  {
    var t := [ESC] + "[" + digits + "m" + rest;
    assert t[2..] == digits + ['m'] + rest;
    RunThrough(digits, 'm', rest, IsParameter);
    var i := 2 + |digits|;
    assert t[i..] == "" + ['m'] + rest;
    RunThrough("", 'm', rest, IsIntermediate);
    assert t[i + 1..] == rest;
  }

  lemma PaintStrips(digits: string, text: string, rest: string)
    requires AllDigits(digits) && ESC !in text
    ensures Strip([ESC] + "[" + digits + "m" + text + RESET + rest) == text + Strip(rest)
  {
    hide Strip;
    var after := RESET + rest;
    SequenceThenRest("0", rest);
    assert after == [ESC] + "[" + "0" + "m" + rest;
    PlainPrefixStays(text, after);
    SequenceThenRest(digits, text + after);
    assert [ESC] + "[" + digits + "m" + text + RESET + rest == [ESC] + "[" + digits + "m" + (text + after);
  }

  lemma ColoredStrips(token: Token, rest: string)
    requires ESC !in token.Written()
    ensures Strip(Colored(token) + rest) == token.Written() + Strip(rest)
  {
    hide Strip;
    var text := token.Written();
    var color := ColorFor(token.kind);
    if color == "" {
      PlainPrefixStays(text, rest);
    } else {
      var digits := color[2..4];
      assert color == [ESC] + "[" + digits + "m";
      PaintStrips(digits, text, rest);
    }
  }

  /** Stripping takes away every colour and nothing else. */
  lemma {:induction false} StrippingLeavesThePlainText(src: string, tokens: seq<Token>, prev: nat, eof: nat)
    requires InFile(tokens, |src|) && eof <= |src|
    requires ESC !in src && EscFree(tokens)
    ensures Strip(HighlightFrom(src, tokens, prev, eof)) == PlainFrom(src, tokens, prev, eof)
    decreases |tokens|
  {
    hide Strip, Colored, Gap;
    if tokens == [] {
      GapIsPlain(src, prev, eof);
      GapIsPlain(src, prev, |src|);
      StripOfPlain(Tail(src, prev, eof));
    } else {
      var token, rest := tokens[0], HighlightFrom(src, tokens[1..], tokens[0].End(), eof);
      var gap := Gap(src, prev, token.offset);
      StrippingLeavesThePlainText(src, tokens[1..], token.End(), eof);
      GapIsPlain(src, prev, token.offset);
      PlainPrefixStays(gap, Colored(token) + rest);
      ColoredStrips(token, rest);
      assert gap + Colored(token) + rest == gap + (Colored(token) + rest);
    }
  }

  lemma GapIsPlain(src: string, prev: nat, offset: nat)
    requires ESC !in src && offset <= |src|
    ensures ESC !in Gap(src, prev, offset)
  {
  }

  // ---------- when highlighting is undone by stripping ----------

  /** The tokens are in order, do not overlap, and their texts are the source at their offsets. */
  ghost predicate Faithful(src: string, tokens: seq<Token>, prev: nat)
    decreases |tokens|
  {
    tokens == [] ||
    var token := tokens[0];
    && prev <= token.offset && token.End() <= |src|
    && token.Written() == src[token.offset..token.End()]
    && Faithful(src, tokens[1..], token.End())
  }

  function LastEnd(tokens: seq<Token>, prev: nat): nat {
    if tokens == [] then prev else LastEnd(tokens[1..], tokens[0].End())
  }

  /** Going back over text already written only makes the result longer. */
  lemma {:induction false} NeverTooShort(src: string, tokens: seq<Token>, prev: nat, eof: nat)
    requires InFile(tokens, |src|) && eof <= |src|
    ensures |PlainFrom(src, tokens, prev, eof)| >= |src| - prev
    decreases |tokens|
  {
    if tokens != [] {
      NeverTooShort(src, tokens[1..], tokens[0].End(), eof);
    }
  }

  lemma TailIsTheRestExactlyWhen(src: string, prev: nat, eof: nat)
    requires eof <= |src| && prev <= |src|
    ensures Tail(src, prev, eof) == src[prev..] <==> eof <= prev
  {
    if eof <= prev {
      assert Tail(src, prev, eof) == src[prev..];
    } else {
      assert |Tail(src, prev, eof)| == eof - prev + |src| - prev;
    }
  }

  lemma MisplacedTokenLengthens(src: string, tokens: seq<Token>, prev: nat, eof: nat)
    requires InFile(tokens, |src|) && eof <= |src| && prev <= |src| && tokens != []
    requires tokens[0].offset < prev || tokens[0].End() > |src|
    ensures |PlainFrom(src, tokens, prev, eof)| > |src| - prev
  {
    hide Tail;
    NeverTooShort(src, tokens[1..], tokens[0].End(), eof);
  }

  lemma {:induction false} PlacedToken(src: string, tokens: seq<Token>, prev: nat, eof: nat)
    requires InFile(tokens, |src|) && eof <= |src| && tokens != []
    requires prev <= tokens[0].offset && tokens[0].End() <= |src|
    ensures var token := tokens[0];
            var rest := PlainFrom(src, tokens[1..], token.End(), eof);
            PlainFrom(src, tokens, prev, eof) == src[prev..] <==>
            token.Written() == src[token.offset..token.End()] && rest == src[token.End()..]
  {
    hide Tail;
    var token := tokens[0];
    var gap, text := src[prev..token.offset], src[token.offset..token.End()];
    SameParts(gap, token.Written(), PlainFrom(src, tokens[1..], token.End(), eof), gap, text, src[token.End()..]);
    FourParts(src, prev, token.offset, token.End(), token.End(), src[token.End()..]);
    assert src[token.End()..token.End()] + src[token.End()..] == src[token.End()..];
    assert src[prev..] == src[prev..token.End()] + src[token.End()..];
  }

  lemma {:induction false} PlainIsTheSourceExactlyWhen(src: string, tokens: seq<Token>, prev: nat, eof: nat)
    requires InFile(tokens, |src|) && eof <= |src| && prev <= |src|
    ensures PlainFrom(src, tokens, prev, eof) == src[prev..] <==>
              Faithful(src, tokens, prev) && eof <= LastEnd(tokens, prev)
    decreases |tokens|
  {
    if tokens == [] {
      TailIsTheRestExactlyWhen(src, prev, eof);
    } else {
      hide PlainFrom;
      if tokens[0].offset < prev || tokens[0].End() > |src| {
        MisplacedTokenLengthens(src, tokens, prev, eof);
      } else {
        PlacedToken(src, tokens, prev, eof);
        PlainIsTheSourceExactlyWhen(src, tokens[1..], tokens[0].End(), eof);
      }
    }
  }

  lemma SameParts(a: string, b: string, c: string, x: string, y: string, z: string)
    requires |a| == |x| && |b| == |y|
    ensures a + b + c == x + y + z <==> a == x && b == y && c == z
  {
    if a + b + c == x + y + z {
      assert (a + b + c)[..|a|] == a && (x + y + z)[..|a|] == x;
      assert (a + b + c)[|a|..|a| + |b|] == b && (x + y + z)[|a|..|a| + |b|] == y;
      assert (a + b + c)[|a| + |b|..] == c && (x + y + z)[|a| + |b|..] == z;
    }
  }

  /** Stripping undoes highlighting exactly when the token stream is faithful to the source and its last
      token reaches the end-of-file token. */
  lemma {:induction false} HighlightIsUndoneExactlyWhen(src: string, tokens: seq<Token>, eof: nat)
    requires InFile(tokens, |src|) && eof <= |src|
    requires ESC !in src && EscFree(tokens)
    ensures Strip(HighlightFrom(src, tokens, 0, eof)) == src <==> Faithful(src, tokens, 0) && eof <= LastEnd(tokens, 0)
  {
    StrippingLeavesThePlainText(src, tokens, 0, eof);
    PlainIsTheSourceExactlyWhen(src, tokens, 0, eof);
    assert src[0..] == src;
  }

  /** One faithful token before other tokens. */
  lemma FaithfulFirst(src: string, tokens: seq<Token>, more: seq<Token>, prev: nat, eof: nat)
    requires InFile(tokens, |src|) && InFile(more, |src|) && eof <= |src| && tokens != [] && Faithful(src, tokens, prev)
    ensures var token := tokens[0];
            PlainFrom(src, tokens + more, prev, eof)
              == src[prev..token.offset] + src[token.offset..token.End()]
                + PlainFrom(src, tokens[1..] + more, token.End(), eof)
  {
    hide Tail;
    assert (tokens + more)[1..] == tokens[1..] + more;
  }

  lemma {:induction false} EndsInside(src: string, tokens: seq<Token>, prev: nat)
    requires prev <= |src| && Faithful(src, tokens, prev)
    ensures prev <= LastEnd(tokens, prev) <= |src|
    decreases |tokens|
  {
    if tokens != [] {
      EndsInside(src, tokens[1..], tokens[0].End());
    }
  }

  /** A faithful stretch of tokens writes the source up to its end. */
  lemma {:induction false} FaithfulStretch(src: string, tokens: seq<Token>, more: seq<Token>, prev: nat, eof: nat)
    requires InFile(tokens, |src|) && InFile(more, |src|) && eof <= |src| && prev <= |src| &&
               Faithful(src, tokens, prev)
    ensures prev <= LastEnd(tokens, prev) <= |src|
    ensures PlainFrom(src, tokens + more, prev, eof)
              == src[prev..LastEnd(tokens, prev)] + PlainFrom(src, more, LastEnd(tokens, prev), eof)
    decreases |tokens|
  {
    hide PlainFrom;
    EndsInside(src, tokens, prev);
    if tokens == [] {
      assert tokens + more == more;
    } else {
      FaithfulStretch(src, tokens[1..], more, tokens[0].End(), eof);
      FaithfulFirst(src, tokens, more, prev, eof);
      EndsInside(src, tokens[1..], tokens[0].End());
      var last := LastEnd(tokens, prev);
      FourParts(src, prev, tokens[0].offset, tokens[0].End(), last, PlainFrom(src, more, last, eof));
    }
  }

  lemma FourParts(src: string, a: nat, b: nat, c: nat, d: nat, rest: string)
    requires a <= b <= c <= d <= |src|
    ensures src[a..b] + src[b..c] + (src[c..d] + rest) == src[a..d] + rest
  {
    assert src[a..d] == src[a..b] + src[b..c] + src[c..d];
  }

  lemma TailAlone(src: string, last: nat)
    requires last <= |src|
    ensures PlainFrom(src, [], last, |src|) == src[last..] + src[last..]
  {
  }

  /** Whatever follows the last token, such as blank lines at the end of the file, is written twice. */
  lemma {:induction false} TrailingTextIsRepeated(src: string, tokens: seq<Token>)
    requires InFile(tokens, |src|) && Faithful(src, tokens, 0)
    ensures LastEnd(tokens, 0) <= |src|
    ensures PlainFrom(src, tokens, 0, |src|) == src + src[LastEnd(tokens, 0)..]
  {
    hide PlainFrom, Faithful, LastEnd;
    FaithfulStretch(src, tokens, [], 0, |src|);
    var last := LastEnd(tokens, 0);
    TailAlone(src, last);
    assert tokens + [] == tokens;
    assert src[0..last] + (src[last..] + src[last..]) == src + src[last..];
  }

  /** A blank line at the end of a file is shown twice. */
  lemma BlankLineAtTheEndIsDoubled()
    ensures var src := "x\n\n";
            var tokens := [Token(0, Operator, "x", ""), Token(1, Operator, "\n", ";")];
            InFile(tokens, |src|) && Faithful(src, tokens, 0) && PlainFrom(src, tokens, 0, |src|) == "x\n\n\n"
  {
    var src := "x\n\n";
    var tokens := [Token(0, Operator, "x", ""), Token(1, Operator, "\n", ";")];
    assert tokens[1..] == [tokens[1]];
    assert [tokens[1]][1..] == [];
    assert src[0..1] == "x" && src[1..2] == "\n";
    TrailingTextIsRepeated(src, tokens);
    assert src[2..] == "\n";
  }

  lemma SemicolonAlone(src: string, last: nat)
    requires last <= |src|
    ensures var semicolon := Token(|src|, Operator, "\n", ";");
            InFile([semicolon], |src|) && PlainFrom(src, [semicolon], last, |src|) == src[last..] + "\n"
  {
    var semicolon := Token(|src|, Operator, "\n", ";");
    assert [semicolon][1..] == [];
    assert PlainFrom(src, [], |src| + 1, |src|) == "";
    assert Gap(src, last, |src|) == src[last..];
  }

  /** A semicolon inserted at the end of a file without a final line end adds one. */
  lemma SemicolonAtTheEndAddsALine(src: string, tokens: seq<Token>)
    requires InFile(tokens, |src|) && Faithful(src, tokens, 0)
    ensures var semicolon := Token(|src|, Operator, "\n", ";");
            PlainFrom(src, tokens + [semicolon], 0, |src|) == src + "\n"
  {
    hide PlainFrom, Faithful, LastEnd;
    var semicolon := Token(|src|, Operator, "\n", ";");
    SemicolonAlone(src, 0);
    FaithfulStretch(src, tokens, [semicolon], 0, |src|);
    var last := LastEnd(tokens, 0);
    SemicolonAlone(src, last);
    assert src + "\n" == src[..last] + (src[last..] + "\n");
  }

  // ---------- in plain terms ----------

  /** The colours: blue, green, grey and magenta, and none for operators and names. */
  lemma ColoursInBytes(token: Token)
    ensures var text := if token.literal != "" then token.literal else token.spelling;
            Colored(token) == match token.kind
                              case Keyword => [27 as char] + "[34m" + text + [27 as char] + "[0m"
                              case Text => [27 as char] + "[32m" + text + [27 as char] + "[0m"
                              case Comment => [27 as char] + "[90m" + text + [27 as char] + "[0m"
                              case Number => [27 as char] + "[35m" + text + [27 as char] + "[0m"
                              case Operator => text
  {
    var text := token.Written();
    var color := ColorFor(token.kind);
    assert color + text + RESET == color + text + [27 as char] + "[0m";
  }

  /** An escape sequence: parameter bytes, intermediate bytes and a final byte behind ESC and a bracket. */
  predicate IsSequence(t: string, parameters: string, intermediates: string, final: char) {
    && t == [27 as char] + "[" + parameters + intermediates + [final]
    && (forall i :: 0 <= i < |parameters| ==>
                      '0' <= parameters[i] <= '9' || parameters[i] == ';' || parameters[i] == '?')
    && (forall i :: 0 <= i < |intermediates| ==> 32 <= intermediates[i] as int <= 47)
    && 64 <= final as int <= 126
  }

  lemma {:induction false} RunIsAll(t: string, p: char -> bool)
    ensures forall i :: 0 <= i < RunLength(t, p) ==> p(t[i])
  {
    if t != "" && p(t[0]) {
      RunIsAll(t[1..], p);
    }
  }

  /** Only escape sequences are removed: where stripping does not keep the first byte, it takes one away. */
  lemma OnlySequencesGo(t: string) returns (n: nat, parameters: string, intermediates: string, final: char)
    ensures t != "" && Strip(t) != [t[0]] + Strip(t[1..]) ==>
              0 < n <= |t| && Strip(t) == Strip(t[n..]) && IsSequence(t[..n], parameters, intermediates, final)
  {
    hide IsSequence;
    n, parameters, intermediates, final := SequenceLength(t), "", "", 'm';
    if n > 0 {
      parameters, intermediates, final := SequenceParts(t);
    }
  }

  lemma SequenceParts(t: string) returns (parameters: string, intermediates: string, final: char)
    requires SequenceLength(t) > 0
    ensures IsSequence(t[..SequenceLength(t)], parameters, intermediates, final)
  {
    hide IsParameter, IsIntermediate, RunLength;
    RunIsAll(t[2..], IsParameter);
    var i := 2 + RunLength(t[2..], IsParameter);
    RunIsAll(t[i..], IsIntermediate);
    var j := i + RunLength(t[i..], IsIntermediate);
    parameters, intermediates, final := t[2..i], t[i..j], t[j];
    assert t[..j + 1] == t[..2] + t[2..i] + t[i..j] + [t[j]];
    assert t[..2] == [ESC] + "[";
    Bytes();
  }

  lemma Bytes()
    ensures forall c :: IsParameter(c) ==> '0' <= c <= '9' || c == ';' || c == '?'
    ensures forall c :: IsIntermediate(c) ==> 32 <= c as int <= 47
  {
  }

  /** And every escape sequence is removed, whatever follows. */
  lemma SequencesGo(sequence: string, parameters: string, intermediates: string, final: char, rest: string)
    requires IsSequence(sequence, parameters, intermediates, final)
    ensures Strip(sequence + rest) == Strip(rest)
  {
    var t := sequence + rest;
    var next := (intermediates + [final])[0];
    var after := (intermediates + [final])[1..] + rest;
    assert t[2..] == parameters + [next] + after;
    RunThrough(parameters, next, after, IsParameter);
    var i := 2 + |parameters|;
    assert t[i..] == intermediates + [final] + rest;
    RunThrough(intermediates, final, rest, IsIntermediate);
    assert t[i + |intermediates|] == final && t[|sequence|..] == rest;
  }
}
