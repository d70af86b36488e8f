/** On which lines highlighted source is shown: token by token for every stream, and line by line, exactly,
    for the streams Go's scanner makes of a source without carriage returns. */
module LineNumbers {
  import opened GoStrings
  import opened Highlight

  function Lines(s: string): (lines: seq<string>)
    ensures |lines| >= 1
  {
    Split(s, '\n')
  }

  function LineEnds(s: string): nat {
    Count(s, '\n')
  }

  // ---------- token by token ----------

  /** What the tokens write, without what follows them. */
  function Written(src: string, tokens: seq<Token>, prev: nat): string
    requires InFile(tokens, |src|)
    decreases |tokens|
  {
    if tokens == [] then ""
    else Gap(src, prev, tokens[0].offset) + tokens[0].Written() + Written(src, tokens[1..], tokens[0].End())
  }

  /** The text before token i, and so the line it is shown on. */
  function Lead(src: string, tokens: seq<Token>, i: nat): string
    requires InFile(tokens, |src|) && i < |tokens|
  {
    Written(src, tokens[..i], 0) + Gap(src, LastEnd(tokens[..i], 0), tokens[i].offset)
  }

  lemma {:induction false} WrittenThenRest(src: string, tokens: seq<Token>, more: seq<Token>, prev: nat, eof: nat)
    requires InFile(tokens, |src|) && InFile(more, |src|) && eof <= |src|
    ensures PlainFrom(src, tokens + more, prev, eof)
              == Written(src, tokens, prev) + PlainFrom(src, more, LastEnd(tokens, prev), eof)
    decreases |tokens|
  {
    hide Gap, Tail;
    if tokens == [] {
      assert tokens + more == more;
    } else {
      assert (tokens + more)[1..] == tokens[1..] + more;
      WrittenThenRest(src, tokens[1..], more, tokens[0].End(), eof);
      Regroup(Gap(src, prev, tokens[0].offset) + tokens[0].Written(), Written(src, tokens[1..], tokens[0].End()),
              PlainFrom(src, more, LastEnd(tokens, prev), eof));
    }
  }

  /** The plain text is what leads to token i, its text, and the rest. */
  lemma {:induction false} TokenStands(src: string, tokens: seq<Token>, i: nat, eof: nat)
    requires InFile(tokens, |src|) && i < |tokens| && eof <= |src|
    ensures PlainFrom(src, tokens, 0, eof)
              == Lead(src, tokens, i) + tokens[i].Written() + PlainFrom(src, tokens[i + 1..], tokens[i].End(), eof)
  {
    hide Gap, Tail;
    var prev := LastEnd(tokens[..i], 0);
    assert tokens == tokens[..i] + tokens[i..];
    WrittenThenRest(src, tokens[..i], tokens[i..], 0, eof);
    assert tokens[i..][1..] == tokens[i + 1..];
    var gap := Gap(src, prev, tokens[i].offset);
    var rest := PlainFrom(src, tokens[i + 1..], tokens[i].End(), eof);
    Regroup(Written(src, tokens[..i], 0), gap, tokens[i].Written());
    Regroup(Written(src, tokens[..i], 0), gap + tokens[i].Written(), rest);
  }

  /** The line ends between two places that are written twice when the second comes first. */
  function Repeated(src: string, prev: nat, offset: nat): nat
    requires prev <= |src|
  {
    if offset < prev then LineEnds(src[offset..prev]) else 0
  }

  ghost predicate Within(src: string, tokens: seq<Token>) {
    forall i :: 0 <= i < |tokens| ==> tokens[i].End() <= |src|
  }

  /** By how many lines tokens move what follows them: the line ends written twice, and those a token's
      text has more than the source it stands for. */
  function Drift(src: string, tokens: seq<Token>, prev: nat): int
    requires Within(src, tokens) && prev <= |src|
    decreases |tokens|
  {
    if tokens == [] then 0
    else
      var t := tokens[0];
      Repeated(src, prev, t.offset) + (LineEnds(t.Written()) - LineEnds(src[t.offset..t.End()]))
        + Drift(src, tokens[1..], t.End())
  }

  lemma LineEndsUpTo(src: string, a: nat, b: nat)
    requires a <= b <= |src|
    ensures LineEnds(src[..b]) == LineEnds(src[..a]) + LineEnds(src[a..b])
  {
    assert src[..b] == src[..a] + src[a..b];
    CountConcat(src[..a], src[a..b], '\n');
  }

  lemma GapLineEnds(src: string, prev: nat, offset: nat)
    requires prev <= |src| && offset <= |src|
    ensures LineEnds(src[..prev]) + LineEnds(Gap(src, prev, offset))
              == LineEnds(src[..offset]) + Repeated(src, prev, offset)
  {
    if prev <= offset {
      LineEndsUpTo(src, prev, offset);
      assert offset == prev ==> Gap(src, prev, offset) == "";
      if offset == prev {
        assert src[..prev] == src[..offset] && src[prev..offset] == "";
      }
    } else {
      LineEndsUpTo(src, offset, prev);
    }
  }

  lemma {:induction false} WrittenLineEnds(src: string, tokens: seq<Token>, prev: nat)
    requires InFile(tokens, |src|) && Within(src, tokens) && prev <= |src|
    ensures LastEnd(tokens, prev) <= |src|
    ensures LineEnds(src[..prev]) + LineEnds(Written(src, tokens, prev))
              == LineEnds(src[..LastEnd(tokens, prev)]) + Drift(src, tokens, prev)
    decreases |tokens|
  {
    hide Gap, Repeated, Count;
    if tokens == [] {
      CountAbsent("", '\n');
    } else {
      var t := tokens[0];
      WrittenLineEnds(src, tokens[1..], t.End());
      var gap, rest := Gap(src, prev, t.offset), Written(src, tokens[1..], t.End());
      CountConcat(gap + t.Written(), rest, '\n');
      CountConcat(gap, t.Written(), '\n');
      GapLineEnds(src, prev, t.offset);
      LineEndsUpTo(src, t.offset, t.End());
    }
  }

  /** Of every stream whose tokens end in the file: token i is shown exactly as many lines below its own as
      the tokens before it drift, and as line ends are written twice just before it. */
  lemma {:induction false} TokenIsShownAt(src: string, tokens: seq<Token>, i: nat)
    requires InFile(tokens, |src|) && i < |tokens| && Within(src, tokens[..i])
    ensures LastEnd(tokens[..i], 0) <= |src|
    ensures LineEnds(Lead(src, tokens, i))
              == LineEnds(src[..tokens[i].offset]) + Drift(src, tokens[..i], 0)
                 + Repeated(src, LastEnd(tokens[..i], 0), tokens[i].offset)
  {
    hide Gap, Repeated, Count, Written, Drift;
    var prev := LastEnd(tokens[..i], 0);
    WrittenLineEnds(src, tokens[..i], 0);
    GapLineEnds(src, prev, tokens[i].offset);
    CountConcat(Written(src, tokens[..i], 0), Gap(src, prev, tokens[i].offset), '\n');
    CountAbsent("", '\n');
    assert src[..0] == "";
  }

  /** Every token's text is the source at its offset. */
  ghost predicate Honest(src: string, tokens: seq<Token>) {
    forall i :: 0 <= i < |tokens| ==>
      tokens[i].End() <= |src| && tokens[i].Written() == src[tokens[i].offset..tokens[i].End()]
  }

  /** No token goes back over a line end. */
  predicate NoLineTwice(src: string, tokens: seq<Token>, prev: nat)
    requires Within(src, tokens) && prev <= |src|
    decreases |tokens|
  {
    tokens == [] || (Repeated(src, prev, tokens[0].offset) == 0 && NoLineTwice(src, tokens[1..], tokens[0].End()))
  }

  lemma {:induction false} HonestDrift(src: string, tokens: seq<Token>, prev: nat)
    requires Honest(src, tokens) && prev <= |src|
    ensures Drift(src, tokens, prev) >= 0
    ensures Drift(src, tokens, prev) == 0 <==> NoLineTwice(src, tokens, prev)
    decreases |tokens|
  {
    hide Repeated, Count;
    if tokens != [] {
      HonestDrift(src, tokens[1..], tokens[0].End());
    }
  }

  /** Of every stream of honest tokens, in order or not: a token is shown on its own source line exactly when
      no line end was written twice before it. */
  lemma {:induction false} TokenKeepsItsLineExactlyWhen(src: string, tokens: seq<Token>, i: nat)
    requires InFile(tokens, |src|) && i < |tokens| && Honest(src, tokens[..i])
    ensures LastEnd(tokens[..i], 0) <= |src|
    ensures LineEnds(Lead(src, tokens, i)) == LineEnds(src[..tokens[i].offset]) <==>
            NoLineTwice(src, tokens[..i], 0) && Repeated(src, LastEnd(tokens[..i], 0), tokens[i].offset) == 0
  {
    hide Lead, Repeated, Drift, NoLineTwice, Count;
    TokenIsShownAt(src, tokens, i);
    HonestDrift(src, tokens[..i], 0);
  }

  // ---------- line by line ----------

  /** The streams of Go's scanner: tokens in order, possibly ended by a semicolon inserted at the end of the
      file; or, any number of times, a semicolon reported at a line end inside the comment just scanned. */
  datatype Shape = Straight(tokens: seq<Token>, ended: bool) | Rewound(first: seq<Token>, at: nat, rest: Shape) {
    /** The tokens before the first of these semicolons. */
    function Leading(): seq<Token> {
      match this
      case Straight(tokens, _) => tokens
      case Rewound(first, _, _) => first
    }
  }

  function Semicolon(at: nat): Token {
    Token(at, Operator, "\n", ";")
  }

  function Stream(size: nat, shape: Shape): seq<Token> {
    match shape
    case Straight(tokens, ended) => if ended then tokens + [Semicolon(size)] else tokens
    case Rewound(first, at, rest) => first + ([Semicolon(at)] + Stream(size, rest))
  }

  ghost predicate Fits(src: string, shape: Shape, prev: nat) {
    prev <= |src| &&
    match shape
    case Straight(tokens, _) => InFile(tokens, |src|) && Faithful(src, tokens, prev)
    case Rewound(first, at, rest) =>
      && InFile(first, |src|) && Faithful(src, first, prev)
      && at < LastEnd(first, prev) <= |src| && src[at] == '\n'
      && Fits(src, rest, at + 1)
  }

  lemma LeadingEndsInside(src: string, shape: Shape, prev: nat)
    requires Fits(src, shape, prev)
    ensures prev <= LastEnd(shape.Leading(), prev) <= |src|
  {
    EndsInside(src, shape.Leading(), prev);
  }

  /** What follows the source: the line end of an inserted semicolon, or once more what follows the last token. */
  function Extra(src: string, tokens: seq<Token>, prev: nat, ended: bool): string
    requires LastEnd(tokens, prev) <= |src|
  {
    if ended then "\n" else src[LastEnd(tokens, prev)..]
  }

  /** The plain text of a stream, from a place on. */
  ghost function Text(src: string, shape: Shape, prev: nat): string
    requires Fits(src, shape, prev)
  {
    match shape
    case Straight(tokens, ended) =>
      EndsInside(src, tokens, prev);
      src[prev..] + Extra(src, tokens, prev, ended)
    case Rewound(first, at, rest) =>
      EndsInside(src, first, prev);
      src[prev..LastEnd(first, prev)] + ['\n'] + Text(src, rest, at + 1)
  }

  lemma {:induction false} StreamIsInFile(src: string, shape: Shape, prev: nat)
    requires Fits(src, shape, prev)
    ensures InFile(Stream(|src|, shape), |src|)
  {
    if shape.Rewound? {
      StreamIsInFile(src, shape.rest, shape.at + 1);
    }
  }

  lemma StraightText(src: string, tokens: seq<Token>, ended: bool, prev: nat)
    requires Fits(src, Straight(tokens, ended), prev)
    ensures InFile(Stream(|src|, Straight(tokens, ended)), |src|)
    ensures PlainFrom(src, Stream(|src|, Straight(tokens, ended)), prev, |src|)
              == Text(src, Straight(tokens, ended), prev)
  {
    hide PlainFrom, Faithful, LastEnd;
    EndsInside(src, tokens, prev);
    var last := LastEnd(tokens, prev);
    assert src[prev..] == src[prev..last] + src[last..];
    if ended {
      SemicolonAlone(src, last);
      FaithfulStretch(src, tokens, [Semicolon(|src|)], prev, |src|);
      Regroup(src[prev..last], src[last..], "\n");
    } else {
      TailAlone(src, last);
      FaithfulStretch(src, tokens, [], prev, |src|);
      assert tokens + [] == tokens;
      Regroup(src[prev..last], src[last..], src[last..]);
    }
  }

  lemma SemicolonBack(src: string, at: nat, prev: nat, more: seq<Token>)
    requires at < prev && at <= |src| && InFile(more, |src|)
    ensures InFile([Semicolon(at)] + more, |src|)
    ensures PlainFrom(src, [Semicolon(at)] + more, prev, |src|) == ['\n'] + PlainFrom(src, more, at + 1, |src|)
  {
    hide Tail;
    assert ([Semicolon(at)] + more)[1..] == more;
  }

  /** Every such stream writes exactly this text. */
  lemma {:induction false} TextIsWritten(src: string, shape: Shape, prev: nat)
    requires Fits(src, shape, prev)
    ensures InFile(Stream(|src|, shape), |src|)
    ensures PlainFrom(src, Stream(|src|, shape), prev, |src|) == Text(src, shape, prev)
  {
    hide PlainFrom, Faithful, LastEnd;
    match shape
    case Straight(tokens, ended) => StraightText(src, tokens, ended, prev);
    case Rewound(first, at, rest) =>
      var more := Stream(|src|, rest);
      var last := LastEnd(first, prev);
      TextIsWritten(src, rest, at + 1);
      SemicolonBack(src, at, last, more);
      FaithfulStretch(src, first, [Semicolon(at)] + more, prev, |src|);
      Regroup(src[prev..last], ['\n'], Text(src, rest, at + 1));
  }

  // ---------- which source line a line shows ----------

  /** The start of the file, or just after a line end. */
  predicate StartsLine(src: string, prev: nat) {
    prev <= |src| && (prev == 0 || src[prev - 1] == '\n')
  }

  /** A line end between two texts keeps their lines apart. */
  lemma LinesApart(a: string, b: string)
    ensures Lines(a + ['\n'] + b) == Lines(a) + Lines(b)
  {
    hide Split;
    SplitConcat(a, ['\n'] + b, '\n');
    SplitAt("", '\n', b);
    assert "" + ['\n'] + b == ['\n'] + b;
    Regroup(a, ['\n'], b);
    var m := |Lines(a)| - 1;
    assert Lines(a)[m] + "" == Lines(a)[m];
    assert Lines(a)[..m] + [Lines(a)[m]] == Lines(a);
    assert ([""] + Lines(b))[1..] == Lines(b);
  }

  lemma LinesFrom(src: string, prev: nat)
    requires StartsLine(src, prev)
    ensures LineEnds(src[..prev]) < |Lines(src)| && Lines(src[prev..]) == Lines(src)[LineEnds(src[..prev])..]
  {
    hide Split;
    if prev == 0 {
      assert src[..0] == "" && src[0..] == src;
    } else {
      var before := src[..prev - 1];
      assert src == before + ['\n'] + src[prev..];
      LinesApart(before, src[prev..]);
      PiecesAreCounted(before, '\n');
      assert src[..prev] == before + ['\n'] && src[..prev][..prev - 1] == before;
    }
  }

  /** How many lines of a text begin in the source: all but further lines of what follows it. */
  ghost function Height(src: string, shape: Shape, prev: nat): nat
    requires Fits(src, shape, prev)
  {
    match shape
    case Straight(_, _) =>
      var above := LineEnds(src[..prev]);
      if above < |Lines(src)| then |Lines(src)| - above else 0
    case Rewound(first, at, rest) =>
      LeadingEndsInside(src, shape, prev);
      LineEnds(src[prev..LastEnd(first, prev)]) + 1 + Height(src, rest, at + 1)
  }

  ghost predicate Reaches(src: string, shape: Shape, prev: nat, k: nat)
    requires Fits(src, shape, prev)
  {
    k < Height(src, shape, prev)
  }

  lemma PieceLines(src: string, prev: nat, last: nat)
    requires prev <= last <= |src|
    ensures |Lines(src[prev..last])| == LineEnds(src[prev..last]) + 1
    ensures LineEnds(src[..prev]) + LineEnds(src[prev..last]) == LineEnds(src[..last]) < |Lines(src)|
  {
    PiecesAreCounted(src[prev..last], '\n');
    LineEndsUpTo(src, prev, last);
    PiecesAreCounted(src, '\n');
    LineEndsUpTo(src, last, |src|);
    assert src[..|src|] == src;
  }

  /** Line k of a piece of the source: a whole line of the source, or, at the piece's end, the beginning of one. */
  function PieceLine(src: string, prev: nat, last: nat, k: nat): string
    requires prev <= last <= |src| && k <= LineEnds(src[prev..last])
  {
    PieceLines(src, prev, last);
    Lines(src[prev..last])[k]
  }

  /** Source line j, with what is written after the source when it is the last. */
  function LineThen(src: string, j: nat, extra: string): string
    requires j < |Lines(src)|
  {
    if j < |Lines(src)| - 1 then Lines(src)[j] else Lines(src)[j] + Lines(extra)[0]
  }

  /** Line k of a text from a place on, in terms of the source: a whole line, one cut at the end of a comment
      that is gone back over, or the last one with what is written after it. */
  ghost function Shown(src: string, shape: Shape, prev: nat, k: nat): string
    requires Fits(src, shape, prev) && Reaches(src, shape, prev, k)
  {
    LeadingEndsInside(src, shape, prev);
    match shape
    case Straight(tokens, ended) => LineThen(src, LineEnds(src[..prev]) + k, Extra(src, tokens, prev, ended))
    case Rewound(first, at, rest) =>
      var last := LastEnd(first, prev);
      var m := LineEnds(src[prev..last]);
      if k <= m then PieceLine(src, prev, last, k) else Shown(src, rest, at + 1, k - m - 1)
  }

  /** A source line, whole or up to some byte. */
  datatype Place = Place(line: nat, cut: Option<nat>)

  predicate Excerpts(src: string, o: Place, text: string) {
    && o.line < |Lines(src)|
    && match o.cut
       case None => text == Lines(src)[o.line]
       case Some(n) => n <= |Lines(src)[o.line]| && text == Lines(src)[o.line][..n]
  }

  function PiecePlace(src: string, prev: nat, last: nat, k: nat): Place
    requires prev <= last <= |src| && k <= LineEnds(src[prev..last])
  {
    Place(LineEnds(src[..prev]) + k,
          if k < LineEnds(src[prev..last]) then None else Some(|PieceLine(src, prev, last, k)|))
  }

  /** Which source line a line of a text comes from, and how much of it. */
  ghost function Origin(src: string, shape: Shape, prev: nat, k: nat): Place
    requires Fits(src, shape, prev) && Reaches(src, shape, prev, k)
  {
    match shape
    case Straight(_, _) => Place(LineEnds(src[..prev]) + k, None)
    case Rewound(first, at, rest) =>
      LeadingEndsInside(src, shape, prev);
      var last := LastEnd(first, prev);
      var m := LineEnds(src[prev..last]);
      if k <= m then PiecePlace(src, prev, last, k) else Origin(src, rest, at + 1, k - m - 1)
  }

  /** All lines of a piece of the source but its last are lines of the source; the last is the beginning of one. */
  lemma PieceShows(src: string, prev: nat, last: nat, k: nat)
    requires StartsLine(src, prev) && prev <= last <= |src| && k <= LineEnds(src[prev..last])
    ensures var q, m := LineEnds(src[..prev]), LineEnds(src[prev..last]);
            && |Lines(src[prev..last])| == m + 1 && q + k < |Lines(src)|
            && Lines(src)[q + k] == if k < m then Lines(src[prev..last])[k]
                 else Lines(src[prev..last])[m] + Lines(src[last..])[0]
  {
    hide Split, Count;
    PieceLines(src, prev, last);
    LinesFrom(src, prev);
    assert src[prev..] == src[prev..last] + src[last..];
    SplitConcat(src[prev..last], src[last..], '\n');
    assert Lines(src[prev..])[k] == Lines(src)[LineEnds(src[..prev])..][k];
  }

  /** One comment gone back over: the text up to its end, a line end, and the rest. */
  lemma OneRewind(src: string, shape: Shape, prev: nat, k: nat)
    requires Fits(src, shape, prev) && shape.Rewound? && Reaches(src, shape, prev, k)
    ensures Fits(src, shape.rest, shape.at + 1) && src[shape.at] == '\n'
    ensures var last := LastEnd(shape.first, prev);
            && prev <= last <= |src| && shape.at < last
            && Text(src, shape, prev) == src[prev..last] + ['\n'] + Text(src, shape.rest, shape.at + 1)
            && var m := LineEnds(src[prev..last]);
               if k <= m then
                 && Shown(src, shape, prev, k) == PieceLine(src, prev, last, k)
                 && Origin(src, shape, prev, k) == PiecePlace(src, prev, last, k)
               else
                 && Reaches(src, shape.rest, shape.at + 1, k - m - 1)
                 && Shown(src, shape, prev, k) == Shown(src, shape.rest, shape.at + 1, k - m - 1)
                 && Origin(src, shape, prev, k) == Origin(src, shape.rest, shape.at + 1, k - m - 1)
  {
    hide Lines, Count, Faithful, LastEnd, PieceLine;
    LeadingEndsInside(src, shape, prev);
  }

  /** That is the text of line k. */
  lemma {:induction false} ShownIsWritten(src: string, shape: Shape, prev: nat, k: nat)
    requires Fits(src, shape, prev) && StartsLine(src, prev) && Reaches(src, shape, prev, k)
    ensures k < |Lines(Text(src, shape, prev))| && Lines(Text(src, shape, prev))[k] == Shown(src, shape, prev, k)
    decreases shape
  {
    hide Lines, Count, Faithful, LastEnd;
    match shape
    case Straight(tokens, ended) =>
      LeadingEndsInside(src, shape, prev);
      LinesFrom(src, prev);
      SplitLines(src[prev..], Extra(src, tokens, prev, ended));
    case Rewound(first, at, rest) =>
      OneRewind(src, shape, prev, k);
      hide Text, Shown, Origin, Fits, Reaches;
      var last := LastEnd(first, prev);
      var piece := src[prev..last];
      LinesApart(piece, Text(src, rest, at + 1));
      PieceLines(src, prev, last);
      if LineEnds(piece) < k {
        ShownIsWritten(src, rest, at + 1, k - LineEnds(piece) - 1);
      }
  }

  lemma PieceIsExcerpt(src: string, prev: nat, last: nat, k: nat)
    requires StartsLine(src, prev) && prev <= last <= |src| && k <= LineEnds(src[prev..last])
    ensures Excerpts(src, PiecePlace(src, prev, last, k), PieceLine(src, prev, last, k))
  {
    hide Lines, Count;
    PieceShows(src, prev, last, k);
  }

  /** A line that does not come from the last source line is exactly that much of the line it comes from. It
      never comes from a lower line, and below the end of a comment gone back over it comes from a higher one. */
  lemma {:induction false} ShownIsOrigin(src: string, shape: Shape, prev: nat, k: nat)
    requires Fits(src, shape, prev) && StartsLine(src, prev) && Reaches(src, shape, prev, k)
    ensures var o := Origin(src, shape, prev, k);
            && o.line < |Lines(src)| && o.line <= LineEnds(src[..prev]) + k
            && (o.line < |Lines(src)| - 1 ==> Excerpts(src, o, Shown(src, shape, prev, k)))
  {
    hide Lines, Count, Faithful, LastEnd, PieceLine;
    if shape.Straight? {
      LeadingEndsInside(src, shape, prev);
    } else {
      OneRewind(src, shape, prev, k);
      hide Text, Shown, Origin, Fits, Reaches, Excerpts;
      var at, last := shape.at, LastEnd(shape.first, prev);
      var m := LineEnds(src[prev..last]);
      PieceLines(src, prev, last);
      if k <= m {
        PieceIsExcerpt(src, prev, last, k);
      } else {
        ShownIsOrigin(src, shape.rest, at + 1, k - m - 1);
        LineEndsUpTo(src, at + 1, last);
      }
    }
  }

  lemma SplitLines(a: string, b: string)
    ensures var m := |Lines(a)| - 1; Lines(a + b) == Lines(a)[..m] + [Lines(a)[m] + Lines(b)[0]] + Lines(b)[1..]
  {
    SplitConcat(a, b, '\n');
  }

  /** The text has at least as many lines as the source. */
  lemma {:induction false} NoLineIsMissing(src: string, shape: Shape, prev: nat, k: nat)
    requires Fits(src, shape, prev) && LineEnds(src[..prev]) + k < |Lines(src)|
    ensures Reaches(src, shape, prev, k)
  {
    hide Faithful, LastEnd, Count;
    if shape.Rewound? {
      EndsInside(src, shape.first, prev);
      var last := LastEnd(shape.first, prev);
      var m := LineEnds(src[prev..last]);
      if m < k {
        LineEndsUpTo(src, prev, last);
        LineEndsUpTo(src, shape.at + 1, last);
        NoLineIsMissing(src, shape.rest, shape.at + 1, k - m - 1);
      }
    }
  }

  // ---------- rendered lines ----------

  /** A source without escapes, and a stream of this shape for it. */
  ghost predicate Scans(src: string, shape: Shape) {
    Fits(src, shape, 0) && ESC !in src && EscFree(Stream(|src|, shape))
  }

  /** The lines rendered for it. */
  ghost function Rendered(src: string, shape: Shape): (lines: seq<string>)
    requires Scans(src, shape)
    ensures |lines| >= 1
  {
    StreamIsInFile(src, shape, 0);
    Lines(HighlightFrom(src, Stream(|src|, shape), 0, |src|))
  }

  /** Every source line number has a rendered line, and this is what it shows. */
  lemma {:induction false} LineShows(src: string, shape: Shape, k: nat)
    requires Scans(src, shape) && Reaches(src, shape, 0, k)
    ensures k < |Rendered(src, shape)| && Strip(Rendered(src, shape)[k]) == Shown(src, shape, 0, k)
  {
    hide Strip, Split, HighlightFrom, PlainFrom, Fits, Shown, Reaches, Text;
    TextIsWritten(src, shape, 0);
    StrippingLeavesThePlainText(src, Stream(|src|, shape), 0, |src|);
    StripKeepsLines(HighlightFrom(src, Stream(|src|, shape), 0, |src|));
    ShownIsWritten(src, shape, 0, k);
  }

  lemma FirstLineIsEmptyExactlyWhen(s: string)
    ensures Lines(s)[0] == "" <==> s == "" || s[0] == '\n'
  {
  }

  predicate EndsLine(src: string, at: nat)
    requires at <= |src|
  {
    at == |src| || src[at] == '\n'
  }

  /** The condition for source line k to be shown as line k. Without going back: it is not the last line, or
      nothing on it follows the last token. Otherwise: it ends before the end of the first comment that is
      gone back over, or just there; or it lies below and happens to read the same as what is shown there: a
      higher source line, or the beginning of one that such a comment ends on. */
  ghost predicate Keeps(src: string, shape: Shape, k: nat)
    requires Fits(src, shape, 0) && k < |Lines(src)|
  {
    LeadingEndsInside(src, shape, 0);
    var last := LastEnd(shape.Leading(), 0);
    match shape
    case Straight(_, ended) => k < |Lines(src)| - 1 || ended || EndsLine(src, last)
    case Rewound(_, _, _) =>
      var m := LineEnds(src[..last]);
      if k < m then true
      else if k == m then EndsLine(src, last)
      else
        BelowIsReached(src, shape, k);
        KeepsBelow(src, shape.rest, shape.at + 1, k - m - 1, k)
  }

  ghost predicate KeepsBelow(src: string, shape: Shape, prev: nat, below: nat, k: nat)
    requires Fits(src, shape, prev) && Reaches(src, shape, prev, below) && k < |Lines(src)|
  {
    Excerpts(src, Origin(src, shape, prev, below), Lines(src)[k])
  }

  lemma BelowIsReached(src: string, shape: Shape, k: nat)
    requires Fits(src, shape, 0) && k < |Lines(src)| && shape.Rewound?
    requires LastEnd(shape.first, 0) <= |src| && LineEnds(src[..LastEnd(shape.first, 0)]) < k
    ensures Fits(src, shape.rest, shape.at + 1)
    ensures Reaches(src, shape.rest, shape.at + 1, k - LineEnds(src[..LastEnd(shape.first, 0)]) - 1)
  {
    hide Lines, Count, Faithful, LastEnd;
    CountAbsent("", '\n');
    assert src[..0] == "" && src[0..LastEnd(shape.first, 0)] == src[..LastEnd(shape.first, 0)];
    NoLineIsMissing(src, shape, 0, k);
  }

  /** What is shown below comes from a higher source line. */
  lemma BelowIsExcerpt(src: string, shape: Shape, k: nat)
    requires Fits(src, shape, 0) && k < |Lines(src)| && shape.Rewound?
    requires LastEnd(shape.first, 0) <= |src| && LineEnds(src[..LastEnd(shape.first, 0)]) < k
    requires Reaches(src, shape.rest, shape.at + 1, k - LineEnds(src[..LastEnd(shape.first, 0)]) - 1)
    ensures var below := k - LineEnds(src[..LastEnd(shape.first, 0)]) - 1;
            && Origin(src, shape.rest, shape.at + 1, below).line < k
            && Excerpts(src, Origin(src, shape.rest, shape.at + 1, below), Shown(src, shape.rest, shape.at + 1, below))
  {
    hide Lines, Count, Faithful, LastEnd, Reaches;
    LeadingEndsInside(src, shape, 0);
    var last := LastEnd(shape.first, 0);
    ShownIsOrigin(src, shape.rest, shape.at + 1, k - LineEnds(src[..last]) - 1);
    LineEndsUpTo(src, shape.at + 1, last);
  }

  /** Source line k is shown as line k exactly then. */
  lemma LineKeepsItsNumberExactlyWhen(src: string, shape: Shape, k: nat)
    requires Scans(src, shape) && k < |Lines(src)|
    ensures k < |Rendered(src, shape)|
    ensures Strip(Rendered(src, shape)[k]) == Lines(src)[k] <==> Keeps(src, shape, k)
  {
    hide Strip, Lines, Rendered, Count, Faithful, LastEnd, Stream;
    LeadingEndsInside(src, shape, 0);
    var last := LastEnd(shape.Leading(), 0);
    CountAbsent("", '\n');
    assert src[..0] == "" && src[0..last] == src[..last];
    NoLineIsMissing(src, shape, 0, k);
    LineShows(src, shape, k);
    var line := Lines(src)[k];
    match shape
    case Straight(tokens, ended) =>
      FirstLineIsEmptyExactlyWhen(Extra(src, tokens, 0, ended));
      assert line + Lines(Extra(src, tokens, 0, ended))[0] == line <==> Lines(Extra(src, tokens, 0, ended))[0] == "";
    case Rewound(_, _, _) =>
      if k <= LineEnds(src[..last]) {
        PieceShows(src, 0, last, k);
        FirstLineIsEmptyExactlyWhen(src[last..]);
      } else {
        BelowIsReached(src, shape, k);
        BelowIsExcerpt(src, shape, k);
      }
  }

  // ---------- how far lines move ----------

  /** A comment over several lines after a statement: the scanner reports the statement's semicolon at a line
      end inside the comment, and everything from that line end on is written after the comment once more. */
  lemma SemicolonInsideACommentRepeatsIt(src: string, first: seq<Token>, at: nat, rest: seq<Token>)
    requires Fits(src, Rewound(first, at, Straight(rest, false)), 0)
    ensures InFile(first + ([Semicolon(at)] + rest), |src|) && LastEnd(first, 0) <= |src| &&
              LastEnd(rest, at + 1) <= |src|
    ensures PlainFrom(src, first + ([Semicolon(at)] + rest), 0, |src|)
              == src[..LastEnd(first, 0)] + (src[at..] + src[LastEnd(rest, at + 1)..])
  {
    hide PlainFrom, Faithful, LastEnd;
    TextIsWritten(src, Rewound(first, at, Straight(rest, false)), 0);
    EndsInside(src, first, 0);
    EndsInside(src, rest, at + 1);
    assert src[0..LastEnd(first, 0)] == src[..LastEnd(first, 0)];
    assert src[at..] == ['\n'] + src[at + 1..];
    Regroup(src[..LastEnd(first, 0)], ['\n'], src[at + 1..] + src[LastEnd(rest, at + 1)..]);
    Regroup(['\n'], src[at + 1..], src[LastEnd(rest, at + 1)..]);
  }

  /** Where the text goes on after the last going back. */
  function Resumed(shape: Shape, prev: nat): nat {
    match shape
    case Straight(_, _) => prev
    case Rewound(_, at, rest) => Resumed(rest, at + 1)
  }

  /** All line ends gone back over. */
  ghost function Shift(src: string, shape: Shape, prev: nat): nat
    requires Fits(src, shape, prev)
  {
    match shape
    case Straight(_, _) => 0
    case Rewound(first, at, rest) => LineEnds(src[at..LastEnd(first, prev)]) + Shift(src, rest, at + 1)
  }

  lemma {:induction false} ShiftedLine(src: string, shape: Shape, prev: nat, j: nat)
    requires Fits(src, shape, prev) && Resumed(shape, prev) <= |src|
    requires LineEnds(src[..Resumed(shape, prev)]) <= j < |Lines(src)| - 1
    ensures var k := j + Shift(src, shape, prev) - LineEnds(src[..prev]);
            k >= 0 && Reaches(src, shape, prev, k) && Shown(src, shape, prev, k) == Lines(src)[j]
  {
    hide Lines, Faithful, LastEnd, Count;
    if shape.Rewound? {
      var at, last := shape.at, LastEnd(shape.first, prev);
      EndsInside(src, shape.first, prev);
      ShiftedLine(src, shape.rest, at + 1, j);
      LineEndsUpTo(src, prev, last);
      LineEndsUpTo(src, at, last);
      OneLineEnd(src, at);
    }
  }

  lemma OneLineEnd(src: string, at: nat)
    requires at < |src| && src[at] == '\n'
    ensures LineEnds(src[..at + 1]) == LineEnds(src[..at]) + 1
  {
    assert src[..at + 1][..at] == src[..at];
  }

  /** Every line after the last comment that is gone back over, but the last of all, is shown lower by exactly
      the line ends gone back over. */
  lemma {:induction false} LaterLinesAreShifted(src: string, shape: Shape, j: nat)
    requires Scans(src, shape)
    requires Resumed(shape, 0) <= |src| && LineEnds(src[..Resumed(shape, 0)]) <= j < |Lines(src)| - 1
    ensures j + Shift(src, shape, 0) < |Rendered(src, shape)|
    ensures Strip(Rendered(src, shape)[j + Shift(src, shape, 0)]) == Lines(src)[j]
  {
    hide Strip, Lines, Rendered, Fits, Stream, Count, Resumed, Shift, Shown, Reaches, EscFree, InFile;
    ShiftedLine(src, shape, 0, j);
    assert src[..0] == "";
    CountAbsent("", '\n');
    LineShows(src, shape, j + Shift(src, shape, 0));
  }

  /** Below the end of the only comment gone back over, a line keeps its number only by repetition: exactly
      when it reads as the line that many line ends above. */
  lemma BelowKeepsOnlyByRepetition(src: string, first: seq<Token>, at: nat, rest: seq<Token>, ended: bool, k: nat)
    requires var shape := Rewound(first, at, Straight(rest, ended));
             Fits(src, shape, 0) && LastEnd(first, 0) <= |src| && LineEnds(src[..LastEnd(first, 0)]) < k < |Lines(src)|
    ensures var shape := Rewound(first, at, Straight(rest, ended));
            && 1 <= Shift(src, shape, 0) <= k
            && (Keeps(src, shape, k) <==> Lines(src)[k - Shift(src, shape, 0)] == Lines(src)[k])
  {
    hide Lines, Faithful, LastEnd, Count;
    var last := LastEnd(first, 0);
    OneLineEnd(src, at);
    LineEndsUpTo(src, at, last);
    LineEndsUpTo(src, at + 1, last);
    CountAbsent("", '\n');
    assert src[..0] == "" && src[0..last] == src[..last];
    NoLineIsMissing(src, Rewound(first, at, Straight(rest, ended)), 0, k);
  }

  const TWO_LINE_COMMENT: string := "x/*\n*/\ny\n"

  const ITS_SHAPE: Shape :=
    Rewound([Token(0, Operator, "x", ""), Token(1, Comment, "/*\n*/", "")], 3,
            Straight([Token(7, Operator, "y", ""), Semicolon(8)], false))

  lemma ItFits()
    ensures Fits(TWO_LINE_COMMENT, ITS_SHAPE, 0) && LastEnd(ITS_SHAPE.first, 0) == 6 &&
              LastEnd(ITS_SHAPE.rest.tokens, 4) == 9
  {
    hide Lines, Count;
    var src, first, rest := TWO_LINE_COMMENT, ITS_SHAPE.first, ITS_SHAPE.rest.tokens;
    assert src == "x/*\n*/\ny\n";
    assert first == [Token(0, Operator, "x", ""), Token(1, Comment, "/*\n*/", "")];
    assert first[1..] == [Token(1, Comment, "/*\n*/", "")] && first[1..][1..] == [];
    assert rest[1..] == [Semicolon(8)] && rest[1..][1..] == [];
    assert src[0..1] == "x" && src[1..6] == "/*\n*/";
    assert src[7..8] == "y" && src[8..9] == "\n";
    assert Faithful(src, first[1..], 1);
    assert Faithful(src, rest[1..], 8);
  }

  lemma ItsLines()
    ensures Lines(TWO_LINE_COMMENT) == ["x/*", "*/", "y", ""] && LineEnds(TWO_LINE_COMMENT[..6]) == 1
  {
    hide Split, Count;
    assert TWO_LINE_COMMENT == "x/*" + ['\n'] + ("*/" + ['\n'] + ("y" + ['\n'] + ""));
    SplitAt("x/*", '\n', "*/" + ['\n'] + ("y" + ['\n'] + ""));
    SplitAt("*/", '\n', "y" + ['\n'] + "");
    SplitAt("y", '\n', "");
    SplitAbsent("", '\n');
    assert TWO_LINE_COMMENT[..6] == "x/*" + ['\n'] + "*/";
    SplitAt("x/*", '\n', "*/");
    SplitAbsent("*/", '\n');
    PiecesAreCounted(TWO_LINE_COMMENT[..6], '\n');
  }

  ghost predicate Misplaces(src: string, shape: Shape, k: nat, text: string) {
    Fits(src, shape, 0) && Text(src, shape, 0) == text && k < |Lines(src)| && !Keeps(src, shape, k)
  }

  lemma ItsText()
    requires Fits(TWO_LINE_COMMENT, ITS_SHAPE, 0) && LastEnd(ITS_SHAPE.first, 0) == 6 &&
               LastEnd(ITS_SHAPE.rest.tokens, 4) == 9
    ensures Text(TWO_LINE_COMMENT, ITS_SHAPE, 0) == "x/*\n*/\n*/\ny\n"
  {
    hide Lines, Count, Faithful, LastEnd;
    var src := TWO_LINE_COMMENT;
    assert |src| == 9;
    assert src[0..6] == "x/*\n*/" && src[4..] == "*/\ny\n" && src[9..] == "";
    assert Text(src, ITS_SHAPE.rest, 4) == "*/\ny\n";
  }

  /** A comment over two lines after a statement, in a file that ends well: the comment's end is shown twice,
      and the third line of the source is not shown as the third. */
  lemma ThirdLineIsMisplaced()
    ensures Misplaces(TWO_LINE_COMMENT, ITS_SHAPE, 2, "x/*\n*/\n*/\ny\n")
  {
    hide Lines, Count, Fits, LastEnd, Keeps, Text, Shift;
    ItFits();
    ItsText();
    ItsLines();
    BelowKeepsOnlyByRepetition(TWO_LINE_COMMENT, ITS_SHAPE.first, 3, ITS_SHAPE.rest.tokens, false, 2);
  }
}
