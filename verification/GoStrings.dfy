/** The parts of Go's `strings` and `strconv` that the debugger front end relies on.
    A Go string is a sequence of bytes; one `char` stands for one byte. */
module GoStrings {

  datatype Option<+T> = None | Some(value: T)

  datatype Result<+T, +E> = Ok(value: T) | Err(error: E)

  // ---------- white space ----------

  /** The ASCII white space that strings.TrimSpace removes: \t \n \v \f \r and space. */
  predicate IsSpace(c: char) {
    c == ' ' || 9 <= c as int <= 13
  }

  predicate Trimmed(s: string) {
    s == "" || (!IsSpace(s[0]) && !IsSpace(s[|s| - 1]))
  }

  function TrimLeft(s: string): (r: string)
    ensures r == "" || !IsSpace(r[0])
    ensures |r| <= |s|
  {
    if s != "" && IsSpace(s[0]) then TrimLeft(s[1..]) else s
  }

  function TrimRight(s: string): (r: string)
    ensures r == "" || !IsSpace(r[|r| - 1])
    ensures r <= s
  {
    if s != "" && IsSpace(s[|s| - 1]) then TrimRight(s[..|s| - 1]) else s
  }

  /** strings.TrimSpace. */
  function TrimSpace(s: string): (r: string)
    ensures Trimmed(r)
    ensures Trimmed(s) ==> r == s
    ensures |r| <= |s|
  {
    TrimRight(TrimLeft(s))
  }

  /** Nothing but white space. */
  predicate IsBlank(s: string) {
    forall i :: 0 <= i < |s| ==> IsSpace(s[i])
  }

  lemma {:induction false} BlankLeft(s: string)
    ensures IsBlank(s) <==> TrimLeft(s) == ""
  {
    if s != "" && IsSpace(s[0]) {
      BlankLeft(s[1..]);
      assert s == [s[0]] + s[1..];
    }
  }

  /** strings.TrimSpace(s) == "" is how the code asks whether a text is blank. */
  lemma BlankIffTrimsToNothing(s: string)
    ensures IsBlank(s) <==> TrimSpace(s) == ""
  {
    BlankLeft(s);
    var l := TrimLeft(s);
    if l != "" {
      KeepsFirst(l);
    }
  }

  lemma {:induction false} KeepsFirst(s: string)
    requires s != "" && !IsSpace(s[0])
    ensures TrimRight(s) != ""
  {
    if IsSpace(s[|s| - 1]) {
      KeepsFirst(s[..|s| - 1]);
    }
  }

  // ---------- decimal integers ----------

  const MAX_INT: int := 0x7fff_ffff_ffff_ffff
  const MIN_INT: int := -0x8000_0000_0000_0000

  predicate IsDigit(c: char) {
    '0' <= c <= '9'
  }

  predicate AllDigits(s: string) {
    forall i :: 0 <= i < |s| ==> IsDigit(s[i])
  }

  /** The number a non-empty run of decimal digits denotes. */
  function DigitsValue(s: string): nat
    requires AllDigits(s)
  {
    if s == "" then 0
    else 10 * DigitsValue(s[..|s| - 1]) + (s[|s| - 1] as int - '0' as int)
  }

  /** Decimal printing of a non-negative integer, as fmt's %d does. */
  function Itoa(n: nat): (s: string)
    ensures s != "" && AllDigits(s)
    ensures DigitsValue(s) == n
    decreases n
  {
    if n < 10 then
      var d := [('0' as int + n) as char];
      assert d[..0] == "";
      d
    else
      var s := Itoa(n / 10);
      var d := ('0' as int + n % 10) as char;
      assert (s + [d])[..|s|] == s;
      s + [d]
  }

  /** strconv.Atoi on a 64-bit machine: an optional sign, digits, no overflow. */
  function Atoi(s: string): Option<int> {
    var negative := s != "" && s[0] == '-';
    var body := if s != "" && (s[0] == '-' || s[0] == '+') then s[1..] else s;
    if body == "" || !AllDigits(body) then None
    else
      var v: int := DigitsValue(body);
      var n := if negative then -v else v;
      if MIN_INT <= n <= MAX_INT then Some(n) else None
  }

  lemma AtoiOfItoa(n: nat)
    requires n <= MAX_INT
    ensures Atoi(Itoa(n)) == Some(n)
  {
    assert IsDigit(Itoa(n)[0]);
  }

  // ---------- searching and splitting ----------

  /** strings.LastIndex for a one-byte separator; -1 when it is absent. */
  function LastIndex(s: string, c: char): (i: int)
    ensures -1 <= i < |s|
    ensures 0 <= i ==> s[i] == c
  {
    if s == "" then -1
    else if s[|s| - 1] == c then |s| - 1
    else LastIndex(s[..|s| - 1], c)
  }

  lemma {:induction false} NoneAfterLast(s: string, c: char)
    ensures c !in s[LastIndex(s, c) + 1..]
  {
    if s != "" && s[|s| - 1] != c {
      var init := s[..|s| - 1];
      NoneAfterLast(init, c);
      assert s[LastIndex(init, c) + 1..] == init[LastIndex(init, c) + 1..] + [s[|s| - 1]];
    }
  }

  /** The position of the first `c`, or |s| when there is none. */
  function IndexOf(s: string, c: char): (i: nat)
    ensures i <= |s|
    ensures i < |s| ==> s[i] == c
  {
    if s == "" || s[0] == c then 0 else 1 + IndexOf(s[1..], c)
  }

  lemma {:induction false} NoneBeforeFirst(s: string, c: char)
    ensures c !in s[..IndexOf(s, c)]
  {
    if s != "" && s[0] != c {
      NoneBeforeFirst(s[1..], c);
      assert s[..IndexOf(s, c)] == [s[0]] + s[1..][..IndexOf(s[1..], c)];
    }
  }

  /** strings.Split with a one-byte separator: always at least one piece. */
  function Split(s: string, c: char): (parts: seq<string>)
    ensures |parts| >= 1
    decreases |s|
  {
    var i := IndexOf(s, c);
    if i == |s| then [s] else [s[..i]] + Split(s[i + 1..], c)
  }

  lemma {:induction false} NoSeparatorInside(s: string, c: char)
    ensures forall p :: p in Split(s, c) ==> c !in p
    decreases |s|
  {
    hide IndexOf;
    var i := IndexOf(s, c);
    NoneBeforeFirst(s, c);
    assert s[..|s|] == s;
    if i < |s| {
      NoSeparatorInside(s[i + 1..], c);
    }
  }

  /** strings.Join with a one-byte separator. */
  function Join(parts: seq<string>, c: char): string {
    if |parts| == 0 then ""
    else if |parts| == 1 then parts[0]
    else parts[0] + [c] + Join(parts[1..], c)
  }

  lemma JoinCons(first: string, rest: seq<string>, c: char)
    requires rest != []
    ensures Join([first] + rest, c) == first + [c] + Join(rest, c)
  {
    assert ([first] + rest)[1..] == rest;
  }

  lemma {:induction false} JoinSnoc(parts: seq<string>, last: string, c: char)
    requires parts != []
    ensures Join(parts + [last], c) == Join(parts, c) + [c] + last
  {
    if |parts| == 1 {
      assert (parts + [last])[1..] == [last];
    } else {
      JoinSnoc(parts[1..], last, c);
      assert (parts + [last])[1..] == parts[1..] + [last];
      Regroup(parts[0] + [c], Join(parts[1..], c), [c] + last);
    }
  }

  lemma {:induction false} JoinSides(a: seq<string>, b: seq<string>, c: char)
    requires a != [] && b != []
    ensures Join(a + b, c) == Join(a, c) + [c] + Join(b, c)
  {
    if |a| == 1 {
      assert a + b == [a[0]] + b;
      JoinCons(a[0], b, c);
    } else {
      JoinSides(a[1..], b, c);
      assert a + b == [a[0]] + (a[1..] + b);
      JoinCons(a[0], a[1..] + b, c);
      assert a[0] + [c] + (Join(a[1..], c) + [c] + Join(b, c)) == a[0] + [c] + Join(a[1..], c) + [c] + Join(b, c);
    }
  }

  lemma {:induction false} JoinOfSplit(s: string, c: char)
    ensures Join(Split(s, c), c) == s
    decreases |s|
  {
    hide IndexOf, Split;
    var i := IndexOf(s, c);
    NoneBeforeFirst(s, c);
    if i == |s| {
      assert s[..i] == s;
      SplitAbsent(s, c);
    } else {
      var rest := s[i + 1..];
      assert s == s[..i] + [c] + rest;
      SplitAt(s[..i], c, rest);
      JoinOfSplit(rest, c);
      JoinCons(s[..i], Split(rest, c), c);
    }
  }

  lemma {:induction false} IndexOfAt(a: string, c: char, b: string)
    requires c !in a
    ensures IndexOf(a + [c] + b, c) == |a|
  {
    if a != "" {
      assert (a + [c] + b)[1..] == a[1..] + [c] + b;
      IndexOfAt(a[1..], c, b);
    }
  }

  lemma {:induction false} IndexOfAbsent(s: string, c: char)
    requires c !in s
    ensures IndexOf(s, c) == |s|
  {
    if s != "" {
      IndexOfAbsent(s[1..], c);
    }
  }

  /** Splitting a string at one separator: the pieces of the two sides, side by side. */
  lemma SplitAt(a: string, c: char, b: string)
    requires c !in a
    ensures Split(a + [c] + b, c) == [a] + Split(b, c)
  {
    IndexOfAt(a, c, b);
    var s := a + [c] + b;
    assert s[..|a|] == a;
    assert s[|a| + 1..] == b;
  }

  lemma {:induction false} SplitOfJoin(parts: seq<string>, c: char)
    requires parts != []
    requires forall p :: p in parts ==> c !in p
    ensures Split(Join(parts, c), c) == parts
  {
    if |parts| == 1 {
      assert parts == [parts[0]];
      IndexOfAbsent(parts[0], c);
    } else {
      SplitOfJoin(parts[1..], c);
      SplitAt(parts[0], c, Join(parts[1..], c));
      assert parts == [parts[0]] + parts[1..];
    }
  }

  /** Splitting a concatenation: the last piece of one side and the first of the other become one. */
  lemma {:induction false} SplitConcat(a: string, b: string, c: char)
    ensures var m := |Split(a, c)| - 1;
            Split(a + b, c) == Split(a, c)[..m] + [Split(a, c)[m] + Split(b, c)[0]] + Split(b, c)[1..]
    decreases |a|
  {
    hide Split, IndexOf;
    var i := IndexOf(a, c);
    var first := a[..i];
    NoneBeforeFirst(a, c);
    if i == |a| {
      assert first == a;
      SplitAbsent(a, c);
      GluedFirst(a, b, c);
      assert [a][..0] == [];
      assert [] + [a + Split(b, c)[0]] + Split(b, c)[1..] == [a + Split(b, c)[0]] + Split(b, c)[1..];
    } else {
      var rest := a[i + 1..];
      assert a == first + [c] + rest;
      assert a + b == first + [c] + (rest + b);
      SplitAt(first, c, rest);
      SplitAt(first, c, rest + b);
      SplitConcat(rest, b, c);
      var m := |Split(rest, c)| - 1;
      assert ([first] + Split(rest, c))[..m + 1] == [first] + Split(rest, c)[..m];
    }
  }

  lemma SplitAbsent(s: string, c: char)
    requires c !in s
    ensures Split(s, c) == [s]
  {
    IndexOfAbsent(s, c);
  }

  /** A text without the separator goes to the front of the first piece. */
  lemma GluedFirst(a: string, b: string, c: char)
    requires c !in a
    ensures Split(a + b, c) == [a + Split(b, c)[0]] + Split(b, c)[1..]
  {
    hide IndexOf;
    var i := IndexOf(b, c);
    NoneBeforeFirst(b, c);
    if i == |b| {
      SplitAbsent(b, c);
      SplitAbsent(a + b, c);
    } else {
      var first, rest := b[..i], b[i + 1..];
      assert b == first + [c] + rest;
      assert a + b == (a + first) + [c] + rest;
      SplitAt(first, c, rest);
      SplitAt(a + first, c, rest);
    }
  }

  /** The two sides of any separator are split on their own. */
  lemma {:induction false} SplitSides(a: string, c: char, b: string)
    ensures Split(a + [c] + b, c) == Split(a, c) + Split(b, c)
    decreases |a|
  {
    hide Split, IndexOf;
    var i := IndexOf(a, c);
    var first := a[..i];
    NoneBeforeFirst(a, c);
    if i == |a| {
      assert first == a;
      SplitAbsent(a, c);
      SplitAt(a, c, b);
    } else {
      var rest := a[i + 1..];
      assert a == first + [c] + rest;
      assert a + [c] + b == first + [c] + (rest + [c] + b);
      SplitAt(first, c, rest);
      SplitAt(first, c, rest + [c] + b);
      SplitSides(rest, c, b);
    }
  }

  /** How often a byte occurs. */
  function Count(s: string, c: char): nat {
    if s == "" then 0 else Count(s[..|s| - 1], c) + (if s[|s| - 1] == c then 1 else 0)
  }

  lemma {:induction false} CountConcat(a: string, b: string, c: char)
    ensures Count(a + b, c) == Count(a, c) + Count(b, c)
    decreases |b|
  {
    if b == "" {
      assert a + b == a;
    } else {
      var init := b[..|b| - 1];
      assert (a + b)[..|a + b| - 1] == a + init;
      CountConcat(a, init, c);
    }
  }

  lemma {:induction false} CountAbsent(s: string, c: char)
    requires c !in s
    ensures Count(s, c) == 0
  {
    if s != "" {
      CountAbsent(s[..|s| - 1], c);
    }
  }

  /** One piece more than there are separators. */
  lemma {:induction false} PiecesAreCounted(s: string, c: char)
    ensures |Split(s, c)| == Count(s, c) + 1
    decreases |s|
  {
    hide Split, IndexOf;
    var i := IndexOf(s, c);
    NoneBeforeFirst(s, c);
    CountAbsent(s[..i], c);
    if i == |s| {
      assert s[..i] == s;
      SplitAbsent(s, c);
    } else {
      var rest := s[i + 1..];
      assert s == s[..i] + [c] + rest;
      SplitAt(s[..i], c, rest);
      PiecesAreCounted(rest, c);
      CountConcat(s[..i] + [c], rest, c);
      CountConcat(s[..i], [c], c);
      assert Count([c], c) == 1;
    }
  }

  // ---------- lists ----------

  lemma Regroup<T>(a: seq<T>, b: seq<T>, c: seq<T>)
    ensures a + b + c == a + (b + c)
  {
  }

  /** The last `n` elements, or all of them when there are fewer. */
  function LastN<T>(n: nat, s: seq<T>): seq<T> {
    if |s| > n then s[|s| - n..] else s
  }

  // ---------- in plain terms ----------

  /** Trimming takes exactly the white space, of these six bytes, off the two ends. */
  lemma TrimmingTakesOnlySpace(s: string) returns (a: string, b: string)
    ensures s == a + TrimSpace(s) + b
    ensures forall c :: c in a + b ==> c in {' ', '\t', '\n', 11 as char, 12 as char, '\r'}
    ensures var t := TrimSpace(s);
            t == "" || ({t[0], t[|t| - 1]} !! {' ', '\t', '\n', 11 as char, 12 as char, '\r'})
  {
    a := LeftSpace(s);
    b := RightSpace(TrimLeft(s));
    assert s == a + (TrimSpace(s) + b);
  }

  lemma {:induction false} LeftSpace(s: string) returns (a: string)
    ensures s == a + TrimLeft(s) && IsBlank(a)
  {
    if s != "" && IsSpace(s[0]) {
      var more := LeftSpace(s[1..]);
      a := [s[0]] + more;
      assert s == [s[0]] + s[1..];
    } else {
      a := "";
    }
  }

  lemma {:induction false} RightSpace(s: string) returns (b: string)
    ensures s == TrimRight(s) + b && IsBlank(b)
  {
    if s != "" && IsSpace(s[|s| - 1]) {
      var more := RightSpace(s[..|s| - 1]);
      b := more + [s[|s| - 1]];
      assert s == s[..|s| - 1] + [s[|s| - 1]];
    } else {
      b := "";
    }
  }

  function Power(n: nat): nat {
    if n == 0 then 1 else 10 * Power(n - 1)
  }

  /** Digits are decimal: a digit is worth its distance from '0', and each place ten times the next. */
  lemma {:induction false} DigitsAreDecimal(a: string, b: string)
    requires AllDigits(a) && AllDigits(b)
    ensures AllDigits(a + b) && DigitsValue(a + b) == DigitsValue(a) * Power(|b|) + DigitsValue(b)
    ensures |b| == 1 ==> DigitsValue(b) == b[0] as int - '0' as int
    decreases |b|
  {
    if b == "" {
      assert a + b == a;
    } else {
      var n := |b| - 1;
      DigitsAreDecimal(a, b[..n]);
      assert (a + b)[..|a| + n] == a + b[..n];
      assert DigitsValue(a + b) == 10 * DigitsValue(a + b[..n]) + (b[n] as int - '0' as int);
      Scaled(DigitsValue(a), Power(n));
      if n == 0 {
        assert b[..0] == "";
      }
    }
  }

  lemma Scaled(v: nat, p: nat)
    ensures 10 * (v * p) == v * (10 * p)
  {
  }

  /** A printed number has no leading zero, but for zero itself. */
  lemma {:induction false} NoLeadingZero(n: nat)
    ensures if n == 0 then Itoa(n) == "0" else Itoa(n)[0] != '0'
    decreases n
  {
    if n >= 10 {
      NoLeadingZero(n / 10);
    }
  }

  /** What a number reads as, with and without a sign, on a 64-bit machine. */
  lemma SignedDigits(digits: string)
    requires digits != "" && AllDigits(digits)
    ensures var v: int := DigitsValue(digits);
            && Atoi(digits) == Atoi("+" + digits) == (if v <= 9223372036854775807 then Some(v) else None)
            && Atoi("-" + digits) == (if v <= 9223372036854775808 then Some(-v) else None)
  {
    assert ("+" + digits)[1..] == digits && ("-" + digits)[1..] == digits;
    assert IsDigit(digits[0]);
  }

  /** And nothing else is a number. */
  lemma OnlyNumbersRead(s: string)
    requires Atoi(s).Some?
    ensures var body := if s != "" && (s[0] == '-' || s[0] == '+') then s[1..] else s;
            body != "" && forall i :: 0 <= i < |body| ==> '0' <= body[i] <= '9'
  {
  }
}
