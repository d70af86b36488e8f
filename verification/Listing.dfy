/** Listing all breakpoints: map order and sort stability do not show,
    exactly when tracked breakpoints with equal sort keys are equal. */
module Listing {
  import opened Registry

  // ---------- the order of the listing ----------

  /** Go's < on strings. */
  predicate StringLess(a: string, b: string) {
    b != "" && (a == "" || a[0] < b[0] || (a[0] == b[0] && StringLess(a[1..], b[1..])))
  }

  predicate Less(l: Breakpoint, r: Breakpoint) {
    if l.file != r.file then StringLess(l.file, r.file)
    else if l.line != r.line then l.line < r.line
    else if l.functionName != r.functionName then StringLess(l.functionName, r.functionName)
    else l.id < r.id
  }

  predicate SameKey(l: Breakpoint, r: Breakpoint) {
    l.file == r.file && l.line == r.line && l.functionName == r.functionName && l.id == r.id
  }

  ghost predicate Sorted(s: seq<Breakpoint>) {
    forall i, j :: 0 <= i < j < |s| ==> !Less(s[j], s[i])
  }

  lemma {:induction false} StringOrder(a: string, b: string)
    ensures a == b || StringLess(a, b) || StringLess(b, a)
    ensures !(StringLess(a, b) && StringLess(b, a))
    ensures StringLess(a, b) ==> a != b
  {
    if a != "" && b != "" {
      StringOrder(a[1..], b[1..]);
      if a[1..] == b[1..] && a[0] == b[0] {
        assert a == [a[0]] + a[1..] == b;
      }
    }
  }

  lemma {:induction false} StringTransitive(a: string, b: string, c: string)
    requires StringLess(a, b) && StringLess(b, c)
    ensures StringLess(a, c)
  {
    if a != "" && a[0] == b[0] == c[0] {
      StringTransitive(a[1..], b[1..], c[1..]);
    }
  }

  lemma LessIsTotal(l: Breakpoint, r: Breakpoint)
    ensures SameKey(l, r) || Less(l, r) || Less(r, l)
    ensures !(Less(l, r) && Less(r, l))
  {
    StringOrder(l.file, r.file);
    StringOrder(l.functionName, r.functionName);
  }

  lemma NotLessIsTransitive(a: Breakpoint, b: Breakpoint, c: Breakpoint)
    requires !Less(b, a) && !Less(c, b)
    ensures !Less(c, a)
  {
    StringOrder(a.file, b.file);
    StringOrder(b.file, c.file);
    StringOrder(a.file, c.file);
    StringOrder(a.functionName, b.functionName);
    StringOrder(b.functionName, c.functionName);
    StringOrder(a.functionName, c.functionName);
    if StringLess(a.file, b.file) && StringLess(b.file, c.file) {
      StringTransitive(a.file, b.file, c.file);
    }
    if StringLess(a.functionName, b.functionName) && StringLess(b.functionName, c.functionName) {
      StringTransitive(a.functionName, b.functionName, c.functionName);
    }
  }

  // ---------- all breakpoints, in some map order ----------

  function Breakpoints(items: seq<Tracked>): (bps: seq<Breakpoint>)
    ensures |bps| == |items|
    ensures forall i :: 0 <= i < |items| ==> bps[i] == items[i].breakpoint
  {
    seq(|items|, i requires 0 <= i < |items| => items[i].breakpoint)
  }

  ghost predicate Enumerates(order: seq<string>, keys: set<string>) {
    && (forall i, j :: 0 <= i < j < |order| ==> order[i] != order[j])
    && (forall k :: k in order <==> k in keys)
  }

  function InFile(files: map<string, seq<Tracked>>, file: string): seq<Breakpoint> {
    if file in files then Breakpoints(files[file]) else []
  }

  function Collected(files: map<string, seq<Tracked>>, order: seq<string>): seq<Breakpoint> {
    if order == [] then [] else Collected(files, order[..|order| - 1]) + InFile(files, order[|order| - 1])
  }

  /** How often a breakpoint is collected. */
  function Times(files: map<string, seq<Tracked>>, order: seq<string>, x: Breakpoint): nat {
    if order == [] then 0 else Times(files, order[..|order| - 1], x) + TimesIn(files, order[|order| - 1], x)
  }

  function TimesIn(files: map<string, seq<Tracked>>, file: string, x: Breakpoint): nat {
    multiset(InFile(files, file))[x]
  }

  lemma {:induction false} CollectedTimes(files: map<string, seq<Tracked>>, order: seq<string>, x: Breakpoint)
    ensures multiset(Collected(files, order))[x] == Times(files, order, x)
  {
    if order != [] {
      CollectedTimes(files, order[..|order| - 1], x);
    }
  }

  lemma {:induction false} TimesSplit(files: map<string, seq<Tracked>>, a: seq<string>, b: seq<string>, x: Breakpoint)
    ensures Times(files, a + b, x) == Times(files, a, x) + Times(files, b, x)
  {
    if b == [] {
      assert a + b == a;
    } else {
      TimesSplit(files, a, b[..|b| - 1], x);
      assert (a + b)[..|a + b| - 1] == a + b[..|b| - 1];
    }
  }

  lemma TimesMiddle(files: map<string, seq<Tracked>>, a: seq<string>, file: string, b: seq<string>, x: Breakpoint)
    ensures Times(files, a + [file] + b, x) == Times(files, a + b, x) + TimesIn(files, file, x)
  {
    TimesSplit(files, a, b, x);
    TimesSplit(files, a + [file], b, x);
    assert (a + [file])[..|a|] == a;
  }

  /** Which breakpoints are collected does not depend on the map's iteration order. */
  lemma {:induction false} OrderDoesNotMatter(files: map<string, seq<Tracked>>, order: seq<string>,
                                              other: seq<string>, keys: set<string>, x: Breakpoint)
    requires Enumerates(order, keys) && Enumerates(other, keys)
    ensures Times(files, order, x) == Times(files, other, x)
    decreases |order|
  {
    EnumeratesSize(order, keys);
    EnumeratesSize(other, keys);
    if keys != {} {
      var key :| key in keys;
      var a, b := TakeOut(order, keys, key);
      var c, d := TakeOut(other, keys, key);
      TimesMiddle(files, a, key, b, x);
      TimesMiddle(files, c, key, d, x);
      OrderDoesNotMatter(files, a + b, c + d, keys - {key}, x);
    }
  }

  lemma TakeOut(order: seq<string>, keys: set<string>, key: string) returns (a: seq<string>, b: seq<string>)
    requires Enumerates(order, keys) && key in keys
    ensures order == a + [key] + b
    ensures Enumerates(a + b, keys - {key})
  {
    assert key in order;
    var p :| 0 <= p < |order| && order[p] == key;
    a, b := order[..p], order[p + 1..];
    var rest := a + b;
    assert forall i :: 0 <= i < |rest| ==> rest[i] == order[if i < p then i else i + 1];
    forall k
      ensures k in rest <==> k in keys - {key}
    {
      if k in keys && k != key {
        assert k in order;
        var i :| 0 <= i < |order| && order[i] == k;
        assert rest[if i < p then i else i - 1] == k;
      }
    }
  }

  lemma {:induction false} EnumeratesSize(order: seq<string>, keys: set<string>)
    requires Enumerates(order, keys)
    ensures |order| == |keys|
    decreases |order|
  {
    if order == [] {
      assert keys == {};
    } else {
      assert order[0] in keys;
      var a, b := TakeOut(order, keys, order[0]);
      EnumeratesSize(a + b, keys - {order[0]});
    }
  }

  /** A possible result of flattenTrackedBreakpoints: some map order, then some correct sort. */
  ghost predicate IsListing(s: State, out: seq<Breakpoint>) {
    && Sorted(out)
    && exists order :: Enumerates(order, s.files.Keys) && multiset(out) == AllBreakpoints(s, order)
  }

  ghost function AllBreakpoints(s: State, order: seq<string>): multiset<Breakpoint>
    requires Enumerates(order, s.files.Keys)
  {
    multiset(Collected(s.files, order)) + multiset(Breakpoints(s.functions))
  }

  // ---------- determinism ----------

  ghost predicate KeysTell(out: seq<Breakpoint>) {
    forall i, j :: 0 <= i < |out| && 0 <= j < |out| && SameKey(out[i], out[j]) ==> out[i] == out[j]
  }

  lemma FirstAgrees(a: seq<Breakpoint>, b: seq<Breakpoint>)
    requires multiset(a) == multiset(b) && Sorted(a) && Sorted(b) && KeysTell(a) && a != []
    ensures b != [] && a[0] == b[0]
  {
    assert a[0] in multiset(b);
    assert b[0] in multiset(a);
    var i :| 0 <= i < |b| && b[i] == a[0];
    var j :| 0 <= j < |a| && a[j] == b[0];
    LessIsTotal(a[0], b[0]);
    LessIsTotal(a[0], a[0]);
    assert !Less(a[j], a[0]) && !Less(b[i], b[0]);
  }

  lemma TailBag(a: seq<Breakpoint>)
    requires a != []
    ensures multiset(a[1..]) == multiset(a) - multiset{a[0]}
  {
    assert a == [a[0]] + a[1..];
  }

  lemma {:induction false} SortedIsUnique(a: seq<Breakpoint>, b: seq<Breakpoint>)
    requires multiset(a) == multiset(b) && Sorted(a) && Sorted(b) && KeysTell(a)
    ensures a == b
  {
    if a == [] {
      assert |b| == |multiset(b)| == |multiset(a)| == 0;
    } else {
      FirstAgrees(a, b);
      TailBag(a);
      TailBag(b);
      SortedIsUnique(a[1..], b[1..]);
      assert a == [a[0]] + a[1..] && b == [b[0]] + b[1..];
    }
  }

  lemma {:induction false} SameBag(files: map<string, seq<Tracked>>, x: seq<string>, y: seq<string>)
    requires Enumerates(x, files.Keys) && Enumerates(y, files.Keys)
    ensures multiset(Collected(files, x)) == multiset(Collected(files, y))
  {
    forall bp
      ensures multiset(Collected(files, x))[bp] == multiset(Collected(files, y))[bp]
    {
      OrderDoesNotMatter(files, x, y, files.Keys, bp);
      CollectedTimes(files, x, bp);
      CollectedTimes(files, y, bp);
    }
  }

  predicate Holds(items: seq<Tracked>, bp: Breakpoint) {
    exists i :: 0 <= i < |items| && items[i].breakpoint == bp
  }

  /** A breakpoint the registry tracks, in some group. */
  ghost predicate Tracks(s: State, bp: Breakpoint) {
    exists g :: Holds(s.Items(g), bp)
  }

  /** Tracked breakpoints with equal sort keys are equal. */
  ghost predicate KeysTellIn(s: State) {
    forall a, b :: Tracks(s, a) && Tracks(s, b) && SameKey(a, b) ==> a == b
  }

  lemma {:induction false} CollectedFrom(files: map<string, seq<Tracked>>, order: seq<string>, bp: Breakpoint)
    ensures bp in Collected(files, order) <==> exists file :: file in order && bp in InFile(files, file)
    decreases |order|
  {
    if order != [] {
      var n := |order| - 1;
      CollectedFrom(files, order[..n], bp);
      assert order == order[..n] + [order[n]];
    }
  }

  lemma HeldFrom(s: State, order: seq<string>, a: seq<Breakpoint>, bp: Breakpoint)
    requires Enumerates(order, s.files.Keys) && multiset(a) == AllBreakpoints(s, order)
    ensures bp in a <==> bp in Collected(s.files, order) || bp in Breakpoints(s.functions)
  {
    hide Collected, Breakpoints;
    assert bp in a <==> bp in multiset(a);
  }

  lemma TrackedInItems(items: seq<Tracked>, bp: Breakpoint)
    ensures bp in Breakpoints(items) <==> Holds(items, bp)
  {
    if i :| 0 <= i < |items| && items[i].breakpoint == bp {
      assert Breakpoints(items)[i] == bp;
    }
  }

  lemma TrackedInFile(s: State, file: string, bp: Breakpoint)
    ensures bp in InFile(s.files, file) <==> Holds(s.Items(FileGroup(file)), bp)
  {
    if file in s.files {
      TrackedInItems(s.files[file], bp);
    }
  }

  /** A listing holds exactly the tracked breakpoints. */
  lemma ListedIsTracked(s: State, a: seq<Breakpoint>, bp: Breakpoint)
    requires IsListing(s, a)
    ensures bp in a <==> Tracks(s, bp)
  {
    hide Collected, Breakpoints, AllBreakpoints, InFile, Sorted;
    var order :| Enumerates(order, s.files.Keys) && multiset(a) == AllBreakpoints(s, order);
    HeldFrom(s, order, a, bp);
    CollectedFrom(s.files, order, bp);
    TrackedInItems(s.functions, bp);
    assert s.Items(FunctionGroup) == s.functions;
    if file :| file in order && bp in InFile(s.files, file) {
      TrackedInFile(s, file, bp);
    }
    if Tracks(s, bp) {
      var g :| Holds(s.Items(g), bp);
      if g.FileGroup? {
        TrackedInFile(s, g.path, bp);
        assert g.path in s.files;
      }
    }
  }

  lemma KeysTellEverywhere(s: State, a: seq<Breakpoint>)
    requires IsListing(s, a)
    ensures KeysTell(a) <==> KeysTellIn(s)
  {
    if KeysTell(a) {
      forall x, y | Tracks(s, x) && Tracks(s, y) && SameKey(x, y)
        ensures x == y
      {
        ListedIsTracked(s, a, x);
        ListedIsTracked(s, a, y);
      }
    }
    if KeysTellIn(s) {
      forall i, j | 0 <= i < |a| && 0 <= j < |a| && SameKey(a[i], a[j])
        ensures a[i] == a[j]
      {
        ListedIsTracked(s, a, a[i]);
        ListedIsTracked(s, a, a[j]);
      }
    }
  }

  /** Any two runs of the listing agree when tracked breakpoints with equal keys are equal. */
  lemma ListingIsDeterministic(s: State, a: seq<Breakpoint>, b: seq<Breakpoint>)
    requires IsListing(s, a) && IsListing(s, b) && KeysTellIn(s)
    ensures a == b
  {
    KeysTellEverywhere(s, a);
    var x :| Enumerates(x, s.files.Keys) && multiset(a) == AllBreakpoints(s, x);
    var y :| Enumerates(y, s.files.Keys) && multiset(b) == AllBreakpoints(s, y);
    SameBag(s.files, x, y);
    SortedIsUnique(a, b);
  }

  lemma SwappedIsSorted(s: seq<Breakpoint>, i: nat, j: nat)
    requires Sorted(s) && i < j < |s| && SameKey(s[i], s[j])
    ensures Sorted(s[i := s[j]][j := s[i]])
  {
    var t := s[i := s[j]][j := s[i]];
    forall k | 0 <= k < |s|
      ensures SameKey(s[k], t[k])
    {
    }
    forall p, q | 0 <= p < q < |t|
      ensures !Less(t[q], t[p])
    {
      assert !Less(s[q], s[p]);
    }
  }

  lemma SwappedIsAListing(s: State, a: seq<Breakpoint>, i: nat, j: nat)
    requires IsListing(s, a) && i < j < |a| && SameKey(a[i], a[j])
    ensures IsListing(s, a[i := a[j]][j := a[i]])
  {
    hide AllBreakpoints, Sorted, Enumerates;
    SwappedIsSorted(a, i, j);
    assert multiset(a[i := a[j]][j := a[i]]) == multiset(a);
  }

  /** Otherwise two different listings are possible. */
  lemma EqualKeysLeaveAChoice(s: State) returns (a: seq<Breakpoint>, b: seq<Breakpoint>)
    requires !KeysTellIn(s)
    ensures IsListing(s, a) && IsListing(s, b) && a != b
  {
    hide IsListing, KeysTellIn;
    a := SomeListing(s);
    KeysTellEverywhere(s, a);
    var i, j :| 0 <= i < j < |a| && SameKey(a[i], a[j]) && a[i] != a[j];
    b := a[i := a[j]][j := a[i]];
    SwappedIsAListing(s, a, i, j);
    assert b[i] == a[j];
  }

  /** The listing of a registry is determined exactly when tracked breakpoints with equal keys are equal. */
  lemma ListingIsDeterminedExactlyWhen(s: State)
    ensures (forall a, b :: IsListing(s, a) && IsListing(s, b) ==> a == b) <==> KeysTellIn(s)
  {
    if KeysTellIn(s) {
      forall a, b | IsListing(s, a) && IsListing(s, b)
        ensures a == b
      {
        ListingIsDeterministic(s, a, b);
      }
    } else {
      var a, b := EqualKeysLeaveAChoice(s);
    }
  }

  lemma {:induction false} SomeOrder(keys: set<string>) returns (order: seq<string>)
    ensures Enumerates(order, keys)
    decreases |keys|
  {
    if keys == {} {
      order := [];
    } else {
      var k :| k in keys;
      var others := SomeOrder(keys - {k});
      order := others + [k];
    }
  }

  lemma {:induction false} SomeSort(input: seq<Breakpoint>) returns (out: seq<Breakpoint>)
    ensures Sorted(out) && multiset(out) == multiset(input)
    decreases |input|
  {
    if input == [] {
      out := [];
    } else {
      var n := |input| - 1;
      var sorted := SomeSort(input[..n]);
      var i := PlaceFor(sorted, input[n]);
      InsertKeepsSorted(sorted, i, input[n]);
      out := sorted[..i] + [input[n]] + sorted[i..];
      assert sorted == sorted[..i] + sorted[i..];
      assert input == input[..n] + [input[n]];
    }
  }

  lemma {:induction false} PlaceFor(s: seq<Breakpoint>, x: Breakpoint) returns (i: nat)
    ensures i <= |s| && (i < |s| ==> Less(x, s[i]))
    ensures forall k :: 0 <= k < i ==> !Less(x, s[k])
    decreases |s|
  {
    if s == [] || Less(x, s[0]) {
      i := 0;
    } else {
      var j := PlaceFor(s[1..], x);
      i := j + 1;
      assert forall k :: 0 < k < i ==> s[k] == s[1..][k - 1];
    }
  }

  /** Every registry has a listing. */
  lemma SomeListing(s: State) returns (a: seq<Breakpoint>)
    ensures IsListing(s, a)
  {
    var order := SomeOrder(s.files.Keys);
    a := SomeSort(Collected(s.files, order) + Breakpoints(s.functions));
    assert multiset(a) == AllBreakpoints(s, order);
  }

  // ---------- the code ----------

  /** sort.Slice, as far as the caller may rely on it: a sorted permutation. */
  method SortBreakpoints(input: seq<Breakpoint>) returns (out: seq<Breakpoint>)
    ensures Sorted(out) && multiset(out) == multiset(input)
  {
    out := [];
    for n := 0 to |input|
      invariant Sorted(out) && multiset(out) == multiset(input[..n])
    {
      assert input[..n + 1] == input[..n] + [input[n]];
      out := Insert(out, input[n]);
    }
    assert input[..|input|] == input;
  }

  method Insert(sorted: seq<Breakpoint>, x: Breakpoint) returns (out: seq<Breakpoint>)
    requires Sorted(sorted)
    ensures Sorted(out) && multiset(out) == multiset(sorted) + multiset{x}
  {
    var i := 0;
    while i < |sorted| && !Less(x, sorted[i])
      invariant 0 <= i <= |sorted|
      invariant forall k :: 0 <= k < i ==> !Less(x, sorted[k])
    {
      i := i + 1;
    }
    InsertKeepsSorted(sorted, i, x);
    assert sorted == sorted[..i] + sorted[i..];
    out := sorted[..i] + [x] + sorted[i..];
  }

  lemma InsertKeepsSorted(s: seq<Breakpoint>, i: nat, x: Breakpoint)
    requires Sorted(s) && i <= |s|
    requires forall k :: 0 <= k < i ==> !Less(x, s[k])
    requires i < |s| ==> Less(x, s[i])
    ensures Sorted(s[..i] + [x] + s[i..])
  {
    var t := s[..i] + [x] + s[i..];
    forall p, q | 0 <= p < q < |t|
      ensures !Less(t[q], t[p])
    {
      if p == i {
        LessIsTotal(x, s[i]);
        if i < q - 1 {
          NotLessIsTransitive(x, s[i], s[q - 1]);
        }
      }
    }
  }

  method AppendBreakpoints(out: seq<Breakpoint>, items: seq<Tracked>) returns (longer: seq<Breakpoint>)
    ensures longer == out + Breakpoints(items)
  {
    longer := out;
    for i := 0 to |items|
      invariant longer == out + Breakpoints(items)[..i]
    {
      longer := longer + [items[i].breakpoint];
    }
  }

  method FlattenTrackedBreakpoints(s: State) returns (out: seq<Breakpoint>)
    ensures IsListing(s, out)
  {
    out := [];
    ghost var order: seq<string> := [];
    var todo := s.files.Keys;
    while todo != {}
      invariant todo <= s.files.Keys
      invariant Enumerates(order, s.files.Keys - todo)
      invariant out == Collected(s.files, order)
      decreases |todo|
    {
      var file :| file in todo;
      out := AppendBreakpoints(out, s.files[file]);
      assert (order + [file])[..|order|] == order;
      order := order + [file];
      todo := todo - {file};
    }
    out := AppendBreakpoints(out, s.functions);
    out := SortBreakpoints(out);
    assert s.files.Keys - {} == s.files.Keys;
    assert multiset(out) == AllBreakpoints(s, order);
  }

  // ---------- in plain terms ----------

  /** Earlier in the dictionary, byte by byte: at the first difference the smaller byte, or the shorter text. */
  ghost predicate Earlier(a: string, b: string) {
    exists n :: 0 <= n <= |a| && n < |b| && a[..n] == b[..n] && (n == |a| || a[n] < b[n])
  }

  lemma {:induction false} LessIsEarlier(a: string, b: string)
    requires StringLess(a, b)
    ensures Earlier(a, b)
  {
    if a == "" || a[0] < b[0] {
      assert a[..0] == b[..0];
    } else {
      LessIsEarlier(a[1..], b[1..]);
      var n :| 0 <= n <= |a[1..]| && n < |b[1..]| && a[1..][..n] == b[1..][..n]
               && (n == |a[1..]| || a[1..][n] < b[1..][n]);
      assert a[..n + 1] == [a[0]] + a[1..][..n] && b[..n + 1] == [b[0]] + b[1..][..n];
    }
  }

  /** A listing goes by file, then by line, then by function, then by id. */
  lemma ListingOrder(s: State, out: seq<Breakpoint>, i: nat, j: nat)
    requires IsListing(s, out) && i < j < |out|
    ensures var l, r := out[i], out[j];
            if l.file != r.file then Earlier(l.file, r.file)
            else if l.line != r.line then l.line < r.line
            else if l.functionName != r.functionName then Earlier(l.functionName, r.functionName)
            else l.id <= r.id
  {
    var l, r := out[i], out[j];
    LessIsTotal(l, r);
    StringOrder(l.file, r.file);
    StringOrder(l.functionName, r.functionName);
    assert !Less(r, l);
    if StringLess(l.file, r.file) {
      LessIsEarlier(l.file, r.file);
    }
    if StringLess(l.functionName, r.functionName) {
      LessIsEarlier(l.functionName, r.functionName);
    }
  }
}
