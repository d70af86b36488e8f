/** Runs of creates whose replies reuse an id: what a caller cannot rely on then. */
module ReusedIds {
  import opened GoStrings
  import opened Locations
  import opened Dap
  import opened Registry
  import opened Mirror
  import Listing

  function At(file: string, condition: string): Spec {
    Spec(FormatFileLine(file, 1), condition)
  }

  /** A reply that verifies `n` breakpoints, all under id 1, in a file the server does not name. */
  function AllOne(n: nat): (outcome: Outcome)
    ensures forall specs: seq<Spec> :: |specs| == n ==> Succeeds(outcome, specs)
  {
    Replied(BreakpointsBody(seq(n, _ => Wire(1, true, 1, "", ""))))
  }

  function Item(spec: Spec): Tracked {
    Tracked(spec, MapBreakpoint(spec, Wire(1, true, 1, "", "")))
  }

  /** All items of a list are under id 1, and none is at this place and condition. */
  predicate AllUnderOne(items: seq<Tracked>, spec: Spec) {
    forall i :: 0 <= i < |items| ==> items[i] == Item(items[i].spec) && items[i].spec != spec
  }

  /** Creating a new spec at line 1 of a file, with every breakpoint of the reply under id 1. */
  lemma CreateOne(s: State, file: string, condition: string)
    requires IsAbs(file) && Valid(s) && AllUnderOne(s.Items(FileGroup(file)), At(file, condition))
    ensures var items := s.Items(FileGroup(file));
            var spec := At(file, condition);
            && PlanCreate(s, spec, None) == Send(FileGroup(file), TrackedSpecs(items) + [spec])
            && Step(s, Create(spec, None), AllOne(|items| + 1)) == s.Put(FileGroup(file), items + [Item(spec)])
  {
    hide Normalize, Canonical, FormatFileLine, Valid;
    var spec := At(file, condition);
    var items := s.Items(FileGroup(file));
    AtIsCanonical(file, condition);
    CanonicalIsFixed(spec, AtLine(file, 1));
    CreateSendsIffNew(s, spec, None);
    var specs := TrackedSpecs(items) + [spec];
    var wires := seq(|specs|, _ => Wire(1, true, 1, "", ""));
    assert MapTracked(specs, wires) == items + [Item(spec)];
  }

  lemma AtIsCanonical(file: string, condition: string)
    requires IsAbs(file)
    ensures Canonical(At(file, condition), AtLine(file, 1))
  {
  }

  /** The registry after one such create from the start. */
  function InOneFile(): State {
    State(map["/a" := [Item(At("/a", ""))]], [])
  }

  lemma FirstCreate()
    ensures Step(EMPTY, Create(At("/a", ""), None), AllOne(1)) == InOneFile() && Valid(InOneFile())
  {
    hide Valid, FormatFileLine, Step;
    EmptyIsValid();
    CreateOne(EMPTY, "/a", "");
    StepIsValid(EMPTY, Create(At("/a", ""), None), AllOne(1));
    assert [] + [Item(At("/a", ""))] == [Item(At("/a", ""))];
  }

  lemma EmptyIsValid()
    ensures Valid(EMPTY)
  {
  }

  /** Two creates in different files, with one id for both: the create of the second returns id 1, and a clear
      of id 1 may find the first file first; its success removes the first breakpoint instead. */
  lemma ReusedIdClearsAnother()
    ensures var a, b := At("/a", ""), At("/b", "");
            var s := Step(EMPTY, Create(a, None), AllOne(1));
            var t := Step(s, Create(b, None), AllOne(1));
            && PlanCreate(s, b, None) == Send(FileGroup("/b"), [b]) && LastReply([b], AllOne(1)).id == 1
            && LegalPick(t, 1, Some("/a")) && PlanClear(t, 1, Some("/a")) == Send(FileGroup("/a"), [])
            && !SameSpecs(Step(t, Clear(1, Some("/a")), AllOne(0)), s)
  {
    hide Valid, FormatFileLine, PlanCreate;
    var a, b := At("/a", ""), At("/b", "");
    FirstCreate();
    CreateOne(InOneFile(), "/b", "");
    var s := InOneFile();
    assert s.Items(FileGroup("/b")) == [];
    assert [] + [b] == [b] && [] + [Item(b)] == [Item(b)];
    assert TrackedSpecs([]) == [];
    var t := s.Put(FileGroup("/b"), [Item(b)]);
    assert t.files["/a"] == [Item(a)];
    assert IndexById([Item(a)], 1) == 0;
    assert RemoveAt([Item(a)], 0) == [];
    var u := After(t, FileGroup("/a"), [], AllOne(0));
    assert "/a" !in u.files;
  }

  /** Two creates at one place with different conditions, with one id for both: two listings are possible. */
  lemma ReusedIdLeavesTwoListings() returns (x: seq<Breakpoint>, y: seq<Breakpoint>)
    ensures var s := Step(EMPTY, Create(At("/a", ""), None), AllOne(1));
            var t := Step(s, Create(At("/a", "n > 1"), None), AllOne(2));
            Listing.IsListing(t, x) && Listing.IsListing(t, y) && x != y
  {
    hide Valid, FormatFileLine, PlanCreate, Step, Listing.IsListing;
    var a, b := At("/a", ""), At("/a", "n > 1");
    FirstCreate();
    CreateOne(InOneFile(), "/a", "n > 1");
    var t := InOneFile().Put(FileGroup("/a"), [Item(a), Item(b)]);
    assert [Item(a)] + [Item(b)] == [Item(a), Item(b)];
    var items := t.Items(FileGroup("/a"));
    assert items[0].breakpoint == Item(a).breakpoint && items[1].breakpoint == Item(b).breakpoint;
    assert Listing.Holds(items, Item(a).breakpoint) && Listing.Holds(items, Item(b).breakpoint);
    assert Listing.Tracks(t, Item(a).breakpoint) && Listing.Tracks(t, Item(b).breakpoint);
    assert Listing.SameKey(Item(a).breakpoint, Item(b).breakpoint) && Item(a).breakpoint != Item(b).breakpoint;
    x, y := Listing.EqualKeysLeaveAChoice(t);
  }
}
