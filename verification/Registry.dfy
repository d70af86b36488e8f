/** The breakpoint registry: an ordered mirror of the lists a DAP server holds.
    A set request replaces a whole group (one source file, or all function breakpoints),
    so the client resends the complete list and pairs reply i with spec i. */
module Registry {
  import opened GoStrings
  import opened Locations
  import opened Dap

  datatype Breakpoint = Breakpoint(id: int, file: string, line: int, functionName: string, condition: string,
                                   enabled: bool)

  datatype Tracked = Tracked(spec: Spec, breakpoint: Breakpoint)

  datatype Group = FileGroup(path: string) | FunctionGroup

  /** One element of the list a set request carries. */
  datatype Entry = SourceEntry(line: int, condition: string) | FunctionEntry(name: string, condition: string)

  datatype Error =
    | BadSpec(reason: NormalizeError)
    | UnknownId(id: int)
    | RequestError
    | UndecodableReply
    | WrongCount(want: nat, got: nat)
    | NotVerified(message: string)

  datatype State = State(files: map<string, seq<Tracked>>, functions: seq<Tracked>) {
    /** The tracked items of a group; an absent file has none. */
    function Items(g: Group): seq<Tracked> {
      match g
      case FileGroup(path) => if path in files then files[path] else []
      case FunctionGroup => functions
    }

    /** Replaces a group; a file whose last breakpoint goes loses its key. */
    function Put(g: Group, items: seq<Tracked>): State {
      match g
      case FileGroup(path) => this.(files := if items == [] then files - {path} else files[path := items])
      case FunctionGroup => this.(functions := items)
    }
  }

  const EMPTY := State(map[], [])

  function GroupOf(place: Located): Group {
    if place.AtLine? then FileGroup(place.file) else FunctionGroup
  }

  // ---------- list builders ----------

  function TrackedSpecs(items: seq<Tracked>): (specs: seq<Spec>)
    ensures |specs| == |items|
    ensures forall i :: 0 <= i < |items| ==> specs[i] == items[i].spec
  {
    seq(|items|, i requires 0 <= i < |items| => items[i].spec)
  }

  /** trackedBreakpointFromSpec: the first item with this spec. */
  function FindSpec(items: seq<Tracked>, spec: Spec): Option<Breakpoint> {
    if items == [] then None
    else if items[0].spec == spec then Some(items[0].breakpoint)
    else FindSpec(items[1..], spec)
  }

  /** trackedBreakpointIndexByID: the position of the first item with this id, or |items|. */
  function IndexById(items: seq<Tracked>, id: int): (i: nat)
    ensures i <= |items|
    ensures i < |items| ==> items[i].breakpoint.id == id
  {
    if items == [] || items[0].breakpoint.id == id then 0 else 1 + IndexById(items[1..], id)
  }

  function MapBreakpoint(spec: Spec, wire: Wire): Breakpoint {
    Breakpoint(wire.id, wire.path, wire.line, if ':' in spec.location then "" else spec.location,
               spec.condition, wire.verified)
  }

  function MapTracked(specs: seq<Spec>, wires: seq<Wire>): (items: seq<Tracked>)
    requires |specs| == |wires|
    ensures |items| == |specs|
    ensures forall i :: 0 <= i < |specs| ==> items[i] == Tracked(specs[i], MapBreakpoint(specs[i], wires[i]))
  {
    seq(|specs|, i requires 0 <= i < |specs| => Tracked(specs[i], MapBreakpoint(specs[i], wires[i])))
  }

  /** The entry one spec turns into; a file group has none for a spec that does not parse as file:line. */
  function BuildEntry(g: Group, spec: Spec): Option<Entry> {
    if g.FunctionGroup? then Some(FunctionEntry(spec.location, spec.condition))
    else
      match ParseFileLine(spec.location)
      case ByName => None
      case AtLine(_, line) => Some(SourceEntry(line, spec.condition))
  }

  function Present<T>(options: seq<Option<T>>): seq<T> {
    if options == [] then []
    else
      var init, last := Present(options[..|options| - 1]), options[|options| - 1];
      if last.Some? then init + [last.value] else init
  }

  function Builder(g: Group): Spec -> Option<Entry> {
    spec => BuildEntry(g, spec)
  }

  function MapSpecs(build: Spec -> Option<Entry>, specs: seq<Spec>): (options: seq<Option<Entry>>)
    ensures |options| == |specs|
    ensures forall i :: 0 <= i < |specs| ==> options[i] == build(specs[i])
  {
    seq(|specs|, i requires 0 <= i < |specs| => build(specs[i]))
  }

  /** The list a request for one group carries. */
  function BuildEntries(g: Group, specs: seq<Spec>): seq<Entry> {
    Present(MapSpecs(Builder(g), specs))
  }

  predicate AllVerified(wires: seq<Wire>) {
    forall i :: 0 <= i < |wires| ==> wires[i].verified
  }

  /** decodeBreakpoints: the reply must decode, have one entry per spec, and verify them all. */
  function DecodeReply(body: Body, want: nat): Result<seq<Wire>, Error> {
    match body
    case NoBody | Undecodable => Err(UndecodableReply)
    case BreakpointsBody(wires) => CheckReply(wires, want)
    case _ => CheckReply([], want) // a body without a breakpoint list decodes as an empty one
  }

  function CheckReply(wires: seq<Wire>, want: nat): (r: Result<seq<Wire>, Error>)
    ensures r.Ok? <==> |wires| == want && AllVerified(wires)
    ensures r.Ok? ==> r.value == wires
  {
    if |wires| != want then Err(WrongCount(want, |wires|)) else FirstUnverified(wires)
  }

  function FirstUnverified(wires: seq<Wire>): (r: Result<seq<Wire>, Error>)
    ensures r.Ok? <==> AllVerified(wires)
    ensures r.Ok? ==> r.value == wires
  {
    if AllVerified(wires) then Ok(wires)
    else
      var i := UnverifiedAt(wires);
      Err(NotVerified(wires[i].message))
  }

  function UnverifiedAt(wires: seq<Wire>): (i: nat)
    requires !AllVerified(wires)
    ensures i < |wires| && !wires[i].verified
    ensures AllVerified(wires[..i])
  {
    if !wires[0].verified then 0
    else
      var i := UnverifiedAt(wires[1..]);
      assert wires[..1 + i] == [wires[0]] + wires[1..][..i];
      1 + i
  }

  // ---------- one operation: what to send, and what to make of the answer ----------

  datatype Plan<+T> = Fail(error: Error) | Done(result: T) | Send(group: Group, specs: seq<Spec>)

  datatype Op = Create(spec: Spec, workingDir: Option<string>) | Clear(id: int, pick: Option<string>)

  /** CreateBreakpoint up to its request. */
  function PlanCreate(s: State, spec: Spec, workingDir: Option<string>): Plan<Breakpoint> {
    match Normalize(spec, workingDir)
    case Invalid(e) => Fail(BadSpec(e))
    case Normalized(normal, place) =>
      var g := GroupOf(place);
      match FindSpec(s.Items(g), normal)
      case Some(existing) => Done(existing)
      case None => Send(g, TrackedSpecs(s.Items(g)) + [normal])
  }

  /** Does a group hold this id? */
  predicate HasId(items: seq<Tracked>, id: int) {
    IndexById(items, id) < |items|
  }

  function RemoveAt<T>(s: seq<T>, i: nat): seq<T>
    requires i < |s|
  {
    s[..i] + s[i + 1..]
  }

  /** The file groups are searched in map order, so any file that holds the id may be found first:
      `pick` is the one found, or None when no file holds it. */
  predicate LegalPick(s: State, id: int, pick: Option<string>) {
    match pick
    case Some(file) => file in s.files && HasId(s.files[file], id)
    case None => forall file :: file in s.files ==> !HasId(s.files[file], id)
  }

  /** ClearBreakpoint up to its request. */
  function PlanClear(s: State, id: int, pick: Option<string>): Plan<()> {
    var g := if pick.Some? then FileGroup(pick.value) else FunctionGroup;
    var i := IndexById(s.Items(g), id);
    if i == |s.Items(g)| then Fail(UnknownId(id))
    else Send(g, TrackedSpecs(RemoveAt(s.Items(g), i)))
  }

  /** What became of a request that was sent. */
  datatype Outcome =
    | Unsent                     // the request never reached the server
    | Failed(applied: bool)      // refused, or the reply was lost; the server may or may not have acted
    | Replied(body: Body)        // the server acted and its successful reply was read

  function Accepted(outcome: Outcome, want: nat): (r: Result<seq<Wire>, Error>)
    ensures r.Ok? ==> |r.value| == want && AllVerified(r.value)
  {
    if outcome.Replied? then DecodeReply(outcome.body, want) else Err(RequestError)
  }

  /** The registry after a request for `specs` in group `g` ended in `outcome`. */
  function After(s: State, g: Group, specs: seq<Spec>, outcome: Outcome): State {
    match Accepted(outcome, |specs|)
    case Err(_) => s
    case Ok(wires) => s.Put(g, MapTracked(specs, wires))
  }

  function Step(s: State, op: Op, outcome: Outcome): State {
    match op
    case Create(spec, dir) =>
      var plan := PlanCreate(s, spec, dir);
      if plan.Send? then After(s, plan.group, plan.specs, outcome) else s
    case Clear(id, pick) =>
      var plan := PlanClear(s, id, pick);
      if plan.Send? then After(s, plan.group, plan.specs, outcome) else s
  }

  // ---------- the invariant ----------

  predicate NoDuplicates(items: seq<Tracked>) {
    forall i, j :: 0 <= i < j < |items| ==> items[i].spec != items[j].spec
  }

  predicate SpecFits(g: Group, spec: Spec) {
    match g
    case FileGroup(path) =>
      var place := ParseFileLine(spec.location);
      place.AtLine? && place.file == path && Canonical(spec, place)
    case FunctionGroup => Canonical(spec, ByName)
  }

  predicate GroupOk(g: Group, items: seq<Tracked>) {
    && NoDuplicates(items)
    && forall i :: 0 <= i < |items| ==> SpecFits(g, items[i].spec)
  }

  predicate Valid(s: State) {
    && (forall path :: path in s.files ==> s.files[path] != [] && GroupOk(FileGroup(path), s.files[path]))
    && GroupOk(FunctionGroup, s.functions)
  }

  lemma ValidGroup(s: State, g: Group)
    requires Valid(s)
    ensures GroupOk(g, s.Items(g))
  {
  }

  lemma {:induction false} FindSpecMeaning(items: seq<Tracked>, spec: Spec)
    ensures FindSpec(items, spec).None? <==> forall i :: 0 <= i < |items| ==> items[i].spec != spec
  {
    if items != [] && items[0].spec != spec {
      FindSpecMeaning(items[1..], spec);
      assert items == [items[0]] + items[1..];
    }
  }

  lemma {:induction false} FindSpecAt(items: seq<Tracked>, i: nat)
    requires i < |items| && NoDuplicates(items)
    ensures FindSpec(items, items[i].spec) == Some(items[i].breakpoint)
  {
    if i > 0 {
      FindSpecAt(items[1..], i - 1);
    }
  }

  /** A list ready to be sent: no repetition, and every spec belongs to the group. */
  predicate SpecsOk(g: Group, specs: seq<Spec>) {
    && (forall i, j :: 0 <= i < j < |specs| ==> specs[i] != specs[j])
    && forall i :: 0 <= i < |specs| ==> SpecFits(g, specs[i])
  }

  lemma NormalizedFits(spec: Spec, dir: Option<string>)
    requires Normalize(spec, dir).Normalized?
    ensures var r := Normalize(spec, dir); SpecFits(GroupOf(r.place), r.spec)
  {
    NormalizeIsCanonical(spec, dir);
    var r := Normalize(spec, dir);
    if r.place.AtLine? {
      ParseOfFormat(r.place.file, r.place.line);
    }
  }

  lemma PlanCreateOk(s: State, spec: Spec, dir: Option<string>)
    requires Valid(s) && PlanCreate(s, spec, dir).Send?
    ensures var plan := PlanCreate(s, spec, dir);
            SpecsOk(plan.group, plan.specs) && plan.specs != []
  {
    var r := Normalize(spec, dir);
    var g := GroupOf(r.place);
    NormalizedFits(spec, dir);
    ValidGroup(s, g);
    FindSpecMeaning(s.Items(g), r.spec);
    ExtensionOk(g, s.Items(g), r.spec);
  }

  lemma ExtensionOk(g: Group, items: seq<Tracked>, spec: Spec)
    requires GroupOk(g, items) && SpecFits(g, spec)
    requires forall i :: 0 <= i < |items| ==> items[i].spec != spec
    ensures SpecsOk(g, TrackedSpecs(items) + [spec])
  {
    ExtensionKeeps(x => SpecFits(g, x), items, spec);
  }

  lemma ExtensionKeeps(fits: Spec -> bool, items: seq<Tracked>, spec: Spec)
    requires NoDuplicates(items) && fits(spec)
    requires forall i :: 0 <= i < |items| ==> items[i].spec != spec && fits(items[i].spec)
    ensures var specs := TrackedSpecs(items) + [spec];
            && (forall j, k :: 0 <= j < k < |specs| ==> specs[j] != specs[k])
            && forall k :: 0 <= k < |specs| ==> fits(specs[k])
  {
    var specs := TrackedSpecs(items) + [spec];
    assert forall k :: 0 <= k < |specs| ==> specs[k] == if k < |items| then items[k].spec else spec;
  }

  lemma {:induction false} PlanClearOk(s: State, id: int, pick: Option<string>)
    requires Valid(s) && PlanClear(s, id, pick).Send?
    ensures var plan := PlanClear(s, id, pick); SpecsOk(plan.group, plan.specs)
  {
    var plan := PlanClear(s, id, pick);
    ValidGroup(s, plan.group);
    var items := s.Items(plan.group);
    RemovalOk(plan.group, items, IndexById(items, id));
  }

  lemma RemovalOk(g: Group, items: seq<Tracked>, i: nat)
    requires GroupOk(g, items) && i < |items|
    ensures SpecsOk(g, TrackedSpecs(RemoveAt(items, i)))
  {
    RemovalKeeps(spec => SpecFits(g, spec), items, i);
  }

  /** Whatever holds of every spec of a list, and their being different, holds without one of them. */
  lemma RemovalKeeps(fits: Spec -> bool, items: seq<Tracked>, i: nat)
    requires NoDuplicates(items) && i < |items|
    requires forall k :: 0 <= k < |items| ==> fits(items[k].spec)
    ensures var specs := TrackedSpecs(RemoveAt(items, i));
            && (forall j, k :: 0 <= j < k < |specs| ==> specs[j] != specs[k])
            && forall k :: 0 <= k < |specs| ==> fits(specs[k])
  {
    var specs := TrackedSpecs(RemoveAt(items, i));
    assert forall k :: 0 <= k < |specs| ==> specs[k] == items[if k < i then k else k + 1].spec;
  }

  lemma MappedOk(g: Group, specs: seq<Spec>, wires: seq<Wire>)
    requires SpecsOk(g, specs) && |specs| == |wires|
    ensures GroupOk(g, MapTracked(specs, wires))
  {
    hide SpecFits, MapTracked;
  }

  lemma PutIsValid(s: State, g: Group, items: seq<Tracked>)
    requires Valid(s) && GroupOk(g, items)
    ensures Valid(s.Put(g, items))
  {
    hide GroupOk;
  }

  lemma AfterIsValid(s: State, g: Group, specs: seq<Spec>, outcome: Outcome)
    requires Valid(s) && SpecsOk(g, specs)
    ensures Valid(After(s, g, specs, outcome))
  {
    hide Valid, Accepted, MapTracked, GroupOk, SpecsOk;
    var accepted := Accepted(outcome, |specs|);
    if accepted.Ok? {
      MappedOk(g, specs, accepted.value);
      PutIsValid(s, g, MapTracked(specs, accepted.value));
    }
  }

  /** No operation and no outcome breaks the registry invariant. */
  lemma StepIsValid(s: State, op: Op, outcome: Outcome)
    requires Valid(s)
    ensures Valid(Step(s, op, outcome))
  {
    match op
    case Create(spec, dir) =>
      var plan := PlanCreate(s, spec, dir);
      if plan.Send? {
        PlanCreateOk(s, spec, dir);
        AfterIsValid(s, plan.group, plan.specs, outcome);
      }
    case Clear(id, pick) =>
      var plan := PlanClear(s, id, pick);
      if plan.Send? {
        PlanClearOk(s, id, pick);
        AfterIsValid(s, plan.group, plan.specs, outcome);
      }
  }

  // ---------- what a sent list says ----------

  /** The breakpoint an entry of a group's list asks for, written as a spec again. */
  function SpecOf(g: Group, e: Entry): Spec {
    match e
    case SourceEntry(line, condition) =>
      Spec(FormatFileLine(if g.FileGroup? then g.path else "", if line >= 0 then line else 0), condition)
    case FunctionEntry(name, condition) => Spec(name, condition)
  }

  function SpecsOf(g: Group, entries: seq<Entry>): (specs: seq<Spec>)
    ensures |specs| == |entries|
    ensures forall i :: 0 <= i < |entries| ==> specs[i] == SpecOf(g, entries[i])
  {
    seq(|entries|, i requires 0 <= i < |entries| => SpecOf(g, entries[i]))
  }

  /** The entry a fitting spec turns into. */
  function EntryOf(g: Group, spec: Spec): (e: Entry)
    requires SpecFits(g, spec)
    ensures BuildEntry(g, spec) == Some(e)
    ensures SpecOf(g, e) == spec
  {
    BuildEntry(g, spec).value
  }

  lemma {:induction false} AllPresent<T>(options: seq<Option<T>>, values: seq<T>)
    requires |values| == |options|
    requires forall i :: 0 <= i < |options| ==> options[i] == Some(values[i])
    ensures Present(options) == values
  {
    var n := |options|;
    if n > 0 {
      AllPresent(options[..n - 1], values[..n - 1]);
      assert values == values[..n - 1] + [values[n - 1]];
    }
  }

  /** Nothing is skipped when a list of fitting specs is built: entry i stands for spec i. */
  lemma BuildSkipsNothing(g: Group, specs: seq<Spec>)
    requires forall i :: 0 <= i < |specs| ==> SpecFits(g, specs[i])
    ensures |BuildEntries(g, specs)| == |specs|
    ensures SpecsOf(g, BuildEntries(g, specs)) == specs
  {
    var entries := seq(|specs|, i requires 0 <= i < |specs| => EntryOf(g, specs[i]));
    AllPresent(MapSpecs(Builder(g), specs), entries);
  }

  // ---------- the list builders and searches as the code runs them ----------

  method CollectSpecs(items: seq<Tracked>) returns (specs: seq<Spec>)
    ensures specs == TrackedSpecs(items)
  {
    specs := [];
    for i := 0 to |items|
      invariant specs == TrackedSpecs(items)[..i]
    {
      specs := specs + [items[i].spec];
    }
  }

  /** buildSourceBreakpoints and buildFunctionBreakpoints */
  method CollectEntries(g: Group, specs: seq<Spec>) returns (entries: seq<Entry>)
    ensures entries == BuildEntries(g, specs)
  {
    entries := CollectPresent(Builder(g), specs);
  }

  method CollectPresent(build: Spec -> Option<Entry>, specs: seq<Spec>) returns (entries: seq<Entry>)
    ensures entries == Present(MapSpecs(build, specs))
  {
    entries := [];
    ghost var options := MapSpecs(build, specs);
    for i := 0 to |specs|
      invariant entries == Present(options[..i])
    {
      var entry := build(specs[i]);
      PresentSnoc(options[..i], entry);
      assert options[..i + 1] == options[..i] + [entry];
      if entry.Some? {
        entries := entries + [entry.value];
      }
    }
    assert options[..|specs|] == options;
  }

  lemma PresentSnoc<T>(options: seq<Option<T>>, last: Option<T>)
    ensures Present(options + [last]) == if last.Some? then Present(options) + [last.value] else Present(options)
  {
    assert (options + [last])[..|options|] == options;
  }

  method CollectTracked(specs: seq<Spec>, wires: seq<Wire>) returns (items: seq<Tracked>)
    requires |specs| == |wires|
    ensures items == MapTracked(specs, wires)
  {
    items := [];
    for i := 0 to |specs|
      invariant items == MapTracked(specs, wires)[..i]
    {
      items := items + [Tracked(specs[i], MapBreakpoint(specs[i], wires[i]))];
    }
  }

  method SearchSpec(items: seq<Tracked>, spec: Spec) returns (found: Option<Breakpoint>)
    ensures found == FindSpec(items, spec)
  {
    found := None;
    for i := 0 to |items|
      invariant FindSpec(items, spec) == FindSpec(items[i..], spec)
    {
      if items[i].spec == spec {
        return Some(items[i].breakpoint);
      }
    }
  }

  method SearchId(items: seq<Tracked>, id: int) returns (index: nat)
    ensures index == IndexById(items, id)
  {
    index := 0;
    while index < |items| && items[index].breakpoint.id != id
      invariant index <= |items|
      invariant IndexById(items, id) == index + IndexById(items[index..], id)
    {
      index := index + 1;
    }
  }

  method DecodeBreakpoints(body: Body, want: nat) returns (r: Result<seq<Wire>, Error>)
    ensures r == DecodeReply(body, want)
  {
    if body.NoBody? || body.Undecodable? {
      return Err(UndecodableReply);
    }
    var wires := if body.BreakpointsBody? then body.wires else [];
    if |wires| != want {
      return Err(WrongCount(want, |wires|));
    }
    for i := 0 to |wires|
      invariant AllVerified(wires[..i])
    {
      if !wires[i].verified {
        UnverifiedAtIs(wires, i);
        return Err(NotVerified(wires[i].message));
      }
    }
    r := Ok(wires);
  }

  lemma {:induction false} UnverifiedAtIs(wires: seq<Wire>, i: nat)
    requires i < |wires| && AllVerified(wires[..i]) && !wires[i].verified
    ensures !AllVerified(wires) && UnverifiedAt(wires) == i
  {
    if i > 0 {
      assert wires[..i][0].verified;
      assert wires[1..][..i - 1] == wires[..i][1..];
      UnverifiedAtIs(wires[1..], i - 1);
    }
  }

  // ---------- in plain terms ----------

  /** Where a create of a normalized spec goes: to the list of its file, or to the list of functions. It is
      answered from that list when the list has the spec, and otherwise sends it behind the others. */
  predicate CreatesIn(g: Group, tracked: seq<Tracked>, spec: Spec, plan: Plan<Breakpoint>) {
    match plan
    case Done(breakpoint) => Tracked(spec, breakpoint) in tracked
    case Send(group, specs) =>
      && group == g && |specs| == |tracked| + 1 && specs[|tracked|] == spec
      && forall i :: 0 <= i < |tracked| ==> specs[i] == tracked[i].spec != spec
    case Fail(_) => false
  }

  lemma {:induction false} FoundIsTracked(items: seq<Tracked>, spec: Spec)
    requires FindSpec(items, spec).Some?
    ensures Tracked(spec, FindSpec(items, spec).value) in items
  {
    if items[0].spec == spec {
      assert items[0] == Tracked(spec, items[0].breakpoint);
    } else {
      FoundIsTracked(items[1..], spec);
    }
  }

  lemma CreateGoesTo(s: State, spec: Spec, dir: Option<string>, normal: Spec, place: Located)
    requires Normalize(spec, dir) == Normalized(normal, place)
    ensures match place
            case AtLine(file, _) =>
              var tracked := if file in s.files then s.files[file] else [];
              CreatesIn(FileGroup(file), tracked, normal, PlanCreate(s, spec, dir))
            case ByName => CreatesIn(FunctionGroup, s.functions, normal, PlanCreate(s, spec, dir))
  {
    hide Normalize, FindSpec;
    var tracked := s.Items(GroupOf(place));
    FindSpecMeaning(tracked, normal);
    if FindSpec(tracked, normal).Some? {
      FoundIsTracked(tracked, normal);
    }
  }

  /** A create of a relative "path:line" is for the file behind the working directory. */
  lemma RelativeCreate(s: State, spec: Spec, dir: string, path: string, line: nat)
    requires IsClean(dir) && IsClean(path) && 0 < line <= MAX_INT
    requires TrimSpace(spec.location) == path + ":" + Itoa(line)
    ensures var file := "/" + dir + "/" + path;
            var tracked := if file in s.files then s.files[file] else [];
            CreatesIn(FileGroup(file), tracked, Spec(file + ":" + Itoa(line), spec.condition),
                      PlanCreate(s, spec, Some("/" + dir)))
    ensures var tracked := if "/" + path in s.files then s.files["/" + path] else [];
            CreatesIn(FileGroup("/" + path), tracked, Spec("/" + path + ":" + Itoa(line), spec.condition),
                      PlanCreate(s, spec, Some("/")))
    ensures PlanCreate(s, spec, None) == Fail(BadSpec(NoWorkingDirectory))
  {
    hide Normalize, CreatesIn, Itoa, TrimSpace, IsClean;
    RelativeIsJoined(spec, dir, path, line);
    var file := "/" + dir + "/" + path;
    CreateGoesTo(s, spec, Some("/" + dir), Spec(file + ":" + Itoa(line), spec.condition), AtLine(file, line));
    CreateGoesTo(s, spec, Some("/"), Spec("/" + path + ":" + Itoa(line), spec.condition), AtLine("/" + path, line));
  }

  /** A create of anything but a line is for the function of that name. */
  lemma CreateByName(s: State, spec: Spec, dir: Option<string>)
    requires TrimSpace(spec.location) != "" && ParseFileLine(TrimSpace(spec.location)).ByName?
    ensures CreatesIn(FunctionGroup, s.functions, Spec(TrimSpace(spec.location), spec.condition),
                      PlanCreate(s, spec, dir))
  {
    hide ParseFileLine, CreatesIn, TrimSpace;
    CreateGoesTo(s, spec, dir, Spec(TrimSpace(spec.location), spec.condition), ByName);
  }

  lemma {:induction false} FirstWithId(items: seq<Tracked>, id: int)
    ensures forall k :: 0 <= k < IndexById(items, id) ==> items[k].breakpoint.id != id
  {
    if items != [] && items[0].breakpoint.id != id {
      FirstWithId(items[1..], id);
      assert items == [items[0]] + items[1..];
    }
  }

  lemma HoldsId(items: seq<Tracked>, id: int)
    ensures HasId(items, id) <==> exists i :: 0 <= i < |items| && items[i].breakpoint.id == id
  {
    FirstWithId(items, id);
  }

  /** A clear sends its list without the first item of that id, or fails when no item has it. */
  lemma ClearTakesOut(s: State, id: int, pick: Option<string>)
    ensures var tracked := match pick
                           case Some(file) => if file in s.files then s.files[file] else []
                           case None => s.functions;
            match PlanClear(s, id, pick)
            case Send(g, specs) =>
              && g == (if pick.Some? then FileGroup(pick.value) else FunctionGroup)
              && exists i :: 0 <= i < |tracked| && tracked[i].breakpoint.id == id
                             && (forall k :: 0 <= k < i ==> tracked[k].breakpoint.id != id)
                             && specs == TrackedSpecs(tracked[..i] + tracked[i + 1..])
            case Fail(error) =>
              error == UnknownId(id) && forall k :: 0 <= k < |tracked| ==> tracked[k].breakpoint.id != id
            case Done(_) => false
  {
    hide IndexById, TrackedSpecs;
    var tracked := s.Items(if pick.Some? then FileGroup(pick.value) else FunctionGroup);
    FirstWithId(tracked, id);
  }

  /** An accepted list is tracked: item i is spec i with what reply i says of it. */
  lemma ReplyIsTracked(s: State, g: Group, specs: seq<Spec>, wires: seq<Wire>, i: nat)
    requires i < |specs| == |wires|
    requires forall k :: 0 <= k < |wires| ==> wires[k].verified
    ensures var items := After(s, g, specs, Replied(BreakpointsBody(wires))).Items(g);
            && |items| == |specs|
            && items[i] == Tracked(specs[i],
                                   Breakpoint(wires[i].id, wires[i].path, wires[i].line,
                                              if ':' in specs[i].location then "" else specs[i].location,
                                              specs[i].condition, true))
  {
    hide FirstUnverified;
  }

  /** No other answer is accepted, but that a body of another kind has no breakpoints in it. */
  lemma OnlyListsAreAccepted(outcome: Outcome, want: nat)
    ensures Accepted(outcome, want).Ok? <==>
            && outcome.Replied? && !outcome.body.NoBody? && !outcome.body.Undecodable?
            && if outcome.body.BreakpointsBody? then
                 |outcome.body.wires| == want && forall k :: 0 <= k < want ==> outcome.body.wires[k].verified
               else want == 0
  {
    hide FirstUnverified;
  }

  /** What is wrong with a list that is not accepted. */
  lemma FaultOfAList(wires: seq<Wire>, want: nat)
    ensures match DecodeReply(BreakpointsBody(wires), want)
            case Ok(_) => true
            case Err(error) =>
              if |wires| != want then error == WrongCount(want, |wires|)
              else exists i :: 0 <= i < |wires| && !wires[i].verified && error == NotVerified(wires[i].message)
                               && forall k :: 0 <= k < i ==> wires[k].verified
  {
    if |wires| == want && !AllVerified(wires) {
      var i := UnverifiedAt(wires);
      assert forall k :: 0 <= k < i ==> wires[..i][k].verified;
    }
  }

  /** The entry of a line carries its number, the entry of a function its name, and both the condition. */
  lemma EntryInFields(path: string, line: nat, spec: Spec)
    requires path != "" && 0 < line <= MAX_INT
    ensures spec.location == path + ":" + Itoa(line) ==>
              BuildEntry(FileGroup(path), spec) == Some(SourceEntry(line, spec.condition))
    ensures BuildEntry(FunctionGroup, spec) == Some(FunctionEntry(spec.location, spec.condition))
  {
    hide ParseFileLine, Itoa;
    ParseOfFormat(path, line);
  }
}
