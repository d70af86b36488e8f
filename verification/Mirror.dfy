/** Client registry and server lists side by side, over every run of operations and failures. */
module Mirror {
  import opened GoStrings
  import opened Locations
  import opened Dap
  import opened Registry

  /** `doubtful` holds the groups whose last request did not succeed. */
  datatype World = World(client: State, server: map<Group, seq<Entry>>, doubtful: set<Group>) {
    function ServerList(g: Group): seq<Entry> {
      if g in server then server[g] else []
    }
  }

  const START := World(Registry.EMPTY, map[], {})

  /** Read back as specs, the server's list for a group is the client's, in order. */
  predicate Agrees(w: World, g: Group) {
    SpecsOf(g, w.ServerList(g)) == TrackedSpecs(w.client.Items(g))
  }

  ghost predicate Mirrored(w: World) {
    && Valid(w.client)
    && forall g :: g !in w.doubtful ==> Agrees(w, g)
  }

  predicate Applied(outcome: Outcome) {
    outcome.Replied? || (outcome.Failed? && outcome.applied)
  }

  predicate Succeeds(outcome: Outcome, specs: seq<Spec>) {
    Accepted(outcome, |specs|).Ok?
  }

  /** One set request: the server, if it acts, replaces the whole group;
      the client replaces its own only on a complete and verified reply. */
  function Exchange(w: World, g: Group, specs: seq<Spec>, outcome: Outcome): World {
    World(After(w.client, g, specs, outcome),
          if Applied(outcome) then w.server[g := BuildEntries(g, specs)] else w.server,
          if Succeeds(outcome, specs) then w.doubtful - {g} else w.doubtful + {g})
  }

  function PlanOf(s: State, op: Op): Option<(Group, seq<Spec>)> {
    match op
    case Create(spec, dir) =>
      var p := PlanCreate(s, spec, dir);
      if p.Send? then Some((p.group, p.specs)) else None
    case Clear(id, pick) =>
      var p := PlanClear(s, id, pick);
      if p.Send? then Some((p.group, p.specs)) else None
  }

  function WorldStep(w: World, op: Op, outcome: Outcome): World {
    match PlanOf(w.client, op)
    case None => w
    case Some((g, specs)) => Exchange(w, g, specs, outcome)
  }

  function Run(w: World, steps: seq<(Op, Outcome)>): World {
    if steps == [] then w
    else
      var last := steps[|steps| - 1];
      WorldStep(Run(w, steps[..|steps| - 1]), last.0, last.1)
  }

  // ---------- the mirror ----------

  lemma {:induction false} PlanOk(s: State, op: Op)
    requires Valid(s)
    ensures var plan := PlanOf(s, op); plan.Some? ==> SpecsOk(plan.value.0, plan.value.1)
  {
    if PlanOf(s, op).Some? {
      match op
      case Create(spec, dir) => PlanCreateOk(s, spec, dir);
      case Clear(id, pick) => PlanClearOk(s, id, pick);
    }
  }

  lemma ItemsAfterPut(s: State, g: Group, items: seq<Tracked>, other: Group)
    ensures s.Put(g, items).Items(other) == if other == g then items else s.Items(other)
  {
  }

  /** A success on a group makes both sides agree on it, whatever state the server was in before. */
  lemma SuccessRestoresAgreement(w: World, g: Group, specs: seq<Spec>, outcome: Outcome)
    requires SpecsOk(g, specs) && Succeeds(outcome, specs)
    ensures Agrees(Exchange(w, g, specs, outcome), g)
    ensures TrackedSpecs(Exchange(w, g, specs, outcome).client.Items(g)) == specs
  {
    var wires := Accepted(outcome, |specs|).value;
    var items := MapTracked(specs, wires);
    ItemsAfterPut(w.client, g, items, g);
    BuildSkipsNothing(g, specs);
    assert TrackedSpecs(items) == specs;
  }

  /** The operation sent a request that did not succeed. */
  predicate Fails(s: State, op: Op, outcome: Outcome) {
    PlanOf(s, op).Some? && !Succeeds(outcome, PlanOf(s, op).value.1)
  }

  /** A failure leaves the client's registry exactly as it was, and casts doubt on its group only. */
  lemma FailureChangesNothing(w: World, op: Op, outcome: Outcome)
    requires Fails(w.client, op, outcome)
    ensures WorldStep(w, op, outcome).client == w.client
    ensures WorldStep(w, op, outcome).doubtful == w.doubtful + {PlanOf(w.client, op).value.0}
  {
  }

  /** What an operation does to the registry does not depend on the server's side. */
  lemma ClientStep(w: World, op: Op, outcome: Outcome)
    ensures WorldStep(w, op, outcome).client == Step(w.client, op, outcome)
  {
  }

  /** The steps of a run that did not fail. */
  function WithoutFailures(w: World, steps: seq<(Op, Outcome)>): seq<(Op, Outcome)> {
    if steps == [] then []
    else
      var init, last := steps[..|steps| - 1], steps[|steps| - 1];
      if Fails(Run(w, init).client, last.0, last.1) then WithoutFailures(w, init) else WithoutFailures(w, init) + [last]
  }

  /** Failed operations leave no trace: in every run, the registry is the one that the operations which did
      not fail, alone and in order, leave. */
  lemma {:induction false} FailuresLeaveNoTrace(w: World, steps: seq<(Op, Outcome)>)
    ensures Run(w, WithoutFailures(w, steps)).client == Run(w, steps).client
  {
    hide PlanOf, Step, WorldStep, Fails;
    if steps != [] {
      var init, last := steps[..|steps| - 1], steps[|steps| - 1];
      var kept := WithoutFailures(w, init);
      FailuresLeaveNoTrace(w, init);
      if Fails(Run(w, init).client, last.0, last.1) {
        FailureChangesNothing(Run(w, init), last.0, last.1);
      } else {
        assert (kept + [last])[..|kept|] == kept;
        ClientStep(Run(w, init), last.0, last.1);
        ClientStep(Run(w, kept), last.0, last.1);
      }
    }
  }

  /** Groups other than the one addressed change on neither side. */
  lemma OthersUntouched(w: World, g: Group, specs: seq<Spec>, outcome: Outcome, other: Group)
    requires other != g
    ensures var w' := Exchange(w, g, specs, outcome);
            && w'.client.Items(other) == w.client.Items(other)
            && w'.ServerList(other) == w.ServerList(other)
            && (other in w'.doubtful <==> other in w.doubtful)
  {
    if Succeeds(outcome, specs) {
      ItemsAfterPut(w.client, g, MapTracked(specs, Accepted(outcome, |specs|).value), other);
    }
  }

  lemma {:induction false} StepKeepsMirror(w: World, op: Op, outcome: Outcome)
    requires Mirrored(w)
    ensures Mirrored(WorldStep(w, op, outcome))
  {
    if PlanOf(w.client, op).Some? {
      var (g, specs) := PlanOf(w.client, op).value;
      var w' := Exchange(w, g, specs, outcome);
      PlanOk(w.client, op);
      AfterIsValid(w.client, g, specs, outcome);
      forall other | other !in w'.doubtful
        ensures Agrees(w', other)
      {
        if other == g {
          SuccessRestoresAgreement(w, g, specs, outcome);
        } else {
          OthersUntouched(w, g, specs, outcome, other);
          assert Agrees(w, other);
        }
      }
    }
  }

  /** In every run, each group whose last request succeeded is held by the server, in order,
      exactly as the client tracks it. */
  lemma {:induction false} RunKeepsMirror(w: World, steps: seq<(Op, Outcome)>)
    requires Mirrored(w)
    ensures Mirrored(Run(w, steps))
  {
    if steps != [] {
      var n := |steps| - 1;
      RunKeepsMirror(w, steps[..n]);
      StepKeepsMirror(Run(w, steps[..n]), steps[n].0, steps[n].1);
    }
  }

  lemma {:induction false} EveryRunFromStart(steps: seq<(Op, Outcome)>)
    ensures Mirrored(Run(START, steps))
  {
    assert forall g :: SpecsOf(g, []) == TrackedSpecs([]);
    RunKeepsMirror(START, steps);
  }

  // ---------- create ----------

  /** A spec that is tracked already, once normalized, is answered from the registry;
      any other valid spec is sent, at the end of its group's list. */
  lemma CreateSendsIffNew(s: State, spec: Spec, dir: Option<string>)
    requires Valid(s) && Normalize(spec, dir).Normalized?
    ensures var n := Normalize(spec, dir);
            var items := s.Items(GroupOf(n.place));
            && (PlanCreate(s, spec, dir).Done? <==> exists i :: 0 <= i < |items| && items[i].spec == n.spec)
            && (forall i :: 0 <= i < |items| && items[i].spec == n.spec ==>
                PlanCreate(s, spec, dir) == Done(items[i].breakpoint))
            && (!PlanCreate(s, spec, dir).Done? ==>
                PlanCreate(s, spec, dir) == Send(GroupOf(n.place), TrackedSpecs(items) + [n.spec]))
  {
    var n := Normalize(spec, dir);
    var g := GroupOf(n.place);
    var items := s.Items(g);
    ValidGroup(s, g);
    FindSpecMeaning(items, n.spec);
    forall i | 0 <= i < |items| && items[i].spec == n.spec
      ensures PlanCreate(s, spec, dir) == Done(items[i].breakpoint)
    {
      FindSpecAt(items, i);
    }
  }

  /** After a successful create, the breakpoint found for the new spec is the reply's last entry. */
  lemma {:induction false} CreateReturnsItsReply(s: State, spec: Spec, dir: Option<string>, outcome: Outcome)
    requires Valid(s) && PlanCreate(s, spec, dir).Send?
    requires var plan := PlanCreate(s, spec, dir); Succeeds(outcome, plan.specs)
    ensures var plan := PlanCreate(s, spec, dir);
            var n := Normalize(spec, dir);
            var items := After(s, plan.group, plan.specs, outcome).Items(plan.group);
            var wires := Accepted(outcome, |plan.specs|).value;
            && |items| == |plan.specs| > 0
            && items[|items| - 1].spec == n.spec
            && FindSpec(items, n.spec) == Some(MapBreakpoint(n.spec, wires[|wires| - 1]))
  {
    var plan := PlanCreate(s, spec, dir);
    PlanCreateOk(s, spec, dir);
    var wires := Accepted(outcome, |plan.specs|).value;
    var items := MapTracked(plan.specs, wires);
    ItemsAfterPut(s, plan.group, items, plan.group);
    FindSpecAt(items, |items| - 1);
  }

  // ---------- create, then clear ----------

  /** The same specs in every group, and the same files with a key. */
  ghost predicate SameSpecs(s: State, t: State) {
    && s.files.Keys == t.files.Keys
    && forall g :: TrackedSpecs(s.Items(g)) == TrackedSpecs(t.Items(g))
  }

  /** Clearing `id` finds the last item of group `g` and nothing before it. */
  predicate ClearHitsLast(s: State, g: Group, id: int) {
    && (forall file :: file in s.files && FileGroup(file) != g ==> !HasId(s.files[file], id))
    && s.Items(g) != []
    && IndexById(s.Items(g), id) == |s.Items(g)| - 1
  }

  /** `t` is `s` with one more spec at the end of group `g`; ids may all have changed in that group. */
  ghost predicate Extends(s: State, t: State, g: Group, spec: Spec) {
    && TrackedSpecs(t.Items(g)) == TrackedSpecs(s.Items(g)) + [spec]
    && (forall other :: other != g ==> t.Items(other) == s.Items(other))
    && t.files.Keys == s.files.Keys + (if g.FileGroup? then {g.path} else {})
  }

  /** A successful create of a new spec extends its group, and nothing else. */
  lemma {:induction false} CreateExtends(s: State, spec: Spec, dir: Option<string>, outcome: Outcome)
    requires Valid(s) && PlanCreate(s, spec, dir).Send?
    requires Succeeds(outcome, PlanCreate(s, spec, dir).specs)
    ensures var t := Step(s, Create(spec, dir), outcome);
            && Valid(t)
            && Extends(s, t, PlanCreate(s, spec, dir).group, Normalize(spec, dir).spec)
  {
    var plan := PlanCreate(s, spec, dir);
    StepIsValid(s, Create(spec, dir), outcome);
    PlanCreateOk(s, spec, dir);
    var items := MapTracked(plan.specs, Accepted(outcome, |plan.specs|).value);
    assert TrackedSpecs(items) == plan.specs;
    ItemsAfterPut(s, plan.group, items, plan.group);
    forall other | other != plan.group
      ensures s.Put(plan.group, items).Items(other) == s.Items(other)
    {
      ItemsAfterPut(s, plan.group, items, other);
    }
  }

  /** The specs a clear of position i sends. */
  lemma RemovedSpecs(items: seq<Tracked>, i: nat)
    requires i < |items|
    ensures TrackedSpecs(RemoveAt(items, i)) == RemoveAt(TrackedSpecs(items), i)
  {
  }

  /** After a successful request for `rest`, group `hit` holds `rest` and the others are as before. */
  lemma AfterSuccess(t: State, hit: Group, rest: seq<Spec>, outcome: Outcome)
    requires Succeeds(outcome, rest)
    ensures var u := After(t, hit, rest, outcome);
            && TrackedSpecs(u.Items(hit)) == rest
            && (forall other :: other != hit ==> u.Items(other) == t.Items(other))
            && u.files.Keys == if hit.FunctionGroup? then t.files.Keys
                               else if rest == [] then t.files.Keys - {hit.path} else t.files.Keys + {hit.path}
  {
    var items := MapTracked(rest, Accepted(outcome, |rest|).value);
    assert TrackedSpecs(items) == rest;
    ItemsAfterPut(t, hit, items, hit);
    forall other | other != hit
      ensures t.Put(hit, items).Items(other) == t.Items(other)
    {
      ItemsAfterPut(t, hit, items, other);
    }
  }

  /** Clearing what was just created sends the list from before the creation, and on success
      undoes it, whichever file the map yields first, provided the id leads to the created item. */
  lemma {:induction false} CreateThenClear(s: State, t: State, g: Group, spec: Spec, id: int, pick: Option<string>,
                                           cleared: Outcome)
    requires Valid(s) && Extends(s, t, g, spec)
    requires ClearHitsLast(t, g, id) && LegalPick(t, id, pick)
    ensures PlanClear(t, id, pick) == Send(g, TrackedSpecs(s.Items(g)))
    ensures Succeeds(cleared, TrackedSpecs(s.Items(g))) ==> SameSpecs(After(t, g, TrackedSpecs(s.Items(g)), cleared), s)
  {
    assert pick == if g.FileGroup? then Some(g.path) else None;
    var rest := TrackedSpecs(s.Items(g));
    RemovedSpecs(t.Items(g), |t.Items(g)| - 1);
    assert RemoveAt(rest + [spec], |rest|) == rest;
    if Succeeds(cleared, rest) {
      UndoneBySending(s, t, g, spec, cleared);
    }
  }

  lemma UndoneBySending(s: State, t: State, g: Group, spec: Spec, cleared: Outcome)
    requires Valid(s) && Extends(s, t, g, spec)
    requires Succeeds(cleared, TrackedSpecs(s.Items(g)))
    ensures SameSpecs(After(t, g, TrackedSpecs(s.Items(g)), cleared), s)
  {
    var rest := TrackedSpecs(s.Items(g));
    AfterSuccess(t, g, rest, cleared);
    assert g.FileGroup? ==> (g.path in s.files <==> rest != []);
  }

  /** Conversely, when the id does not lead to the created item, some legal search order
      makes the clear remove something else: no success of it gives the old specs back. */
  lemma {:induction false} ClearMissesOtherwise(s: State, t: State, g: Group, spec: Spec, id: int)
    returns (pick: Option<string>, hit: Group, rest: seq<Spec>)
    requires Valid(s) && Valid(t) && Extends(s, t, g, spec)
    requires HasId(t.Items(g), id) && !ClearHitsLast(t, g, id)
    ensures LegalPick(t, id, pick) && PlanClear(t, id, pick) == Send(hit, rest)
    ensures forall cleared: Outcome :: Succeeds(cleared, rest) ==> !SameSpecs(After(t, hit, rest, cleared), s)
  {
    pick, hit := AnotherHit(t, g, id);
    var i := IndexById(t.Items(hit), id);
    rest := TrackedSpecs(RemoveAt(t.Items(hit), i));
    WrongRemoval(s, t, g, spec, hit, i);
    forall cleared: Outcome | Succeeds(cleared, rest)
      ensures !SameSpecs(After(t, hit, rest, cleared), s)
    {
      AfterSuccess(t, hit, rest, cleared);
    }
  }

  /** A legal search that ends in another group, or at another item of the same group. */
  lemma AnotherHit(t: State, g: Group, id: int) returns (pick: Option<string>, hit: Group)
    requires HasId(t.Items(g), id) && !ClearHitsLast(t, g, id)
    ensures LegalPick(t, id, pick) && hit == (if pick.Some? then FileGroup(pick.value) else FunctionGroup)
    ensures HasId(t.Items(hit), id)
    ensures hit == g ==> IndexById(t.Items(g), id) < |t.Items(g)| - 1
  {
    if file :| file in t.files && FileGroup(file) != g && HasId(t.files[file], id) {
      pick, hit := Some(file), FileGroup(file);
    } else {
      pick, hit := if g.FileGroup? then Some(g.path) else None, g;
    }
  }

  lemma WrongRemoval(s: State, t: State, g: Group, spec: Spec, hit: Group, i: nat)
    requires Valid(t) && Extends(s, t, g, spec)
    requires i < |t.Items(hit)| && (hit == g ==> i < |t.Items(g)| - 1)
    ensures TrackedSpecs(RemoveAt(t.Items(hit), i)) != TrackedSpecs(s.Items(hit))
  {
    var before := TrackedSpecs(t.Items(hit));
    RemovedSpecs(t.Items(hit), i);
    if hit == g {
      ValidGroup(t, g);
      assert RemoveAt(before, i)[i] == before[i + 1] != before[i] == TrackedSpecs(s.Items(g))[i];
    } else {
      assert |RemoveAt(before, i)| < |before| == |TrackedSpecs(s.Items(hit))|;
    }
  }

  /** Server ids unique over everything tracked are enough for a clear to hit what was created. */
  ghost predicate UniqueIds(t: State) {
    && (forall g, i, j :: 0 <= i < j < |t.Items(g)| ==> t.Items(g)[i].breakpoint.id != t.Items(g)[j].breakpoint.id)
    && (forall g, h, i, j :: g != h && 0 <= i < |t.Items(g)| && 0 <= j < |t.Items(h)| ==>
          t.Items(g)[i].breakpoint.id != t.Items(h)[j].breakpoint.id)
  }

  lemma UniqueIdsSuffice(t: State, g: Group)
    requires UniqueIds(t) && t.Items(g) != []
    ensures ClearHitsLast(t, g, t.Items(g)[|t.Items(g)| - 1].breakpoint.id)
  {
    var items := t.Items(g);
    var id := items[|items| - 1].breakpoint.id;
    IndexOfId(items, id, |items| - 1);
    forall file | file in t.files && FileGroup(file) != g
      ensures !HasId(t.files[file], id)
    {
      assert t.Items(FileGroup(file)) == t.files[file];
      var j := IndexById(t.files[file], id);
    }
  }

  lemma {:induction false} IndexOfId(items: seq<Tracked>, id: int, k: nat)
    requires k < |items| && items[k].breakpoint.id == id
    requires forall i :: 0 <= i < k ==> items[i].breakpoint.id != id
    ensures IndexById(items, id) == k
  {
    if k > 0 {
      assert items[0].breakpoint.id != id;
      IndexOfId(items[1..], id, k - 1);
    }
  }

  // ---------- clearing what create returned ----------

  /** The breakpoint a complete, verified reply describes for the last spec of its list. */
  function LastReply(specs: seq<Spec>, outcome: Outcome): Breakpoint
    requires specs != [] && Succeeds(outcome, specs)
  {
    MapBreakpoint(specs[|specs| - 1], Accepted(outcome, |specs|).value[|specs| - 1])
  }

  /** The breakpoint a successful create of a new spec returns. */
  function Created(s: State, spec: Spec, dir: Option<string>, outcome: Outcome): Breakpoint
    requires PlanCreate(s, spec, dir).Send? && Succeeds(outcome, PlanCreate(s, spec, dir).specs)
    requires PlanCreate(s, spec, dir).specs != []
  {
    LastReply(PlanCreate(s, spec, dir).specs, outcome)
  }

  /** A create and its outcome that put a new spec into the registry. */
  predicate Creates(s: State, spec: Spec, dir: Option<string>, outcome: Outcome) {
    && PlanCreate(s, spec, dir).Send? && PlanCreate(s, spec, dir).specs != []
    && Succeeds(outcome, PlanCreate(s, spec, dir).specs)
  }

  lemma {:induction false} CreatedIsLast(s: State, spec: Spec, dir: Option<string>, outcome: Outcome)
    requires Valid(s) && Creates(s, spec, dir, outcome)
    ensures var items := Step(s, Create(spec, dir), outcome).Items(PlanCreate(s, spec, dir).group);
            items != [] && items[|items| - 1].breakpoint == Created(s, spec, dir, outcome)
  {
    hide Normalize, SpecFits, GroupOk;
    var plan := PlanCreate(s, spec, dir);
    var items := MapTracked(plan.specs, Accepted(outcome, |plan.specs|).value);
    ItemsAfterPut(s, plan.group, items, plan.group);
  }

  /** Clearing an id gives the specs of `s` back, wherever the search finds it and whatever the reply. */
  ghost predicate AlwaysUndoes(t: State, id: int, s: State) {
    forall pick, cleared :: Undoes(t, id, pick, cleared, s)
  }

  ghost predicate Undoes(t: State, id: int, pick: Option<string>, cleared: Outcome, s: State) {
    LegalPick(t, id, pick) && PlanClear(t, id, pick).Send? && Succeeds(cleared, PlanClear(t, id, pick).specs) ==>
      SameSpecs(Step(t, Clear(id, pick), cleared), s)
  }

  function Confirmed(specs: seq<Spec>): (outcome: Outcome)
    ensures Succeeds(outcome, specs)
  {
    Replied(BreakpointsBody(seq(|specs|, _ => Wire(0, true, 0, "", ""))))
  }

  /** Create, then clear the id that create returned: with ids unique over everything tracked, every group
      has its old specs back and the same files have a key. */
  lemma {:induction false} CreateThenClearRestores(s: State, spec: Spec, dir: Option<string>, created: Outcome,
                                                   pick: Option<string>, cleared: Outcome)
    requires Valid(s) && Creates(s, spec, dir, created)
    requires UniqueIds(Step(s, Create(spec, dir), created))
    requires LegalPick(Step(s, Create(spec, dir), created), Created(s, spec, dir, created).id, pick)
    ensures var t := Step(s, Create(spec, dir), created);
            var id := Created(s, spec, dir, created).id;
            var g := PlanCreate(s, spec, dir).group;
            && PlanClear(t, id, pick) == Send(g, TrackedSpecs(s.Items(g)))
            && (Succeeds(cleared, TrackedSpecs(s.Items(g))) ==> SameSpecs(Step(t, Clear(id, pick), cleared), s))
  {
    hide PlanCreate, Valid, Extends, UniqueIds, SameSpecs, LegalPick, PlanClear, ClearHitsLast, After, TrackedSpecs;
    var g := PlanCreate(s, spec, dir).group;
    var t := Step(s, Create(spec, dir), created);
    SentIsNormalized(s, spec, dir);
    CreateExtends(s, spec, dir, created);
    CreatedIsLast(s, spec, dir, created);
    UniqueIdsSuffice(t, g);
    CreateThenClear(s, t, g, Normalize(spec, dir).spec, Created(s, spec, dir, created).id, pick, cleared);
  }

  /** Exactly when: the search for the returned id must not meet it in another file, nor earlier in its own
      group. Otherwise some order of the file map makes a successful clear remove something else. */
  lemma {:induction false} CreateThenClearExactlyWhen(s: State, spec: Spec, dir: Option<string>, created: Outcome)
    requires Valid(s) && Creates(s, spec, dir, created)
    ensures var t := Step(s, Create(spec, dir), created);
            var id := Created(s, spec, dir, created).id;
            AlwaysUndoes(t, id, s) <==> ClearHitsLast(t, PlanCreate(s, spec, dir).group, id)
  {
    hide PlanCreate, Valid, Extends, SameSpecs, LegalPick, PlanClear, ClearHitsLast, After, TrackedSpecs, Step, Created;
    var g := PlanCreate(s, spec, dir).group;
    var t := Step(s, Create(spec, dir), created);
    var id := Created(s, spec, dir, created).id;
    SentIsNormalized(s, spec, dir);
    var n := Normalize(spec, dir).spec;
    CreateExtends(s, spec, dir, created);
    CreatedIsLast(s, spec, dir, created);
    if ClearHitsLast(t, g, id) {
      forall pick, cleared
        ensures Undoes(t, id, pick, cleared, s)
      {
        if LegalPick(t, id, pick) {
          CreateThenClear(s, t, g, n, id, pick, cleared);
          ClearStep(t, id, pick, cleared);
        }
      }
    } else {
      IdIsFound(t.Items(g), |t.Items(g)| - 1);
      var pick, hit, rest := ClearMissesOtherwise(s, t, g, n, id);
      ClearStep(t, id, pick, Confirmed(rest));
      assert !Undoes(t, id, pick, Confirmed(rest), s);
    }
  }

  lemma ClearStep(t: State, id: int, pick: Option<string>, cleared: Outcome)
    ensures var plan := PlanClear(t, id, pick);
            plan.Send? ==> Step(t, Clear(id, pick), cleared) == After(t, plan.group, plan.specs, cleared)
  {
  }

  lemma {:induction false} IdIsFound(items: seq<Tracked>, k: nat)
    requires k < |items|
    ensures HasId(items, items[k].breakpoint.id)
  {
    if k > 0 {
      IdIsFound(items[1..], k - 1);
    }
  }

  lemma SentIsNormalized(s: State, spec: Spec, dir: Option<string>)
    requires PlanCreate(s, spec, dir).Send?
    ensures Normalize(spec, dir).Normalized?
  {
    hide Normalize;
  }
}
