/** The view state and the screens that change it: for each screen the calls it makes, and the view and the
    verdict their replies lead to. What is printed is left to the terminal; an inspection stands for the lines
    it shows. */
module Screens {
  import opened GoStrings
  import opened Locals
  import opened Expansion
  import opened Resolver
  import opened Runner
  import opened ShownChildren
  import opened Snapshots
  import opened Walks

  datatype Inspection =
    | LocalsView(lines: seq<Line>)
    | EvalView(value: Variable, children: seq<Variable>)
    | OutputView(entries: seq<string>)
    | HelpView
    | BreakpointsView
  {
    /** Locals and evaluated expressions share the title "locals". */
    predicate TitledLocals() {
      LocalsView? || EvalView?
    }
  }

  /** The view state as a value. */
  datatype View =
    View(sticky: bool, snapshot: Option<Snapshot>, inspection: Option<Inspection>, expanded: set<string>)
  {
    predicate HasFrame() {
      snapshot.Some? && snapshot.value.frame.Some?
    }

    function Frame(): FrameRef
      requires HasFrame()
    {
      snapshot.value.frame.value.ref
    }

    /** setInspection: any title but the locals' forgets the expanded paths. */
    function Showing(shown: Inspection): View {
      this.(inspection := Some(shown), expanded := if shown.TitledLocals() then expanded else {})
    }

    /** clearInspection */
    function Closed(): View {
      this.(inspection := None, expanded := {})
    }
  }

  /** A screen that does not succeed fails with the fault of its last call, or with an error of its own. */
  function Verdict(ok: bool, made: seq<Call>): Option<Fault> {
    if ok then None else Some(if LastFault(made).Some? then LastFault(made).value else Other)
  }

  class ViewState {
    const sticky: bool
    var snapshot: Option<Snapshot>
    var inspection: Option<Inspection>
    var expandedLocals: set<string>

    /** In every reachable view state the wanted paths are closed under dot-prefixes. */
    ghost predicate Valid()
      reads this
    {
      PrefixClosed(expandedLocals)
    }

    ghost function Value(): View
      reads this
    {
      View(sticky, snapshot, inspection, expandedLocals)
    }

    constructor (sticky: bool, snapshot: Option<Snapshot>)
      ensures Valid() && Value() == View(sticky, snapshot, None, {})
    {
      this.sticky, this.snapshot := sticky, snapshot;
      inspection, expandedLocals := None, {};
    }

    method SetInspection(shown: Inspection)
      requires Valid()
      modifies this`inspection, this`expandedLocals
      ensures Valid() && Value() == old(Value()).Showing(shown)
      ensures inspection == Some(shown)
      ensures expandedLocals == if shown.LocalsView? || shown.EvalView? then old(expandedLocals) else {}
    {
      if !shown.TitledLocals() {
        expandedLocals := {};
      }
      inspection := Some(shown);
    }

    method ClearInspection()
      modifies this`inspection, this`expandedLocals
      ensures Valid() && Value() == old(Value()).Closed()
      ensures inspection == None && expandedLocals == {}
    {
      inspection, expandedLocals := None, {};
    }

    method RememberExpandedLocalPath(path: string)
      requires Valid()
      modifies this`expandedLocals
      ensures Valid() && expandedLocals == Remember(old(expandedLocals), path)
      ensures forall x :: x in expandedLocals <==>
                          x in old(expandedLocals)
                          || (path != "" && x <= path && (x == path || path[|x|] == '.'))
    {
      hide PrefixesUpTo, PrefixClosed, Split, Join;
      RememberKeepsClosed(expandedLocals, path);
      RememberMeans(expandedLocals, path);
      if path == "" {
        return;
      }
      var parts := Split(path, '.');
      ghost var before := expandedLocals;
      NoPrefixes(parts);
      for i := 1 to |parts| + 1
        invariant expandedLocals == before + PrefixesUpTo(parts, i - 1)
      {
        OneMorePrefix(parts, i);
        expandedLocals := expandedLocals + {Join(parts[..i], '.')};
      }
    }
  }

  /** The current snapshot is the last one reported, and it is an exited one exactly when the program is over. */
  ghost predicate InStep(runner: CommandRunner, state: ViewState)
    reads runner, state
  {
    runner.Valid() && state.Valid() && runner.over == Exited(state.snapshot) && state.snapshot == runner.latest
  }

  // ---------- locals ----------

  /** The calls of a screen about locals: with a frame it asks for its locals, and when it gets them it may
      fetch children. */
  predicate AsksLocals(v: View, made: seq<Call>) {
    if !v.HasFrame() then made == []
    else
      && made != [] && made[0].LocalsCall? && made[0].frame == v.Frame() && Fetches(made[1..])
      && match made[0].locals
         case Failed(_) => |made| == 1
         case Done(locals) => NamedRoots(locals)
  }

  predicate GotLocals(made: seq<Call>) {
    made != [] && made[0].LocalsCall? && made[0].locals.Done?
  }

  method FetchLocals(runner: CommandRunner, state: ViewState)
    returns (reply: Reply<seq<Variable>>, ghost made: seq<Call>)
    requires InStep(runner, state) && !runner.over
    modifies runner
    ensures InStep(runner, state) && !runner.over && runner.actions == old(runner.actions)
    ensures runner.calls == old(runner.calls) + made
    ensures if state.Value().HasFrame() then made == [LocalsCall(state.Value().Frame(), reply)]
            else made == [] && reply == Failed(Other)
    ensures reply.Done? ==> NamedRoots(reply.value)
  {
    made := [];
    if state.snapshot.None? || state.snapshot.value.frame.None? {
      return Failed(Other), made;
    }
    reply := runner.Locals(state.snapshot.value.frame.value.ref);
    made := [LocalsCall(state.snapshot.value.frame.value.ref, reply)];
  }

  /** The view with the locals and their wanted paths expanded; None when some children cannot be fetched. */
  ghost function Rendering(debuggee: Debuggee, v: View, locals: seq<Variable>): Option<View>
    requires NamedRoots(locals)
  {
    match ExpandedFor(v.expanded, debuggee, locals)
    case None => None
    case Some(expanded) => Some(v.Showing(LocalsView(Screen(locals, expanded))))
  }

  method RenderLocals(runner: CommandRunner, state: ViewState, locals: seq<Variable>)
    returns (fault: Option<Fault>, ghost made: seq<Call>)
    requires InStep(runner, state) && !runner.over && NamedRoots(locals)
    modifies runner, state`inspection, state`expandedLocals
    ensures InStep(runner, state) && !runner.over && runner.actions == old(runner.actions)
    ensures runner.calls == old(runner.calls) + made && Fetches(made) && fault == LastFault(made)
    ensures match Rendering(runner.debuggee, old(state.Value()), locals)
            case None => fault.Some? && state.Value() == old(state.Value())
            case Some(v) => fault.None? && state.Value() == v
  {
    hide Visible, Quiet, Over, Latest, ActionsIn, Collect, CollectRoots, Lines, RootLines, Prefixes, Fetches, LastFault;
    var expanded;
    fault, expanded, made := ExpandedLocals(runner, state.expandedLocals, locals);
    if fault.Some? {
      return;
    }
    var lines := FormatExpandedLocals(locals, expanded);
    state.SetInspection(LocalsView(lines));
  }

  /** What showing the locals leads to. */
  ghost function LocalsShown(debuggee: Debuggee, v: View, made: seq<Call>): (View, bool)
    requires AsksLocals(v, made)
  {
    if !GotLocals(made) then (v, false)
    else
      match Rendering(debuggee, v, made[0].locals.value)
      case None => (v, false)
      case Some(shown) => (shown, true)
  }

  lemma AskedLocals(v: View, reply: Reply<seq<Variable>>, more: seq<Call>)
    requires v.HasFrame() && Fetches(more) && (if reply.Done? then NamedRoots(reply.value) else more == [])
    ensures var made := [LocalsCall(v.Frame(), reply)] + more;
            && AsksLocals(v, made) && GotLocals(made) == reply.Done?
            && LastFault(made) == if more == [] then FaultOf(reply) else LastFault(more)
  {
    var made := [LocalsCall(v.Frame(), reply)] + more;
    assert made[1..] == more;
  }

  lemma NoLocals(v: View, reply: Reply<seq<Variable>>, made: seq<Call>)
    requires reply.Failed?
    requires if v.HasFrame() then made == [LocalsCall(v.Frame(), reply)] else made == [] && reply == Failed(Other)
    ensures AsksLocals(v, made) && !GotLocals(made) && Verdict(false, made) == Some(reply.fault)
  {
  }

  method ShowLocals(runner: CommandRunner, state: ViewState) returns (fault: Option<Fault>, ghost made: seq<Call>)
    requires InStep(runner, state) && !runner.over
    modifies runner, state`inspection, state`expandedLocals
    ensures InStep(runner, state) && !runner.over && runner.actions == old(runner.actions)
    ensures runner.calls == old(runner.calls) + made && AsksLocals(old(state.Value()), made)
    ensures var (shown, ok) := LocalsShown(runner.debuggee, old(state.Value()), made);
            state.Value() == shown && fault == Verdict(ok, made)
  {
    hide Visible, Quiet, Over, Latest, ActionsIn, Rendering, Fetches, NamedRoots, PrefixClosed, LastFault, AsksLocals;
    NothingFetched();
    var fetched;
    fetched, made := FetchLocals(runner, state);
    if fetched.Failed? {
      NoLocals(state.Value(), fetched, made);
      return Some(fetched.fault), made;
    }
    ghost var asked, more := made, [];
    fault, more := RenderLocals(runner, state, fetched.value);
    AskedLocals(old(state.Value()), fetched, more);
    Regroup(old(runner.calls), asked, more);
    made := asked + more;
  }

  /** `path` is what the name stands for before it is expanded: itself when it has dots, and otherwise
      the path of the one line on the screen that carries it. */
  ghost predicate StandsFor(wanted: set<string>, debuggee: Debuggee, locals: seq<Variable>, name: string, path: string)
    requires NamedRoots(locals)
  {
    if '.' in name then path == name
    else
      var found := ExpandedFor(wanted, debuggee, locals);
      && found.Some? && AllGrounded(found.value.Keys, Visible(locals))
      && var r := ResolveBare(locals, found.value, name);
         r.Resolved? && r.path == path && Carrying(Screen(locals, found.value), name) == [r.variable]
  }

  /** A remembered path is a key of the map rendered next. */
  lemma Effective(wanted: set<string>, debuggee: Debuggee, locals: seq<Variable>, name: string, path: string,
                  v: Variable)
    returns (chain: seq<Variable>)
    requires NamedRoots(locals) && name != "" && v.reference > 0
    requires '.' in name ==> ResolveSegments(debuggee, locals, name) == Found(path, v)
    requires '.' !in name ==>
               && ExpandedFor(wanted, debuggee, locals).Some?
               && ResolveBare(locals, ExpandedFor(wanted, debuggee, locals).value, name) == Resolved(path, v)
    ensures StandsFor(wanted, debuggee, locals, name, path)
    ensures EndsAt(Remember(wanted, path), debuggee, locals, chain, path, v)
    ensures var r := ExpandedFor(Remember(wanted, path), debuggee, locals); r.Some? ==> path in r.value
  {
    hide Visible, ResolveSegments, ResolveBare, ExpandedFor, Carrying, Remember;
    if '.' in name {
      chain := SegmentsAreEffective(wanted, debuggee, locals, name);
    } else {
      var expanded := ExpandedFor(wanted, debuggee, locals).value;
      BareNameAgreesWithScreen(locals, expanded, name);
      chain := BareNameIsEffective(wanted, debuggee, locals, expanded, name);
    }
  }

  predicate HasMore(value: Variable) {
    value.hasChildren && value.reference > 0
  }

  /** The expandable variable a name stands for, with its path; None for any other name, and when some
      children cannot be fetched. */
  ghost function Lookup(debuggee: Debuggee, wanted: set<string>, locals: seq<Variable>, name: string)
    : Option<(string, Variable)>
    requires NamedRoots(locals)
  {
    if name == "" then None
    else if '.' in name then
      match ResolveSegments(debuggee, locals, name)
      case Found(path, v) => if HasMore(v) then Some((path, v)) else None
      case _ => None
    else
      match ExpandedFor(wanted, debuggee, locals)
      case None => None
      case Some(expanded) =>
        match ResolveBare(locals, expanded, name)
        case Resolved(path, v) => if HasMore(v) then Some((path, v)) else None
        case _ => None
  }

  /** What expanding a local leads to: once the name has been found its path is remembered, whether or not
      the screen can then be rendered. */
  ghost function LocalExpanded(debuggee: Debuggee, v: View, made: seq<Call>, name: string): (View, bool)
    requires AsksLocals(v, made)
  {
    if !GotLocals(made) then (v, false)
    else
      match Lookup(debuggee, v.expanded, made[0].locals.value, TrimSpace(name))
      case None => (v, false)
      case Some((path, _)) =>
        var wanting := v.(expanded := Remember(v.expanded, path));
        match Rendering(debuggee, wanting, made[0].locals.value)
        case None => (wanting, false)
        case Some(shown) => (shown, true)
  }

  /** expandLocal */
  method ExpandLocal(runner: CommandRunner, state: ViewState, name: string)
    returns (fault: Option<Fault>, ghost made: seq<Call>)
    requires InStep(runner, state) && !runner.over
    modifies runner, state`inspection, state`expandedLocals
    ensures InStep(runner, state) && !runner.over && runner.actions == old(runner.actions)
    ensures runner.calls == old(runner.calls) + made && AsksLocals(old(state.Value()), made)
    ensures var (shown, ok) := LocalExpanded(runner.debuggee, old(state.Value()), made, name);
            state.Value() == shown && fault == Verdict(ok, made)
  {
    hide Visible, Quiet, Over, Latest, ActionsIn, Rendering, ExpandedFor, Fetches, NamedRoots, PrefixClosed;
    hide ResolveSegments, ResolveBare, Remember, TrimSpace, LastFault, AsksLocals;
    NothingFetched();
    var fetched;
    fetched, made := FetchLocals(runner, state);
    ghost var v := state.Value();
    if fetched.Failed? {
      NoLocals(v, fetched, made);
      return Some(fetched.fault), made;
    }
    ghost var asked, more := made, [];
    AskedLocals(v, fetched, []);
    assert asked + [] == asked;
    var trimmed := TrimSpace(name);
    if trimmed == "" {
      return Some(Other), made;
    }
    var resolved;
    resolved, more := ResolveLocalPath(runner, state.expandedLocals, fetched.value, trimmed);
    AskedLocals(v, fetched, more);
    made := asked + more;
    Regroup(old(runner.calls), asked, more);
    if resolved.Failed? {
      return Some(resolved.fault), made;
    }
    if !resolved.value.Resolved? {
      return Some(Other), made;
    }
    var local := resolved.value.variable;
    if !local.hasChildren || local.reference <= 0 {
      return Some(Other), made;
    }
    state.RememberExpandedLocalPath(resolved.value.path);
    ghost var rest;
    fault, rest := RenderLocals(runner, state, fetched.value);
    FetchesMore(more, rest);
    AskedLocals(v, fetched, more + rest);
    Regroup(old(runner.calls), asked + more, rest);
    Regroup(asked, more, rest);
    made := asked + (more + rest);
  }

  /** An expansion that succeeds remembers the path its name stood for, and that path is a key of the map
      then rendered. */
  lemma ExpansionIsEffective(debuggee: Debuggee, v: View, made: seq<Call>, name: string)
    requires AsksLocals(v, made) && LocalExpanded(debuggee, v, made, name).1
    ensures var locals := made[0].locals.value;
            var found := Lookup(debuggee, v.expanded, locals, TrimSpace(name));
            var wanted := LocalExpanded(debuggee, v, made, name).0.expanded;
            && found.Some? && StandsFor(v.expanded, debuggee, locals, TrimSpace(name), found.value.0)
            && wanted == Remember(v.expanded, found.value.0)
            && ExpandedFor(wanted, debuggee, locals).Some?
            && found.value.0 in ExpandedFor(wanted, debuggee, locals).value
  {
    hide Remember, TrimSpace, ExpandedFor, ResolveSegments, ResolveBare, StandsFor, NamedRoots, Fetches, Screen;
    var locals := made[0].locals.value;
    var (path, local) := Lookup(debuggee, v.expanded, locals, TrimSpace(name)).value;
    var chain := Effective(v.expanded, debuggee, locals, TrimSpace(name), path, local);
  }

  /** When chains do not share paths, the children stored and shown for it are those of the variable the name
      stood for: its line and theirs stand together on the screen, one level apart. */
  lemma ExpansionShowsItsChildren(debuggee: Debuggee, v: View, made: seq<Call>, name: string) returns (depth: nat)
    requires AsksLocals(v, made) && LocalExpanded(debuggee, v, made, name).1
    requires Unambiguous(LocalExpanded(debuggee, v, made, name).0.expanded, debuggee, Visible(made[0].locals.value))
    ensures var locals, shown := made[0].locals.value, LocalExpanded(debuggee, v, made, name).0;
            var (path, local) := Lookup(debuggee, v.expanded, locals, TrimSpace(name)).value;
            var children := debuggee(local.reference);
            && children.Some? && path != ""
            && ExpandedFor(shown.expanded, debuggee, locals).Some?
            && var expanded := ExpandedFor(shown.expanded, debuggee, locals).value;
               && path in expanded && expanded[path] == children.value
               && shown.inspection == Some(LocalsView(Screen(locals, expanded)))
               && Within([VariableLine(depth, local)] + LinesIn(expanded, Visible(children.value), path, depth + 1)
                         + HiddenSummary(depth + 1, |children.value| - |Visible(children.value)|),
                         Screen(locals, expanded))
  {
    hide Remember, TrimSpace, ExpandedFor, ResolveSegments, ResolveBare, StandsFor, NamedRoots, Fetches, Screen,
         Visible, Unambiguous, Within, LinesIn;
    var locals, shown := made[0].locals.value, LocalExpanded(debuggee, v, made, name).0;
    var (path, local) := Lookup(debuggee, v.expanded, locals, TrimSpace(name)).value;
    var chain := Effective(v.expanded, debuggee, locals, TrimSpace(name), path, local);
    depth := |chain| - 1;
    OwnChildren(shown.expanded, debuggee, locals, chain);
    ChainIsOnScreen(shown.expanded, debuggee, locals, chain);
    LinesOfExpanded(ExpandedFor(shown.expanded, debuggee, locals).value, local, path, depth);
  }

  /** However it ends, an expansion forgets no path. */
  lemma ExpansionForgetsNothing(debuggee: Debuggee, v: View, made: seq<Call>, name: string)
    requires AsksLocals(v, made)
    ensures v.expanded <= LocalExpanded(debuggee, v, made, name).0.expanded
  {
    hide Remember, TrimSpace, ExpandedFor, Lookup, Screen;
    if GotLocals(made) && Lookup(debuggee, v.expanded, made[0].locals.value, TrimSpace(name)).Some? {
      RememberMeans(v.expanded, Lookup(debuggee, v.expanded, made[0].locals.value, TrimSpace(name)).value.0);
    }
  }

  /** What is expanded stays expanded: a chain that goes down wanted paths before another expansion ends in
      a key of the map rendered after it. */
  lemma ExpandedStays(debuggee: Debuggee, v: View, made: seq<Call>, name: string, chain: seq<Variable>)
    requires AsksLocals(v, made) && LocalExpanded(debuggee, v, made, name).1
    requires Chain(v.expanded, debuggee, Visible(made[0].locals.value), chain)
    ensures var shown := LocalExpanded(debuggee, v, made, name).0;
            var found := ExpandedFor(shown.expanded, debuggee, made[0].locals.value);
            && found.Some? && ChainPath(chain) in found.value
            && shown.inspection == Some(LocalsView(Screen(made[0].locals.value, found.value)))
  {
    hide Remember, TrimSpace, Lookup, Screen, Visible, Descends, CollectRoots, Collect;
    var shown, locals := LocalExpanded(debuggee, v, made, name).0, made[0].locals.value;
    ExpansionForgetsNothing(debuggee, v, made, name);
    DescendsMore(v.expanded, shown.expanded, debuggee, chain[0], chain[0].name, chain[1..]);
    RootsFind(shown.expanded, debuggee, map[], Visible(locals), chain);
  }

  /** Two expansions in a row at one stop leave both their paths open. */
  lemma TwoExpansions(debuggee: Debuggee, v: View, first: seq<Call>, one: string, second: seq<Call>, two: string)
    requires AsksLocals(v, first) && LocalExpanded(debuggee, v, first, one).1
    requires var open := LocalExpanded(debuggee, v, first, one).0;
             AsksLocals(open, second) && LocalExpanded(debuggee, open, second, two).1
    requires first[0].locals == second[0].locals
    ensures var open, locals := LocalExpanded(debuggee, v, first, one).0, first[0].locals.value;
            var shown := LocalExpanded(debuggee, open, second, two).0;
            var found := ExpandedFor(shown.expanded, debuggee, locals);
            var a := Lookup(debuggee, v.expanded, locals, TrimSpace(one));
            var b := Lookup(debuggee, open.expanded, locals, TrimSpace(two));
            && a.Some? && b.Some? && found.Some? && a.value.0 in found.value && b.value.0 in found.value
            && shown.inspection == Some(LocalsView(Screen(locals, found.value)))
  {
    hide Remember, TrimSpace, ExpandedFor, ResolveSegments, ResolveBare, StandsFor, NamedRoots, Fetches, Screen;
    var locals := first[0].locals.value;
    var shown := LocalExpanded(debuggee, v, first, one).0;
    var (path, local) := Lookup(debuggee, v.expanded, locals, TrimSpace(one)).value;
    var chain := Effective(v.expanded, debuggee, locals, TrimSpace(one), path, local);
    ExpandedStays(debuggee, shown, second, two, chain);
    ExpansionIsEffective(debuggee, shown, second, two);
  }

  // ---------- the other screens ----------

  method EvalChildren(runner: CommandRunner, value: Variable)
    returns (reply: Reply<seq<Variable>>, ghost made: seq<Call>)
    requires runner.Valid() && !runner.over
    modifies runner
    ensures runner.Valid() && !runner.over && runner.calls == old(runner.calls) + made
    ensures runner.actions == old(runner.actions) && runner.latest == old(runner.latest)
    ensures if HasMore(value) then made == [ChildrenCall(value.reference, reply)] else made == [] && reply == Done([])
    ensures HasMore(value) ==>
              match runner.debuggee(value.reference)
              case None => reply.Failed?
              case Some(children) => reply == Done(children)
  {
    made := [];
    if !value.hasChildren || value.reference <= 0 {
      return Done([]), made;
    }
    reply := runner.Children(value.reference);
    made := [ChildrenCall(value.reference, reply)];
  }

  /** The calls of an evaluation: with a frame it asks for the value, and for its children when it has some. */
  predicate AsksValue(debuggee: Debuggee, v: View, expr: string, made: seq<Call>) {
    if !v.HasFrame() then made == []
    else
      && made != [] && made[0].EvalCall? && made[0].frame == v.Frame() && made[0].expr == expr
      && match made[0].value
         case Failed(_) => |made| == 1
         case Done(value) =>
           if !HasMore(value) then |made| == 1
           else
             && |made| == 2 && made[1].ChildrenCall? && made[1].reference == value.reference
             && match debuggee(value.reference)
                case None => made[1].children.Failed?
                case Some(children) => made[1].children == Done(children)
  }

  /** What an evaluation leads to: in a sticky view without an inspection the value is only printed. */
  ghost function ValueShown(debuggee: Debuggee, v: View, expr: string, made: seq<Call>): (View, bool)
    requires AsksValue(debuggee, v, expr, made)
  {
    if LastFault(made).Some? || made == [] then (v, false)
    else
      var value := made[0].value.value;
      var children := if HasMore(value) then made[1].children.value else [];
      if v.sticky && v.inspection.None? then (v.Closed(), true)
      else (v.Showing(EvalView(value.(name := expr), children)), true)
  }

  method ShowEval(runner: CommandRunner, state: ViewState, expr: string)
    returns (fault: Option<Fault>, ghost made: seq<Call>)
    requires InStep(runner, state) && !runner.over
    modifies runner, state`inspection, state`expandedLocals
    ensures InStep(runner, state) && !runner.over && runner.actions == old(runner.actions)
    ensures runner.calls == old(runner.calls) + made && AsksValue(runner.debuggee, old(state.Value()), expr, made)
    ensures var (shown, ok) := ValueShown(runner.debuggee, old(state.Value()), expr, made);
            state.Value() == shown && fault == Verdict(ok, made)
  {
    hide Visible, Quiet, Over, Latest, ActionsIn, PrefixClosed;
    made := [];
    if state.snapshot.None? || state.snapshot.value.frame.None? {
      return Some(Other), made;
    }
    var value := runner.Eval(state.snapshot.value.frame.value.ref, expr);
    made := [EvalCall(state.snapshot.value.frame.value.ref, expr, value)];
    if value.Failed? {
      return Some(value.fault), made;
    }
    ghost var more;
    var children;
    children, more := EvalChildren(runner, value.value);
    Regroup(old(runner.calls), made, more);
    made := made + more;
    if children.Failed? {
      return Some(children.fault), made;
    }
    var view := EvalView(value.value.(name := expr), children.value);
    if state.sticky && state.inspection.Some? {
      state.SetInspection(view);
      return None, made;
    }
    if state.sticky {
      state.ClearInspection();
      return None, made;
    }
    state.SetInspection(view);
    return None, made;
  }

  predicate AsksOutput(v: View, made: seq<Call>) {
    if v.snapshot.None? then made == [] else |made| == 1 && made[0].OutputCall?
  }

  function OutputShown(v: View, made: seq<Call>): (View, bool)
    requires AsksOutput(v, made)
  {
    if made == [] || made[0].entries.Failed? then (v, false)
    else (v.Showing(OutputView(made[0].entries.value)), true)
  }

  method ShowOutput(runner: CommandRunner, state: ViewState) returns (fault: Option<Fault>, ghost made: seq<Call>)
    requires InStep(runner, state)
    modifies runner, state`inspection, state`expandedLocals
    ensures InStep(runner, state) && runner.actions == old(runner.actions)
    ensures runner.calls == old(runner.calls) + made && AsksOutput(old(state.Value()), made)
    ensures var (shown, ok) := OutputShown(old(state.Value()), made);
            state.Value() == shown && fault == Verdict(ok, made)
  {
    hide Quiet, Over, Latest, ActionsIn, PrefixClosed;
    made := [];
    if state.snapshot.None? {
      return Some(Other), made;
    }
    var entries := runner.Output();
    made := [OutputCall(entries)];
    if entries.Failed? {
      return Some(entries.fault), made;
    }
    state.SetInspection(OutputView(entries.value));
    fault := None;
  }

  method ShowHelp(runner: CommandRunner, state: ViewState)
    requires InStep(runner, state)
    modifies state`inspection, state`expandedLocals
    ensures InStep(runner, state) && state.Value() == old(state.Value()).Showing(HelpView)
  {
    state.SetInspection(HelpView);
  }

  method ShowBreakpoints(runner: CommandRunner, state: ViewState)
    requires InStep(runner, state)
    modifies state`inspection, state`expandedLocals
    ensures InStep(runner, state) && state.Value() == old(state.Value()).Showing(BreakpointsView)
  {
    state.SetInspection(BreakpointsView);
  }

  // ---------- breakpoints and actions ----------

  /** The calls of a break command: a location that can be resolved is created, and then all are listed. */
  predicate AsksBreak(packages: Packages, v: View, argument: string, made: seq<Call>) {
    match Resolve(argument, v.snapshot, packages)
    case None => made == []
    case Some(location) =>
      && made != [] && made[0].BreakCall? && made[0].location == location
      && if made[0].created.Failed? then |made| == 1 else |made| == 2 && made[1].ListCall?
  }

  /** What a break command leads to: a session that cannot list is no failure. */
  function BreakSet(v: View, made: seq<Call>): (View, bool)
  {
    if |made| < 2 || LastFault(made) !in {None, Some(Unsupported)} then (v, false)
    else (if v.sticky && v.snapshot.Some? then v.Closed() else v, true)
  }

  method BreakAt(runner: CommandRunner, state: ViewState, argument: string)
    returns (fault: Option<Fault>, ghost made: seq<Call>)
    requires InStep(runner, state) && !runner.over
    modifies runner, state`inspection, state`expandedLocals
    ensures InStep(runner, state) && !runner.over && runner.actions == old(runner.actions)
    ensures runner.calls == old(runner.calls) + made && AsksBreak(runner.packages, old(state.Value()), argument, made)
    ensures var (shown, ok) := BreakSet(old(state.Value()), made);
            state.Value() == shown && fault == Verdict(ok, made)
  {
    hide Quiet, Over, Latest, ActionsIn, PrefixClosed, Resolve;
    made := [];
    var location := Resolve(argument, state.snapshot, runner.packages);
    if location.None? {
      return Some(Other), made;
    }
    var created := runner.CreateBreakpoint(location.value);
    made := [BreakCall(location.value, created)];
    if created.Failed? {
      return Some(created.fault), made;
    }
    var listed := runner.Breakpoints();
    Regroup(old(runner.calls), made, [ListCall(listed)]);
    made := made + [ListCall(listed)];
    if listed.Failed? && listed.fault != Unsupported {
      return Some(listed.fault), made;
    }
    if state.sticky && state.snapshot.Some? {
      state.ClearInspection();
    }
    fault := None;
  }

  /** The calls of an action: the action, and after an exit in a plain view the output. */
  predicate AsksAction(v: View, action: Action, made: seq<Call>) {
    && made != [] && made[0].ActionCall? && made[0].action == action
    && if made[0].reply.Done? && Exited(made[0].reply.value) && !v.sticky then |made| == 2 && made[1].OutputCall?
       else |made| == 1
  }

  /** What an action leads to: the new snapshot, with no inspection over it. */
  function ActionDone(v: View, action: Action, made: seq<Call>): (View, bool)
    requires AsksAction(v, action, made)
  {
    if made[0].reply.Failed? then (v, false) else (v.Closed().(snapshot := made[0].reply.value), true)
  }

  /** runDebuggerAction */
  method RunDebuggerAction(runner: CommandRunner, state: ViewState, action: Action)
    returns (fault: Option<Fault>, ghost made: seq<Call>)
    requires InStep(runner, state) && !runner.over
    modifies runner, state
    ensures InStep(runner, state) && runner.actions == old(runner.actions) + [action]
    ensures runner.calls == old(runner.calls) + made && AsksAction(old(state.Value()), action, made)
    ensures var (shown, ok) := ActionDone(old(state.Value()), action, made);
            state.Value() == shown && fault == Verdict(ok, made)
  {
    hide Quiet, Over, Latest, ActionsIn, PrefixClosed;
    var answer := runner.Do(action);
    made := [ActionCall(action, answer)];
    if answer.Failed? {
      return Some(answer.fault), made;
    }
    state.ClearInspection();
    state.snapshot := answer.value;
    if Exited(answer.value) && !state.sticky {
      var entries := runner.Output();
      Regroup(old(runner.calls), made, [OutputCall(entries)]);
      made := made + [OutputCall(entries)];
    }
    fault := None;
  }

  // ---------- in plain terms ----------

  /** An answered action leaves its snapshot, no inspection and no expanded path; any other leaves the view. */
  lemma ActionInFields(v: View, action: Action, made: seq<Call>)
    requires AsksAction(v, action, made)
    ensures var (shown, ok) := ActionDone(v, action, made);
            match made[0]
            case ActionCall(asked, Done(snapshot)) =>
              asked == action && ok && shown == View(v.sticky, snapshot, None, {})
            case ActionCall(asked, Failed(_)) => asked == action && !ok && shown == v
            case _ => false
  {
  }

  /** Shown output replaces the inspection and forgets the expanded paths. */
  lemma OutputInFields(v: View, made: seq<Call>)
    requires AsksOutput(v, made)
    ensures var (shown, ok) := OutputShown(v, made);
            match v.snapshot
            case None => made == [] && !ok && shown == v
            case Some(_) =>
              match made[0]
              case OutputCall(Done(entries)) =>
                ok && shown == View(v.sticky, v.snapshot, Some(OutputView(entries)), {})
              case OutputCall(Failed(_)) => !ok && shown == v
              case _ => false
  {
  }

  /** A value is shown under the name of its expression with its children, and the expanded paths stay; in a
      sticky view over no inspection it is not shown, and they go. */
  lemma ValueInFields(debuggee: Debuggee, v: View, expr: string, made: seq<Call>)
    requires AsksValue(debuggee, v, expr, made)
    ensures var (shown, ok) := ValueShown(debuggee, v, expr, made);
            && (ok <==> made != [] && LastFault(made).None?)
            && (!ok ==> shown == v)
            && (ok && v.sticky && v.inspection.None? ==> shown == View(true, v.snapshot, None, {}))
            && (ok && !(v.sticky && v.inspection.None?) ==>
                  && shown.inspection.Some? && shown.inspection.value.EvalView?
                  && shown == View(v.sticky, v.snapshot, shown.inspection, v.expanded)
                  && made[0].EvalCall? && made[0].expr == expr && v.snapshot.Some? && v.snapshot.value.frame.Some?
                  && made[0].frame == v.snapshot.value.frame.value.ref
                  && var value := made[0].value.value;
                     && shown.inspection.value.value
                        == Variable(expr, value.typeName, value.value, value.hasChildren, value.reference)
                     && (if value.hasChildren && value.reference > 0 then
                           debuggee(value.reference) == Some(shown.inspection.value.children)
                         else shown.inspection.value.children == []))
  {
  }

  /** A breakpoint that was set closes the inspection of a sticky view with a snapshot, and nothing else. */
  lemma BreakInFields(packages: Packages, v: View, argument: string, made: seq<Call>)
    requires AsksBreak(packages, v, argument, made)
    ensures var (shown, ok) := BreakSet(v, made);
            && (ok <==> |made| == 2 && made[1].ListCall?
                        && (made[1].listed.Done? || made[1].listed == Failed(Unsupported)))
            && (ok ==> made[0].BreakCall? && made[0].created.Done?
                       && Resolve(argument, v.snapshot, packages) == Some(made[0].location))
            && shown == (if ok && v.sticky && v.snapshot.Some? then View(true, v.snapshot, None, {}) else v)
  {
    hide Resolve;
  }

  /** Locals are shown with the paths that were expanded, and nothing changes when they cannot be. */
  lemma LocalsInFields(debuggee: Debuggee, v: View, made: seq<Call>)
    requires AsksLocals(v, made)
    ensures var (shown, ok) := LocalsShown(debuggee, v, made);
            if !ok then shown == v
            else
              && made[0].LocalsCall? && made[0].locals.Done? && v.snapshot.Some? && v.snapshot.value.frame.Some?
              && made[0].frame == v.snapshot.value.frame.value.ref
              && var locals := made[0].locals.value;
                 && ExpandedFor(v.expanded, debuggee, locals).Some?
                 && shown == View(v.sticky, v.snapshot,
                                  Some(LocalsView(Screen(locals, ExpandedFor(v.expanded, debuggee, locals).value))),
                                  v.expanded)
  {
    hide ExpandedFor, Screen;
  }

  /** A screen that fails, fails with the fault of its last call, or with one of its own. */
  lemma VerdictInFields(made: seq<Call>, reply: Reply<seq<string>>)
    ensures Verdict(true, made) == None && Verdict(false, []) == Some(Other)
    ensures Verdict(false, made + [OutputCall(reply)]) == Some(if reply.Failed? then reply.fault else Other)
  {
    assert (made + [OutputCall(reply)])[|made|] == OutputCall(reply);
  }

  /** A bare name that one line of the screen carries is found, when its variable can be expanded. */
  lemma BareNameIsFound(debuggee: Debuggee, wanted: set<string>, locals: seq<Variable>, name: string, v: Variable)
    requires NamedRoots(locals) && name != "" && '.' !in name && v.hasChildren && v.reference > 0
    requires ExpandedFor(wanted, debuggee, locals).Some?
    requires Carrying(Screen(locals, ExpandedFor(wanted, debuggee, locals).value), name) == [v]
    ensures var found := Lookup(debuggee, wanted, locals, name); found.Some? && found.value.1 == v
  {
    hide Visible, ExpandedFor, Carrying, Screen, ResolveBare;
    BareNameAgreesWithScreen(locals, ExpandedFor(wanted, debuggee, locals).value, name);
  }

  /** A dotted name is found when its segments name a root and steps down from it to a variable that can be
      expanded; its path is the name itself. */
  lemma DottedNameIsFound(debuggee: Debuggee, wanted: set<string>, locals: seq<Variable>, name: string, root: Variable,
                          steps: seq<Variable>)
    requires NamedRoots(locals) && '.' in name
    requires var parts := Split(name, '.');
             && FirstNamed(Visible(locals), parts[0]) == Some(root) && |steps| == |parts| - 1
             && forall i :: 0 <= i < |steps| ==> steps[i].name == parts[1..][i]
    requires StepsDown(debuggee, root, steps)
    requires ([root] + steps)[|steps|].hasChildren && ([root] + steps)[|steps|].reference > 0
    ensures Lookup(debuggee, wanted, locals, name) == Some((name, ([root] + steps)[|steps|]))
  {
    hide Visible, FirstNamed, StepsDown, WalkSegments;
    StepsAreWalked(debuggee, root, root.name, Split(name, '.')[1..], steps);
    var chain := SegmentsAreEffective(wanted, debuggee, locals, name);
  }

  /** What an expansion changes: when the name is not found, nothing; when it is, the paths wanted, and when
      these can be rendered the inspection. */
  lemma ExpansionInFields(debuggee: Debuggee, v: View, made: seq<Call>, name: string)
    requires AsksLocals(v, made) && GotLocals(made)
    ensures var (shown, ok) := LocalExpanded(debuggee, v, made, name);
            var locals := made[0].locals.value;
            match Lookup(debuggee, v.expanded, locals, TrimSpace(name))
            case None => shown == v && !ok
            case Some((path, _)) =>
              var found := ExpandedFor(shown.expanded, debuggee, locals);
              && (forall x :: x in shown.expanded <==>
                              x in v.expanded || (path != "" && x <= path && (x == path || path[|x|] == '.')))
              && (ok <==> found.Some?) && shown.sticky == v.sticky && shown.snapshot == v.snapshot
              && shown.inspection
                 == if found.Some? then Some(LocalsView(Screen(locals, found.value))) else v.inspection
  {
    hide Remember, TrimSpace, ExpandedFor, Lookup, Screen;
    var found := Lookup(debuggee, v.expanded, made[0].locals.value, TrimSpace(name));
    if found.Some? {
      RememberMeans(v.expanded, found.value.0);
    }
  }
}
