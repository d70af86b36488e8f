/** The walks over debugger locals as the front end runs them, filling a table, a list or a page in place. */
module Walks {
  import opened GoStrings
  import opened Locals
  import opened Expansion
  import opened Runner

  class Table {
    var rows: Expanded
    constructor ()
      ensures rows == map[]
    {
      rows := map[];
    }
  }

  class MatchList {
    var found: seq<Match>
    constructor ()
      ensures found == []
    {
      found := [];
    }
  }

  class Page {
    var lines: seq<Line>
    constructor ()
      ensures lines == []
    {
      lines := [];
    }
  }

  method FilterDisplayedLocals(locals: seq<Variable>) returns (shown: seq<Variable>, hiddenCount: nat)
    ensures shown == Visible(locals) && hiddenCount == |locals| - |shown|
  {
    shown, hiddenCount := [], 0;
    for i := 0 to |locals|
      invariant shown == Visible(locals[..i]) && hiddenCount == i - |shown|
    {
      assert locals[..i + 1][..i] == locals[..i];
      if IsSynthetic(locals[i].name) {
        hiddenCount := hiddenCount + 1;
      } else {
        shown := shown + [locals[i]];
      }
    }
    assert locals[..|locals|] == locals;
  }

  method FindLocalByName(locals: seq<Variable>, name: string) returns (found: Option<Variable>)
    ensures found == FirstNamed(locals, name)
  {
    for i := 0 to |locals|
      invariant FirstNamed(locals, name) == FirstNamed(locals[i..], name)
    {
      if locals[i].name == name {
        return Some(locals[i]);
      }
    }
    found := None;
  }

  // ---------- collecting ----------

  method CollectExpandedLocals(runner: CommandRunner, wanted: set<string>, table: Table, local: Variable, path: string)
    returns (fault: Option<Fault>, ghost made: seq<Call>)
    requires runner.Valid() && !runner.over && Grounded(wanted, path)
    modifies runner, table
    ensures runner.Valid() && !runner.over && runner.calls == old(runner.calls) + made
    ensures Fetches(made) && fault == LastFault(made)
    ensures runner.actions == old(runner.actions) && runner.latest == old(runner.latest)
    ensures match Collect(wanted, runner.debuggee, old(table.rows), local, path)
            case None => fault.Some?
            case Some(rows) => fault.None? && table.rows == rows
    decreases Room(wanted, path)
  {
    hide Visible, Quiet, Over, Latest, ActionsIn, Fetches, LastFault, Room, JoinPath;
    made := [];
    NothingFetched();
    if path !in wanted {
      return None, made;
    }
    if local.reference <= 0 {
      return None, made;
    }
    var reply := runner.Children(local.reference);
    made := [ChildrenCall(local.reference, reply)];
    OneFetched(local.reference, reply);
    if reply.Failed? {
      return Some(reply.fault), made;
    }
    table.rows := table.rows[path := reply.value];
    var shown, hiddenCount := FilterDisplayedLocals(reply.value);
    ghost var goal := CollectAll(wanted, runner.debuggee, table.rows, shown, path);
    for i := 0 to |shown|
      invariant runner.Valid() && !runner.over && runner.calls == old(runner.calls) + made
      invariant Fetches(made) && LastFault(made).None?
      invariant runner.actions == old(runner.actions) && runner.latest == old(runner.latest)
      invariant goal == CollectAll(wanted, runner.debuggee, table.rows, shown[i..], path)
    {
      assert shown[i..][1..] == shown[i + 1..];
      ghost var more;
      RoomShrinks(wanted, path, shown[i].name);
      fault, more := CollectExpandedLocals(runner, wanted, table, shown[i], JoinPath(path, shown[i].name));
      FetchesMore(made, more);
      Regroup(old(runner.calls), made, more);
      made := made + more;
      if fault.Some? {
        return;
      }
    }
    fault := None;
  }

  /** expandedLocals */
  method ExpandedLocals(runner: CommandRunner, wanted: set<string>, locals: seq<Variable>)
    returns (fault: Option<Fault>, expanded: Expanded, ghost made: seq<Call>)
    requires runner.Valid() && !runner.over && NamedRoots(locals)
    modifies runner
    ensures runner.Valid() && !runner.over && runner.calls == old(runner.calls) + made
    ensures Fetches(made) && fault == LastFault(made)
    ensures runner.actions == old(runner.actions) && runner.latest == old(runner.latest)
    ensures match ExpandedFor(wanted, runner.debuggee, locals)
            case None => fault.Some?
            case Some(rows) => fault.None? && expanded == rows
  {
    hide Visible, Quiet, Over, Latest, ActionsIn, Collect, Fetches, LastFault;
    made := [];
    NothingFetched();
    if wanted == {} {
      NothingWanted(runner.debuggee, map[], Visible(locals));
      return None, map[], made;
    }
    var table := new Table();
    var shown, hiddenCount := FilterDisplayedLocals(locals);
    ghost var goal := CollectRoots(wanted, runner.debuggee, map[], shown);
    for i := 0 to |shown|
      invariant runner.Valid() && !runner.over && runner.calls == old(runner.calls) + made
      invariant Fetches(made) && LastFault(made).None?
      invariant runner.actions == old(runner.actions) && runner.latest == old(runner.latest)
      invariant fresh(table) && goal == CollectRoots(wanted, runner.debuggee, table.rows, shown[i..])
    {
      assert shown[i..][1..] == shown[i + 1..];
      ghost var more;
      fault, more := CollectExpandedLocals(runner, wanted, table, shown[i], shown[i].name);
      FetchesMore(made, more);
      made := made + more;
      if fault.Some? {
        return fault, map[], made;
      }
    }
    return None, table.rows, made;
  }

  /** The shortcut taken when nothing is expanded changes nothing. */
  lemma {:induction false} NothingWanted(debuggee: Debuggee, expanded: Expanded, roots: seq<Variable>)
    requires AllGrounded({}, roots)
    ensures CollectRoots({}, debuggee, expanded, roots) == Some(expanded)
  {
    if roots != [] {
      NothingWanted(debuggee, expanded, roots[1..]);
    }
  }

  // ---------- matching ----------

  lemma UnexpandedMatch(expanded: Expanded, local: Variable, path: string, name: string)
    requires path !in expanded && Grounded(expanded.Keys, path)
    ensures Matches(expanded, local, path, name) == if local.name == name then [Match(path, local)] else []
  {
  }

  lemma MatchesOfExpanded(expanded: Expanded, local: Variable, path: string, name: string)
    requires path in expanded && path != ""
    ensures Matches(expanded, local, path, name)
              == (if local.name == name then [Match(path, local)] else [])
                 + MatchesIn(expanded, Visible(expanded[path]), path, name)
  {
    hide Visible, MatchesIn;
  }

  /** A child's path has less room left, so the walk ends. */
  lemma RoomShrinks(paths: set<string>, path: string, child: string)
    requires path in paths && path != ""
    ensures Room(paths, JoinPath(path, child)) < Room(paths, path) && JoinPath(path, child) != ""
  {
  }

  lemma MatchesInFrom(expanded: Expanded, children: seq<Variable>, i: nat, parent: string, name: string)
    requires parent in expanded && parent != "" && i < |children|
    ensures Grounded(expanded.Keys, JoinPath(parent, children[i].name))
    ensures MatchesIn(expanded, children[i..], parent, name)
              == Matches(expanded, children[i], JoinPath(parent, children[i].name), name)
                + MatchesIn(expanded, children[i + 1..], parent, name)
  {
    hide Matches;
    assert children[i..][1..] == children[i + 1..];
  }

  lemma NoMatchesIn(expanded: Expanded, parent: string, name: string)
    requires parent in expanded && parent != ""
    ensures MatchesIn(expanded, [], parent, name) == []
  {
  }

  method CollectVisibleLocalMatches(matches: MatchList, local: Variable, path: string, expanded: Expanded, name: string)
    requires Grounded(expanded.Keys, path)
    modifies matches
    ensures matches.found == old(matches.found) + Matches(expanded, local, path, name)
    decreases Room(expanded.Keys, path)
  {
    hide Visible, Matches, MatchesIn, Room, JoinPath;
    if local.name == name {
      matches.found := matches.found + [Match(path, local)];
    }
    if path !in expanded {
      UnexpandedMatch(expanded, local, path, name);
      return;
    }
    MatchesOfExpanded(expanded, local, path, name);
    var shown, hiddenCount := FilterDisplayedLocals(expanded[path]);
    ghost var goal := matches.found + MatchesIn(expanded, shown, path, name);
    Regroup(old(matches.found), if local.name == name then [Match(path, local)] else [],
            MatchesIn(expanded, shown, path, name));
    assert goal == old(matches.found) + Matches(expanded, local, path, name);
    for i := 0 to |shown|
      invariant goal == matches.found + MatchesIn(expanded, shown[i..], path, name)
    {
      var childPath := JoinPath(path, shown[i].name);
      RoomShrinks(expanded.Keys, path, shown[i].name);
      MatchesInFrom(expanded, shown, i, path, name);
      Regroup(matches.found, Matches(expanded, shown[i], childPath, name),
              MatchesIn(expanded, shown[i + 1..], path, name));
      CollectVisibleLocalMatches(matches, shown[i], childPath, expanded, name);
    }
    NoMatchesIn(expanded, path, name);
    assert shown[|shown|..] == [];
    assert matches.found + [] == matches.found;
  }

  method FindVisibleLocalMatches(locals: seq<Variable>, expanded: Expanded, name: string) returns (matches: seq<Match>)
    requires AllGrounded(expanded.Keys, Visible(locals))
    ensures matches == RootMatches(expanded, Visible(locals), name)
  {
    hide Visible, Matches;
    var list := new MatchList();
    var shown, hiddenCount := FilterDisplayedLocals(locals);
    for i := 0 to |shown|
      invariant fresh(list)
      invariant RootMatches(expanded, shown, name) == list.found + RootMatches(expanded, shown[i..], name)
    {
      assert shown[i..][1..] == shown[i + 1..];
      Regroup(list.found, Matches(expanded, shown[i], shown[i].name, name),
              RootMatches(expanded, shown[i + 1..], name));
      CollectVisibleLocalMatches(list, shown[i], shown[i].name, expanded, name);
    }
    matches := list.found;
  }

  // ---------- rendering ----------

  lemma UnexpandedLine(expanded: Expanded, local: Variable, path: string, depth: nat)
    requires path !in expanded && Grounded(expanded.Keys, path)
    ensures Lines(expanded, local, path, depth) == [VariableLine(depth, local)]
  {
  }

  /** An expanded variable's lines: its own, its shown children's, and the count of hidden ones. */
  lemma LinesOfExpanded(expanded: Expanded, local: Variable, path: string, depth: nat)
    requires path in expanded && path != ""
    ensures var shown := Visible(expanded[path]);
            Lines(expanded, local, path, depth)
              == [VariableLine(depth, local)]
                 + LinesIn(expanded, shown, path, depth + 1)
                 + HiddenSummary(depth + 1, |expanded[path]| - |shown|)
  {
    hide Visible, LinesIn;
  }

  method WriteExpandedLocalLines(page: Page, local: Variable, path: string, expanded: Expanded, depth: nat)
    requires Grounded(expanded.Keys, path)
    modifies page
    ensures page.lines == old(page.lines) + Lines(expanded, local, path, depth)
    decreases Room(expanded.Keys, path)
  {
    hide Visible, Lines, HiddenSummary;
    page.lines := page.lines + [VariableLine(depth, local)];
    if path !in expanded {
      UnexpandedLine(expanded, local, path, depth);
      return;
    }
    LinesOfExpanded(expanded, local, path, depth);
    var shown, hiddenCount := FilterDisplayedLocals(expanded[path]);
    ghost var inner, hidden := LinesIn(expanded, shown, path, depth + 1), HiddenSummary(depth + 1, hiddenCount);
    ghost var goal := page.lines + inner;
    for i := 0 to |shown|
      invariant goal == page.lines + LinesIn(expanded, shown[i..], path, depth + 1)
    {
      assert shown[i..][1..] == shown[i + 1..];
      var childPath := JoinPath(path, shown[i].name);
      Regroup(page.lines, Lines(expanded, shown[i], childPath, depth + 1),
              LinesIn(expanded, shown[i + 1..], path, depth + 1));
      WriteExpandedLocalLines(page, shown[i], childPath, expanded, depth + 1);
    }
    assert page.lines + [] == page.lines;
    Regroup(old(page.lines), [VariableLine(depth, local)], inner);
    Regroup(old(page.lines), [VariableLine(depth, local)] + inner, hidden);
    page.lines := page.lines + HiddenSummary(depth + 1, hiddenCount);
  }

  /** formatExpandedLocals */
  method FormatExpandedLocals(locals: seq<Variable>, expanded: Expanded) returns (lines: seq<Line>)
    requires AllGrounded(expanded.Keys, Visible(locals))
    ensures lines == Screen(locals, expanded)
  {
    hide Visible, Lines;
    var page := new Page();
    var shown, hiddenCount := FilterDisplayedLocals(locals);
    if |shown| == 0 {
      if hiddenCount == 0 {
        return [NoLocalsLine];
      }
      return [NoUserLocalsLine] + HiddenSummary(0, hiddenCount);
    }
    for i := 0 to |shown|
      invariant fresh(page)
      invariant RootLines(expanded, shown) == page.lines + RootLines(expanded, shown[i..])
    {
      assert shown[i..][1..] == shown[i + 1..];
      Regroup(page.lines, Lines(expanded, shown[i], shown[i].name, 0), RootLines(expanded, shown[i + 1..]));
      WriteExpandedLocalLines(page, shown[i], shown[i].name, expanded, 0);
    }
    lines := page.lines + HiddenSummary(0, hiddenCount);
  }

  // ---------- resolving ----------

  method ResolveLocalPathBySegments(runner: CommandRunner, locals: seq<Variable>, name: string)
    returns (r: Reply<Resolution>, ghost made: seq<Call>)
    requires runner.Valid() && !runner.over
    modifies runner
    ensures runner.Valid() && !runner.over && runner.calls == old(runner.calls) + made
    ensures Fetches(made) && FaultOf(r) == LastFault(made)
    ensures runner.actions == old(runner.actions) && runner.latest == old(runner.latest)
    ensures match ResolveSegments(runner.debuggee, locals, name)
            case Found(path, v) => r == Done(Resolved(path, v))
            case NoSuch => r == Done(Unknown)
            case ChildrenFailed(_) => r.Failed?
  {
    hide Visible, FirstNamed, Split, Quiet, Over, Latest, ActionsIn, Fetches, LastFault;
    made := [];
    NothingFetched();
    var parts := Split(name, '.');
    var shown, hiddenCount := FilterDisplayedLocals(locals);
    var found := FindLocalByName(shown, parts[0]);
    if found.None? {
      return Done(Unknown), made;
    }
    var current := found.value;
    var path := current.name;
    ghost var goal := ResolveSegments(runner.debuggee, locals, name);
    for i := 1 to |parts|
      invariant runner.Valid() && !runner.over && runner.calls == old(runner.calls) + made
      invariant Fetches(made) && LastFault(made).None?
      invariant runner.actions == old(runner.actions) && runner.latest == old(runner.latest)
      invariant goal == WalkSegments(runner.debuggee, current, path, parts[i..])
    {
      assert parts[i..][1..] == parts[i + 1..];
      if !current.hasChildren || current.reference <= 0 {
        return Done(Unknown), made;
      }
      var reply := runner.Children(current.reference);
      OneFetched(current.reference, reply);
      FetchesMore(made, [ChildrenCall(current.reference, reply)]);
      made := made + [ChildrenCall(current.reference, reply)];
      if reply.Failed? {
        return Failed(reply.fault), made;
      }
      shown, hiddenCount := FilterDisplayedLocals(reply.value);
      found := FindLocalByName(shown, parts[i]);
      if found.None? {
        return Done(Unknown), made;
      }
      path := JoinPath(path, found.value.name);
      current := found.value;
    }
    r := Done(Resolved(path, current));
  }

  /** resolveLocalPath: a name with dots is walked from the roots, a bare one is looked up on the screen. */
  method ResolveLocalPath(runner: CommandRunner, wanted: set<string>, locals: seq<Variable>, name: string)
    returns (r: Reply<Resolution>, ghost made: seq<Call>)
    requires runner.Valid() && !runner.over && NamedRoots(locals)
    modifies runner
    ensures runner.Valid() && !runner.over && runner.calls == old(runner.calls) + made
    ensures Fetches(made) && FaultOf(r) == LastFault(made)
    ensures runner.actions == old(runner.actions) && runner.latest == old(runner.latest)
    ensures '.' in name ==>
              match ResolveSegments(runner.debuggee, locals, name)
              case Found(path, v) => r == Done(Resolved(path, v))
              case NoSuch => r == Done(Unknown)
              case ChildrenFailed(_) => r.Failed?
    ensures '.' !in name ==>
              match ExpandedFor(wanted, runner.debuggee, locals)
              case None => r.Failed?
              case Some(expanded) => r == Done(ResolveBare(locals, expanded, name))
  {
    hide Visible, ResolveSegments, ExpandedFor, Quiet, Over, Latest, ActionsIn, RootMatches, Fetches, LastFault;
    if '.' in name {
      r, made := ResolveLocalPathBySegments(runner, locals, name);
      return;
    }
    var fault, expanded;
    fault, expanded, made := ExpandedLocals(runner, wanted, locals);
    if fault.Some? {
      return Failed(fault.value), made;
    }
    var matches := FindVisibleLocalMatches(locals, expanded, name);
    match |matches| {
      case 0 =>
        r := Done(Unknown);
      case 1 =>
        r := Done(Resolved(matches[0].path, matches[0].variable));
      case _ =>
        var paths := [];
        for i := 0 to |matches|
          invariant |paths| == i && forall k :: 0 <= k < i ==> paths[k] == matches[k].path
        {
          paths := paths + [matches[i].path];
        }
        assert paths == seq(|matches|, i requires 0 <= i < |matches| => matches[i].path);
        r := Done(Ambiguous(paths));
    }
  }
}
