/** Expansion of debugger locals: three walks over a graph of variable references that may be cyclic,
    bounded only by a finite set of wanted paths. */
module Locals {
  import opened GoStrings

  datatype Variable = Variable(name: string, typeName: string, value: string, hasChildren: bool, reference: int)

  /** What the debugger answers for a variables reference; None when the request fails. */
  type Debuggee = int -> Option<seq<Variable>>

  type Expanded = map<string, seq<Variable>>

  // ---------- which variables are shown ----------

  predicate IsSynthetic(name: string) {
    var trimmed := TrimSpace(name);
    trimmed != "" && (trimmed[0] == '~' || (trimmed[0] == '(' && trimmed[|trimmed| - 1] == ')'))
  }

  /** filterDisplayedLocals: the shown variables, in order. */
  function Visible(locals: seq<Variable>): (shown: seq<Variable>)
    ensures |shown| <= |locals|
  {
    if locals == [] then []
    else
      var init := Visible(locals[..|locals| - 1]);
      if IsSynthetic(locals[|locals| - 1].name) then init else init + [locals[|locals| - 1]]
  }

  /** The shown roots have names; without it a walk from an empty path need not end. */
  predicate NamedRoots(locals: seq<Variable>) {
    forall i :: 0 <= i < |Visible(locals)| ==> Visible(locals)[i].name != ""
  }

  // ---------- paths ----------

  /** joinLocalPath */
  function JoinPath(parent: string, child: string): (path: string)
    ensures parent != "" ==> |path| > |parent|
  {
    if parent == "" then child else parent + ['.'] + child
  }

  function Longer(a: nat, b: nat): nat {
    if a < b then b else a
  }

  /** A length no path of the set exceeds. */
  ghost function Bound(paths: set<string>): (b: nat)
    ensures forall p :: p in paths ==> |p| <= b
  {
    if paths == {} then 0
    else
      var p :| p in paths;
      assert forall q :: q in paths ==> q == p || q in paths - {p};
      Longer(|p|, Bound(paths - {p}))
  }

  /** How far a path is from outgrowing the set. */
  ghost function Room(paths: set<string>, path: string): nat {
    if |path| <= Bound(paths) then Bound(paths) + 1 - |path| else 0
  }

  /** A root may only be walked from a non-empty path, unless the empty path is not in the set:
      extending a non-empty path always makes it longer. */
  predicate Grounded(paths: set<string>, path: string) {
    path != "" || "" !in paths
  }

  predicate AllGrounded(paths: set<string>, roots: seq<Variable>) {
    forall i :: 0 <= i < |roots| ==> Grounded(paths, roots[i].name)
  }

  // ---------- walk 1: collecting children ----------

  /** collectExpandedLocals. It terminates on every graph, cyclic or not: each call extends the path,
      and stops at a path that is not wanted. */
  function Collect(wanted: set<string>, debuggee: Debuggee, expanded: Expanded, local: Variable,
                   path: string): Option<Expanded>
    requires Grounded(wanted, path)
    decreases Room(wanted, path), 1, 0
  {
    if path !in wanted || local.reference <= 0 then Some(expanded)
    else
      match debuggee(local.reference)
      case None => None
      case Some(children) => CollectAll(wanted, debuggee, expanded[path := children], Visible(children), path)
  }

  function CollectAll(wanted: set<string>, debuggee: Debuggee, expanded: Expanded, children: seq<Variable>,
                      parent: string): Option<Expanded>
    requires parent in wanted && parent != ""
    decreases Room(wanted, parent), 0, |children|
  {
    if children == [] then Some(expanded)
    else
      match Collect(wanted, debuggee, expanded, children[0], JoinPath(parent, children[0].name))
      case None => None
      case Some(more) => CollectAll(wanted, debuggee, more, children[1..], parent)
  }

  function CollectRoots(wanted: set<string>, debuggee: Debuggee, expanded: Expanded,
                        roots: seq<Variable>): Option<Expanded>
    requires AllGrounded(wanted, roots)
    decreases |roots|
  {
    if roots == [] then Some(expanded)
    else
      match Collect(wanted, debuggee, expanded, roots[0], roots[0].name)
      case None => None
      case Some(more) => CollectRoots(wanted, debuggee, more, roots[1..])
  }

  // ---------- walk 2: matching a bare name ----------

  datatype Match = Match(path: string, variable: Variable)

  /** collectVisibleLocalMatches */
  function Matches(expanded: Expanded, local: Variable, path: string, name: string): seq<Match>
    requires Grounded(expanded.Keys, path)
    decreases Room(expanded.Keys, path), 1, 0
  {
    var own := if local.name == name then [Match(path, local)] else [];
    if path !in expanded then own
    else own + MatchesIn(expanded, Visible(expanded[path]), path, name)
  }

  function MatchesIn(expanded: Expanded, children: seq<Variable>, parent: string, name: string): seq<Match>
    requires parent in expanded && parent != ""
    decreases Room(expanded.Keys, parent), 0, |children|
  {
    if children == [] then []
    else
      Matches(expanded, children[0], JoinPath(parent, children[0].name), name)
      + MatchesIn(expanded, children[1..], parent, name)
  }

  function RootMatches(expanded: Expanded, roots: seq<Variable>, name: string): seq<Match>
    requires AllGrounded(expanded.Keys, roots)
  {
    if roots == [] then []
    else Matches(expanded, roots[0], roots[0].name, name) + RootMatches(expanded, roots[1..], name)
  }

  // ---------- walk 3: rendering ----------

  /** A rendered line: a variable at some indentation, the count of hidden ones, or what stands for no
      variable to show at all. */
  datatype Line =
    VariableLine(depth: nat, variable: Variable) | HiddenLine(depth: nat, count: int) | NoLocalsLine | NoUserLocalsLine

  function HiddenSummary(depth: nat, count: int): seq<Line> {
    if count == 0 then [] else [HiddenLine(depth, count)]
  }

  /** writeExpandedLocalLines */
  function Lines(expanded: Expanded, local: Variable, path: string, depth: nat): seq<Line>
    requires Grounded(expanded.Keys, path)
    decreases Room(expanded.Keys, path), 1, 0
  {
    if path !in expanded then [VariableLine(depth, local)]
    else
      var shown := Visible(expanded[path]);
      [VariableLine(depth, local)]
      + LinesIn(expanded, shown, path, depth + 1)
      + HiddenSummary(depth + 1, |expanded[path]| - |shown|)
  }

  function LinesIn(expanded: Expanded, children: seq<Variable>, parent: string, depth: nat): seq<Line>
    requires parent in expanded && parent != ""
    decreases Room(expanded.Keys, parent), 0, |children|
  {
    if children == [] then []
    else
      Lines(expanded, children[0], JoinPath(parent, children[0].name), depth)
      + LinesIn(expanded, children[1..], parent, depth)
  }

  function RootLines(expanded: Expanded, roots: seq<Variable>): seq<Line>
    requires AllGrounded(expanded.Keys, roots)
  {
    if roots == [] then []
    else Lines(expanded, roots[0], roots[0].name, 0) + RootLines(expanded, roots[1..])
  }

  /** The locals screen: root lines, or a line in their place, then the count of hidden roots. */
  function Screen(locals: seq<Variable>, expanded: Expanded): seq<Line>
    requires AllGrounded(expanded.Keys, Visible(locals))
  {
    var shown := Visible(locals);
    var hidden := |locals| - |shown|;
    (if shown != [] then RootLines(expanded, shown) else if hidden == 0 then [NoLocalsLine] else [NoUserLocalsLine])
    + HiddenSummary(0, hidden)
  }

  /** The variables on lines that carry a name, top to bottom. */
  function Carrying(lines: seq<Line>, name: string): seq<Variable> {
    if lines == [] then []
    else
      (if lines[0].VariableLine? && lines[0].variable.name == name then [lines[0].variable] else [])
      + Carrying(lines[1..], name)
  }

  function VariablesOf(matches: seq<Match>): (vs: seq<Variable>)
    ensures |vs| == |matches|
    ensures forall i :: 0 <= i < |vs| ==> vs[i] == matches[i].variable
  {
    seq(|matches|, i requires 0 <= i < |matches| => matches[i].variable)
  }

  // ---------- matching and rendering agree ----------

  lemma {:induction false} CarryingSplit(a: seq<Line>, b: seq<Line>, name: string)
    ensures Carrying(a + b, name) == Carrying(a, name) + Carrying(b, name)
  {
    if a == [] {
      assert a + b == b;
    } else {
      assert (a + b)[1..] == a[1..] + b;
      CarryingSplit(a[1..], b, name);
    }
  }

  lemma HiddenCarriesNothing(depth: nat, count: int, name: string)
    ensures Carrying(HiddenSummary(depth, count), name) == []
  {
  }

  lemma PlaceholderCarriesNothing(line: Line, name: string)
    requires !line.VariableLine?
    ensures Carrying([line], name) == []
  {
    assert [line][1..] == [];
  }

  lemma VariablesSplit(a: seq<Match>, b: seq<Match>)
    ensures VariablesOf(a + b) == VariablesOf(a) + VariablesOf(b)
  {
  }

  lemma OwnLine(local: Variable, path: string, name: string, depth: nat)
    ensures VariablesOf(if local.name == name then [Match(path, local)] else [])
              == Carrying([VariableLine(depth, local)], name)
  {
  }

  lemma {:induction false} MatchesAreLines(expanded: Expanded, local: Variable, path: string, name: string, depth: nat)
    requires Grounded(expanded.Keys, path)
    ensures VariablesOf(Matches(expanded, local, path, name)) == Carrying(Lines(expanded, local, path, depth), name)
    decreases Room(expanded.Keys, path), 1, 0
  {
    hide Carrying, Visible;
    var line := [VariableLine(depth, local)];
    var own := if local.name == name then [Match(path, local)] else [];
    OwnLine(local, path, name, depth);
    if path in expanded {
      var shown := Visible(expanded[path]);
      var inner := LinesIn(expanded, shown, path, depth + 1);
      var hidden := HiddenSummary(depth + 1, |expanded[path]| - |shown|);
      MatchesInAreLines(expanded, shown, path, name, depth + 1);
      CarryingSplit(line + inner, hidden, name);
      CarryingSplit(line, inner, name);
      HiddenCarriesNothing(depth + 1, |expanded[path]| - |shown|, name);
      VariablesSplit(own, MatchesIn(expanded, shown, path, name));
    }
  }

  lemma {:induction false} MatchesInAreLines(expanded: Expanded, children: seq<Variable>, parent: string,
                                             name: string, depth: nat)
    requires parent in expanded && parent != ""
    ensures VariablesOf(MatchesIn(expanded, children, parent, name))
              == Carrying(LinesIn(expanded, children, parent, depth), name)
    decreases Room(expanded.Keys, parent), 0, |children|
  {
    if children != [] {
      var path := JoinPath(parent, children[0].name);
      MatchesAreLines(expanded, children[0], path, name, depth);
      MatchesInAreLines(expanded, children[1..], parent, name, depth);
      CarryingSplit(Lines(expanded, children[0], path, depth), LinesIn(expanded, children[1..], parent, depth), name);
      VariablesSplit(Matches(expanded, children[0], path, name), MatchesIn(expanded, children[1..], parent, name));
    }
  }

  lemma {:induction false} RootMatchesAreLines(expanded: Expanded, roots: seq<Variable>, name: string)
    requires AllGrounded(expanded.Keys, roots)
    ensures VariablesOf(RootMatches(expanded, roots, name)) == Carrying(RootLines(expanded, roots), name)
  {
    if roots != [] {
      MatchesAreLines(expanded, roots[0], roots[0].name, name, 0);
      RootMatchesAreLines(expanded, roots[1..], name);
      CarryingSplit(Lines(expanded, roots[0], roots[0].name, 0), RootLines(expanded, roots[1..]), name);
      VariablesSplit(Matches(expanded, roots[0], roots[0].name, name), RootMatches(expanded, roots[1..], name));
    }
  }

  datatype Resolution = Unknown | Resolved(path: string, variable: Variable) | Ambiguous(paths: seq<string>)

  /** resolveLocalPath for a name without dots. */
  function ResolveBare(locals: seq<Variable>, expanded: Expanded, name: string): Resolution
    requires AllGrounded(expanded.Keys, Visible(locals))
  {
    var matches := RootMatches(expanded, Visible(locals), name);
    if |matches| == 0 then Unknown
    else if |matches| == 1 then Resolved(matches[0].path, matches[0].variable)
    else Ambiguous(seq(|matches|, i requires 0 <= i < |matches| => matches[i].path))
  }

  /** The matches are exactly the screen's lines that carry the name, top to bottom: a bare name
      resolves iff exactly one line carries it, to that line's variable; it is unknown iff none does,
      and ambiguous, with one path per line, iff several do. */
  lemma BareNameAgreesWithScreen(locals: seq<Variable>, expanded: Expanded, name: string)
    requires AllGrounded(expanded.Keys, Visible(locals))
    ensures var shown := Carrying(Screen(locals, expanded), name);
            match ResolveBare(locals, expanded, name)
            case Unknown => shown == []
            case Resolved(_, v) => shown == [v]
            case Ambiguous(paths) => |shown| == |paths| > 1
  {
    hide Carrying, Visible, Matches;
    var roots := Visible(locals);
    RootMatchesAreLines(expanded, roots, name);
    var hidden := |locals| - |roots|;
    HiddenCarriesNothing(0, hidden, name);
    if roots != [] {
      CarryingSplit(RootLines(expanded, roots), HiddenSummary(0, hidden), name);
    } else {
      var none := [if hidden == 0 then NoLocalsLine else NoUserLocalsLine];
      CarryingSplit(none, HiddenSummary(0, hidden), name);
      PlaceholderCarriesNothing(none[0], name);
    }
  }

  // ---------- the collected map ----------

  lemma {:induction false} CollectGrows(wanted: set<string>, debuggee: Debuggee, expanded: Expanded, local: Variable,
                                        path: string)
    requires Grounded(wanted, path)
    ensures var r := Collect(wanted, debuggee, expanded, local, path);
            r.Some? ==> expanded.Keys <= r.value.Keys <= expanded.Keys + wanted
    decreases Room(wanted, path), 1, 0
  {
    if path in wanted && local.reference > 0 && debuggee(local.reference).Some? {
      var children := debuggee(local.reference).value;
      CollectAllGrows(wanted, debuggee, expanded[path := children], Visible(children), path);
    }
  }

  lemma {:induction false} CollectAllGrows(wanted: set<string>, debuggee: Debuggee, expanded: Expanded,
                                           children: seq<Variable>, parent: string)
    requires parent in wanted && parent != ""
    ensures var r := CollectAll(wanted, debuggee, expanded, children, parent);
            r.Some? ==> expanded.Keys <= r.value.Keys <= expanded.Keys + wanted
    decreases Room(wanted, parent), 0, |children|
  {
    if children != [] {
      var path := JoinPath(parent, children[0].name);
      CollectGrows(wanted, debuggee, expanded, children[0], path);
      var r := Collect(wanted, debuggee, expanded, children[0], path);
      if r.Some? {
        CollectAllGrows(wanted, debuggee, r.value, children[1..], parent);
      }
    }
  }

  /** Only wanted paths are written, so the map's walks are grounded wherever the collecting one was. */
  lemma {:induction false} RootsGrow(wanted: set<string>, debuggee: Debuggee, expanded: Expanded, roots: seq<Variable>)
    requires AllGrounded(wanted, roots)
    ensures var r := CollectRoots(wanted, debuggee, expanded, roots);
            r.Some? ==> expanded.Keys <= r.value.Keys <= expanded.Keys + wanted
    decreases |roots|
  {
    if roots != [] {
      CollectGrows(wanted, debuggee, expanded, roots[0], roots[0].name);
      var r := Collect(wanted, debuggee, expanded, roots[0], roots[0].name);
      if r.Some? {
        RootsGrow(wanted, debuggee, r.value, roots[1..]);
      }
    }
  }

  // ---------- chains of variables ----------

  /** The path reached from `path` by going down the variables of `rest`. */
  function PathAlong(path: string, rest: seq<Variable>): string
    decreases |rest|
  {
    if rest == [] then path else PathAlong(JoinPath(path, rest[0].name), rest[1..])
  }

  /** `rest` goes down from `v` at `path` along shown children, through expandable variables
      at wanted paths only, its last variable included. */
  ghost predicate Descends(wanted: set<string>, debuggee: Debuggee, v: Variable, path: string, rest: seq<Variable>)
    decreases |rest|
  {
    && path in wanted && v.reference > 0
    && (rest != [] ==>
          && debuggee(v.reference).Some?
          && rest[0] in Visible(debuggee(v.reference).value)
          && Descends(wanted, debuggee, rest[0], JoinPath(path, rest[0].name), rest[1..]))
  }

  /** A whole chain, from a root on. */
  ghost predicate Chain(wanted: set<string>, debuggee: Debuggee, roots: seq<Variable>, chain: seq<Variable>) {
    && chain != [] && chain[0] in roots
    && Descends(wanted, debuggee, chain[0], chain[0].name, chain[1..])
  }

  function ChainPath(chain: seq<Variable>): string
    requires chain != []
  {
    PathAlong(chain[0].name, chain[1..])
  }

  lemma {:induction false} CollectFinds(wanted: set<string>, debuggee: Debuggee, expanded: Expanded, v: Variable,
                                        path: string, rest: seq<Variable>)
    requires Grounded(wanted, path) && Descends(wanted, debuggee, v, path, rest)
    ensures var r := Collect(wanted, debuggee, expanded, v, path);
            r.Some? ==> PathAlong(path, rest) in r.value
    decreases |rest|, 0, 1
  {
    CollectGrows(wanted, debuggee, expanded, v, path);
    if debuggee(v.reference).Some? {
      var children := debuggee(v.reference).value;
      CollectAllGrows(wanted, debuggee, expanded[path := children], Visible(children), path);
      if rest != [] {
        CollectAllFinds(wanted, debuggee, expanded[path := children], Visible(children), path, rest);
      }
    }
  }

  lemma {:induction false} CollectAllFinds(wanted: set<string>, debuggee: Debuggee, expanded: Expanded,
                                           children: seq<Variable>, parent: string, rest: seq<Variable>)
    requires parent in wanted && parent != "" && rest != [] && rest[0] in children
    requires Descends(wanted, debuggee, rest[0], JoinPath(parent, rest[0].name), rest[1..])
    ensures var r := CollectAll(wanted, debuggee, expanded, children, parent);
            r.Some? ==> PathAlong(parent, rest) in r.value
    decreases |rest| - 1, 1, |children|
  {
    var path := JoinPath(parent, children[0].name);
    var r := Collect(wanted, debuggee, expanded, children[0], path);
    if r.Some? {
      CollectAllGrows(wanted, debuggee, r.value, children[1..], parent);
      if children[0] == rest[0] {
        CollectFinds(wanted, debuggee, expanded, rest[0], path, rest[1..]);
      } else {
        assert rest[0] in children[1..];
        CollectAllFinds(wanted, debuggee, r.value, children[1..], parent, rest);
      }
    }
  }

  /** Collecting from the roots expands the end of every chain. */
  lemma {:induction false} RootsFind(wanted: set<string>, debuggee: Debuggee, expanded: Expanded,
                                     roots: seq<Variable>, chain: seq<Variable>)
    requires AllGrounded(wanted, roots) && Chain(wanted, debuggee, roots, chain)
    ensures var r := CollectRoots(wanted, debuggee, expanded, roots);
            r.Some? ==> ChainPath(chain) in r.value
    decreases |roots|
  {
    var r := Collect(wanted, debuggee, expanded, roots[0], roots[0].name);
    if r.Some? {
      RootsGrow(wanted, debuggee, r.value, roots[1..]);
      if roots[0] == chain[0] {
        CollectFinds(wanted, debuggee, expanded, chain[0], chain[0].name, chain[1..]);
      } else {
        assert chain[0] in roots[1..];
        RootsFind(wanted, debuggee, r.value, roots[1..], chain);
      }
    }
  }

  lemma {:induction false} DescendSnoc(wanted: set<string>, debuggee: Debuggee, v: Variable, path: string,
                                       rest: seq<Variable>, next: Variable)
    requires Descends(wanted, debuggee, v, path, rest)
    requires var last := ([v] + rest)[|rest|];
             debuggee(last.reference).Some? && next in Visible(debuggee(last.reference).value)
    requires next.reference > 0 && JoinPath(PathAlong(path, rest), next.name) in wanted
    ensures Descends(wanted, debuggee, v, path, rest + [next])
    ensures PathAlong(path, rest + [next]) == JoinPath(PathAlong(path, rest), next.name)
    decreases |rest|
  {
    if rest == [] {
      assert [] + [next] == [next];
    } else {
      assert ([rest[0]] + rest[1..])[|rest| - 1] == ([v] + rest)[|rest|];
      DescendSnoc(wanted, debuggee, rest[0], JoinPath(path, rest[0].name), rest[1..], next);
      assert (rest + [next])[1..] == rest[1..] + [next];
    }
  }

  /** `v` is a root, or a shown child of the end of the chain `front`. */
  ghost predicate Leads(wanted: set<string>, debuggee: Debuggee, roots: seq<Variable>, front: seq<Variable>,
                        v: Variable) {
    if front == [] then v in roots
    else
      var last := front[|front| - 1];
      Chain(wanted, debuggee, roots, front) && debuggee(last.reference).Some? &&
        v in Visible(debuggee(last.reference).value)
  }

  function LeadPath(front: seq<Variable>, v: Variable): string {
    if front == [] then v.name else JoinPath(ChainPath(front), v.name)
  }

  /** One more expandable variable at a wanted path makes a longer chain. */
  lemma ChainSnoc(wanted: set<string>, debuggee: Debuggee, roots: seq<Variable>, front: seq<Variable>, v: Variable)
    requires Leads(wanted, debuggee, roots, front, v) && v.reference > 0 && LeadPath(front, v) in wanted
    ensures Chain(wanted, debuggee, roots, front + [v]) && ChainPath(front + [v]) == LeadPath(front, v)
  {
    if front == [] {
      assert front + [v] == [v];
    } else {
      assert [front[0]] + front[1..] == front;
      DescendSnoc(wanted, debuggee, front[0], front[0].name, front[1..], v);
      assert (front + [v])[1..] == front[1..] + [v];
    }
  }

  lemma {:induction false} DescendsMore(wanted: set<string>, more: set<string>, debuggee: Debuggee, v: Variable,
                                        path: string, rest: seq<Variable>)
    requires wanted <= more && Descends(wanted, debuggee, v, path, rest)
    ensures Descends(more, debuggee, v, path, rest)
    decreases |rest|
  {
    if rest != [] {
      DescendsMore(wanted, more, debuggee, rest[0], JoinPath(path, rest[0].name), rest[1..]);
    }
  }

  /** `chain` accounts for key `k`: the map holds the children of the chain's last variable there. */
  ghost predicate Accounts(wanted: set<string>, debuggee: Debuggee, roots: seq<Variable>, expanded: Expanded,
                           k: string, chain: seq<Variable>)
    requires k in expanded
  {
    && Chain(wanted, debuggee, roots, chain) && ChainPath(chain) == k
    && debuggee(chain[|chain| - 1].reference) == Some(expanded[k])
  }

  ghost predicate Justified(wanted: set<string>, debuggee: Debuggee, roots: seq<Variable>, expanded: Expanded) {
    forall k :: k in expanded ==> exists chain :: Accounts(wanted, debuggee, roots, expanded, k, chain)
  }

  lemma JustifiedUpdate(wanted: set<string>, debuggee: Debuggee, roots: seq<Variable>, expanded: Expanded,
                        path: string, chain: seq<Variable>, children: seq<Variable>)
    requires Justified(wanted, debuggee, roots, expanded)
    requires Chain(wanted, debuggee, roots, chain) && ChainPath(chain) == path
    requires debuggee(chain[|chain| - 1].reference) == Some(children)
    ensures Justified(wanted, debuggee, roots, expanded[path := children])
  {
    var more := expanded[path := children];
    forall k | k in more
      ensures exists chain :: Accounts(wanted, debuggee, roots, more, k, chain)
    {
      if k == path {
        assert Accounts(wanted, debuggee, roots, more, k, chain);
      } else {
        var c :| Accounts(wanted, debuggee, roots, expanded, k, c);
        assert Accounts(wanted, debuggee, roots, more, k, c);
      }
    }
  }

  /** Every list the collecting walk stores belongs to a variable it reached by a chain. */
  lemma {:induction false} CollectIsJustified(wanted: set<string>, debuggee: Debuggee, roots: seq<Variable>,
                                              expanded: Expanded, front: seq<Variable>, v: Variable)
    requires Grounded(wanted, LeadPath(front, v)) && Leads(wanted, debuggee, roots, front, v)
    requires Justified(wanted, debuggee, roots, expanded)
    ensures var r := Collect(wanted, debuggee, expanded, v, LeadPath(front, v));
            r.Some? ==> Justified(wanted, debuggee, roots, r.value)
    decreases Room(wanted, LeadPath(front, v)), 1, 0
  {
    var path := LeadPath(front, v);
    if path in wanted && v.reference > 0 && debuggee(v.reference).Some? {
      var children := debuggee(v.reference).value;
      ChainSnoc(wanted, debuggee, roots, front, v);
      JustifiedUpdate(wanted, debuggee, roots, expanded, path, front + [v], children);
      CollectAllIsJustified(wanted, debuggee, roots, expanded[path := children], front + [v], Visible(children));
    }
  }

  lemma {:induction false} CollectAllIsJustified(wanted: set<string>, debuggee: Debuggee, roots: seq<Variable>,
                                                 expanded: Expanded, front: seq<Variable>, children: seq<Variable>)
    requires front != [] && ChainPath(front) in wanted && ChainPath(front) != ""
    requires forall i :: 0 <= i < |children| ==> Leads(wanted, debuggee, roots, front, children[i])
    requires Justified(wanted, debuggee, roots, expanded)
    ensures var r := CollectAll(wanted, debuggee, expanded, children, ChainPath(front));
            r.Some? ==> Justified(wanted, debuggee, roots, r.value)
    decreases Room(wanted, ChainPath(front)), 0, |children|
  {
    if children != [] {
      CollectIsJustified(wanted, debuggee, roots, expanded, front, children[0]);
      var r := Collect(wanted, debuggee, expanded, children[0], LeadPath(front, children[0]));
      if r.Some? {
        CollectAllIsJustified(wanted, debuggee, roots, r.value, front, children[1..]);
      }
    }
  }

  lemma {:induction false} RootsAreJustified(wanted: set<string>, debuggee: Debuggee, all: seq<Variable>,
                                             expanded: Expanded, roots: seq<Variable>)
    requires AllGrounded(wanted, roots) && forall i :: 0 <= i < |roots| ==> roots[i] in all
    requires Justified(wanted, debuggee, all, expanded)
    ensures var r := CollectRoots(wanted, debuggee, expanded, roots);
            r.Some? ==> Justified(wanted, debuggee, all, r.value)
    decreases |roots|
  {
    if roots != [] {
      CollectIsJustified(wanted, debuggee, all, expanded, [], roots[0]);
      var r := Collect(wanted, debuggee, expanded, roots[0], roots[0].name);
      if r.Some? {
        RootsAreJustified(wanted, debuggee, all, r.value, roots[1..]);
      }
    }
  }

  // ---------- a match is at the end of a chain ----------

  /** Some chain leads to the matched variable, at the matched path. */
  ghost predicate Reached(wanted: set<string>, debuggee: Debuggee, roots: seq<Variable>, m: Match) {
    exists front :: Leads(wanted, debuggee, roots, front, m.variable) && LeadPath(front, m.variable) == m.path
  }

  ghost predicate AllReached(wanted: set<string>, debuggee: Debuggee, roots: seq<Variable>, ms: seq<Match>) {
    forall i :: 0 <= i < |ms| ==> Reached(wanted, debuggee, roots, ms[i])
  }

  lemma {:induction false} MatchesAreReached(wanted: set<string>, debuggee: Debuggee, roots: seq<Variable>,
                                             expanded: Expanded, local: Variable, path: string, name: string)
    requires Grounded(expanded.Keys, path) && Justified(wanted, debuggee, roots, expanded)
    requires Reached(wanted, debuggee, roots, Match(path, local))
    ensures AllReached(wanted, debuggee, roots, Matches(expanded, local, path, name))
    decreases Room(expanded.Keys, path), 1, 0
  {
    if path in expanded {
      MatchesInAreReached(wanted, debuggee, roots, expanded, Visible(expanded[path]), path, name);
    }
  }

  lemma {:induction false} MatchesInAreReached(wanted: set<string>, debuggee: Debuggee, roots: seq<Variable>,
                                               expanded: Expanded, children: seq<Variable>, parent: string,
                                               name: string)
    requires parent in expanded && parent != "" && Justified(wanted, debuggee, roots, expanded)
    requires forall i :: 0 <= i < |children| ==> children[i] in Visible(expanded[parent])
    ensures AllReached(wanted, debuggee, roots, MatchesIn(expanded, children, parent, name))
    decreases Room(expanded.Keys, parent), 0, |children|
  {
    if children != [] {
      var path := JoinPath(parent, children[0].name);
      var chain :| Accounts(wanted, debuggee, roots, expanded, parent, chain);
      assert Leads(wanted, debuggee, roots, chain, children[0]) && LeadPath(chain, children[0]) == path;
      MatchesAreReached(wanted, debuggee, roots, expanded, children[0], path, name);
      MatchesInAreReached(wanted, debuggee, roots, expanded, children[1..], parent, name);
    }
  }

  lemma {:induction false} RootMatchesAreReached(wanted: set<string>, debuggee: Debuggee, all: seq<Variable>,
                                                 expanded: Expanded, roots: seq<Variable>, name: string)
    requires AllGrounded(expanded.Keys, roots) && Justified(wanted, debuggee, all, expanded)
    requires forall i :: 0 <= i < |roots| ==> roots[i] in all
    ensures AllReached(wanted, debuggee, all, RootMatches(expanded, roots, name))
    decreases |roots|
  {
    if roots != [] {
      assert Leads(wanted, debuggee, all, [], roots[0]);
      assert LeadPath([], roots[0]) == roots[0].name;
      MatchesAreReached(wanted, debuggee, all, expanded, roots[0], roots[0].name, name);
      RootMatchesAreReached(wanted, debuggee, all, expanded, roots[1..], name);
    }
  }

  // ---------- in plain terms ----------

  /** A variable the debugger made up: its name begins with a tilde or stands in parentheses. */
  predicate MadeUp(v: Variable) {
    var name := TrimSpace(v.name);
    name != "" && (name[0] == '~' || (name[0] == '(' && name[|name| - 1] == ')'))
  }

  /** The other variables are shown, each as often as it is there, and in their order. */
  lemma {:induction false} VisibleConcat(a: seq<Variable>, b: seq<Variable>)
    ensures Visible(a + b) == Visible(a) + Visible(b)
    decreases |b|
  {
    if b == [] {
      assert a + b == a;
    } else {
      var init := b[..|b| - 1];
      assert (a + b)[..|a + b| - 1] == a + init;
      VisibleConcat(a, init);
    }
  }

  lemma VisibleOne(v: Variable)
    ensures Visible([v]) == if MadeUp(v) then [] else [v]
  {
    assert [v][..0] == [];
  }

  lemma {:induction false} VisibleAreTheOthers(locals: seq<Variable>, v: Variable)
    ensures v in Visible(locals) <==> v in locals && !MadeUp(v)
  {
    hide TrimSpace;
    if locals != [] {
      var init, last := locals[..|locals| - 1], locals[|locals| - 1];
      VisibleAreTheOthers(init, v);
      assert locals == init + [last];
    }
  }

  /** A screen with nothing expanded: one line for each shown root, or one in their place, and the number of
      hidden ones when there are any. */
  lemma {:induction false} FlatScreen(locals: seq<Variable>)
    ensures var shown := Visible(locals);
            var screen := Screen(locals, map[]);
            var n := if shown == [] then 1 else |shown|;
            && |screen| == (if |shown| == |locals| then n else n + 1)
            && (shown == [] ==> screen[0] == if locals == [] then NoLocalsLine else NoUserLocalsLine)
            && (forall i :: 0 <= i < |shown| ==> screen[i] == VariableLine(0, shown[i]))
            && (|shown| < |locals| ==> screen[n] == HiddenLine(0, |locals| - |shown|))
  {
    FlatRoots(Visible(locals));
  }

  lemma {:induction false} FlatRoots(roots: seq<Variable>)
    ensures var none: Expanded := map[];
            && |RootLines(none, roots)| == |roots|
            && forall i :: 0 <= i < |roots| ==> RootLines(none, roots)[i] == VariableLine(0, roots[i])
  {
    if roots != [] {
      FlatRoots(roots[1..]);
    }
  }
}
