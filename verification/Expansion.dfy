/** Asking for an expansion: how a name becomes a path, what is remembered of it,
    and that the path asked for is then among the expanded ones. */
module Expansion {
  import opened GoStrings
  import opened Locals

  // ---------- remembered paths ----------

  /** Every dot-prefix of a path, the path included. */
  function Prefixes(path: string): set<string> {
    var parts := Split(path, '.');
    PrefixesUpTo(parts, |parts|)
  }

  /** The paths of the first one, two, ... up to n segments. */
  function PrefixesUpTo(parts: seq<string>, n: nat): set<string>
    requires n <= |parts|
  {
    set i | 1 <= i <= n :: Join(parts[..i], '.')
  }

  lemma NoPrefixes(parts: seq<string>)
    ensures PrefixesUpTo(parts, 0) == {}
  {
  }

  lemma OneMorePrefix(parts: seq<string>, n: nat)
    requires 1 <= n <= |parts|
    ensures PrefixesUpTo(parts, n) == PrefixesUpTo(parts, n - 1) + {Join(parts[..n], '.')}
  {
    hide Join;
  }

  /** rememberExpandedLocalPath */
  function Remember(wanted: set<string>, path: string): set<string> {
    if path == "" then wanted else wanted + Prefixes(path)
  }

  ghost predicate PrefixClosed(wanted: set<string>) {
    forall w :: w in wanted ==> Prefixes(w) <= wanted
  }

  lemma PathIsItsOwnPrefix(path: string)
    ensures path in Prefixes(path)
  {
    var parts := Split(path, '.');
    JoinOfSplit(path, '.');
    assert parts[..|parts|] == parts;
  }

  lemma PrefixOfPrefix(path: string, w: string)
    requires w in Prefixes(path)
    ensures Prefixes(w) <= Prefixes(path)
  {
    var parts := Split(path, '.');
    var i :| 1 <= i <= |parts| && w == Join(parts[..i], '.');
    NoSeparatorInside(path, '.');
    forall p | p in parts[..i]
      ensures '.' !in p
    {
      assert p in parts;
    }
    SplitOfJoin(parts[..i], '.');
    forall x | x in Prefixes(w)
      ensures x in Prefixes(path)
    {
      var j :| 1 <= j <= i && x == Join(parts[..i][..j], '.');
      assert parts[..i][..j] == parts[..j];
    }
  }

  /** Remembering a path keeps the wanted set closed under dot-prefixes, and covers the path. */
  lemma RememberKeepsClosed(wanted: set<string>, path: string)
    requires PrefixClosed(wanted)
    ensures PrefixClosed(Remember(wanted, path))
    ensures path != "" ==> path in Remember(wanted, path)
  {
    PathIsItsOwnPrefix(path);
    forall w | w in Remember(wanted, path)
      ensures Prefixes(w) <= Remember(wanted, path)
    {
      if path != "" && w in Prefixes(path) {
        PrefixOfPrefix(path, w);
      }
    }
  }

  /** The dot-prefixes of a path are its beginnings up to a dot, and the path. */
  lemma PrefixMeans(path: string, x: string)
    ensures x in Prefixes(path) <==> x <= path && (x == path || path[|x|] == '.')
  {
    hide Split, Join;
    var parts := Split(path, '.');
    JoinOfSplit(path, '.');
    PathIsItsOwnPrefix(path);
    if x in Prefixes(path) && x != path {
      var i :| 1 <= i <= |parts| && x == Join(parts[..i], '.');
      assert parts[..|parts|] == parts;
      JoinSides(parts[..i], parts[i..], '.');
      assert parts[..i] + parts[i..] == parts;
    }
    if x < path && path[|x|] == '.' {
      var rest := path[|x| + 1..];
      assert path == x + ['.'] + rest;
      SplitSides(x, '.', rest);
      JoinOfSplit(x, '.');
      assert parts[..|Split(x, '.')|] == Split(x, '.');
    }
  }

  /** Remembering a path keeps what was wanted, and adds the path and its beginnings up to a dot. */
  lemma RememberMeans(wanted: set<string>, path: string)
    ensures wanted <= Remember(wanted, path)
    ensures forall x :: x in Remember(wanted, path) <==>
                        x in wanted || (path != "" && x <= path && (x == path || path[|x|] == '.'))
  {
    hide Prefixes;
    forall x
      ensures x in Remember(wanted, path) <==>
              x in wanted || (path != "" && x <= path && (x == path || path[|x|] == '.'))
    {
      PrefixMeans(path, x);
    }
  }

  // ---------- names with dots ----------

  datatype Walk = Found(path: string, variable: Variable) | NoSuch | ChildrenFailed(path: string)

  /** findLocalByName */
  function FirstNamed(vs: seq<Variable>, name: string): (r: Option<Variable>)
    ensures r.Some? ==> r.value in vs && r.value.name == name
  {
    if vs == [] then None else if vs[0].name == name then Some(vs[0]) else FirstNamed(vs[1..], name)
  }

  /** The loop of resolveLocalPathBySegments over the remaining segments. */
  function WalkSegments(debuggee: Debuggee, current: Variable, path: string, parts: seq<string>): Walk
    decreases |parts|
  {
    if parts == [] then Found(path, current)
    else if !current.hasChildren || current.reference <= 0 then NoSuch
    else
      match debuggee(current.reference)
      case None => ChildrenFailed(path)
      case Some(children) =>
        match FirstNamed(Visible(children), parts[0])
        case None => NoSuch
        case Some(next) => WalkSegments(debuggee, next, JoinPath(path, next.name), parts[1..])
  }

  function ResolveSegments(debuggee: Debuggee, locals: seq<Variable>, name: string): Walk {
    var parts := Split(name, '.');
    match FirstNamed(Visible(locals), parts[0])
    case None => NoSuch
    case Some(root) => WalkSegments(debuggee, root, root.name, parts[1..])
  }

  /** Every path a walk passes, from the segments already taken over the remaining ones, is wanted. */
  ghost predicate AllWanted(wanted: set<string>, taken: seq<string>, parts: seq<string>)
    decreases |parts|
  {
    && Join(taken, '.') in wanted
    && (parts != [] ==> AllWanted(wanted, taken + [parts[0]], parts[1..]))
  }

  lemma {:induction false} PrefixesAreWanted(wanted: set<string>, name: string, taken: seq<string>, parts: seq<string>)
    requires Prefixes(name) <= wanted && taken != [] && taken + parts == Split(name, '.')
    ensures AllWanted(wanted, taken, parts)
    decreases |parts|
  {
    assert Split(name, '.')[..|taken|] == taken;
    assert Join(taken, '.') in Prefixes(name);
    if parts != [] {
      assert taken + [parts[0]] + parts[1..] == taken + parts;
      PrefixesAreWanted(wanted, name, taken + [parts[0]], parts[1..]);
    }
  }

  /** A walk that finds an expandable variable goes down a chain, when every path on its way is wanted. */
  lemma {:induction false} WalkDescends(wanted: set<string>, debuggee: Debuggee, v: Variable, taken: seq<string>,
                                        parts: seq<string>)
    returns (rest: seq<Variable>)
    requires taken != [] && Join(taken, '.') != "" && AllWanted(wanted, taken, parts)
    requires var r := WalkSegments(debuggee, v, Join(taken, '.'), parts); r.Found? && r.variable.reference > 0
    ensures Descends(wanted, debuggee, v, Join(taken, '.'), rest)
    ensures ([v] + rest)[|rest|] == WalkSegments(debuggee, v, Join(taken, '.'), parts).variable
    ensures PathAlong(Join(taken, '.'), rest) == WalkSegments(debuggee, v, Join(taken, '.'), parts).path
              == Join(taken + parts, '.')
    decreases |parts|
  {
    hide Visible, FirstNamed, Join;
    if parts == [] {
      assert taken + parts == taken;
      rest := [];
    } else {
      var next := FirstNamed(Visible(debuggee(v.reference).value), parts[0]).value;
      JoinSnoc(taken, parts[0], '.');
      assert taken + [parts[0]] + parts[1..] == taken + parts;
      var tail := WalkDescends(wanted, debuggee, next, taken + [parts[0]], parts[1..]);
      rest := [next] + tail;
      assert rest[1..] == tail && ([v] + rest)[|rest|] == ([next] + tail)[|tail|];
    }
  }

  // ---------- the expansion shows ----------

  /** expandedLocals: what the collecting walk stores for the wanted paths. */
  function ExpandedFor(wanted: set<string>, debuggee: Debuggee, locals: seq<Variable>): Option<Expanded>
    requires NamedRoots(locals)
  {
    CollectRoots(wanted, debuggee, map[], Visible(locals))
  }

  /** A chain of shown variables that ends at this path with this variable. */
  ghost predicate EndsAt(wanted: set<string>, debuggee: Debuggee, locals: seq<Variable>, chain: seq<Variable>,
                         path: string, v: Variable) {
    Chain(wanted, debuggee, Visible(locals), chain) && ChainPath(chain) == path && chain[|chain| - 1] == v
  }

  /** Resolving a dotted name yields that very name as the path; and once it is remembered,
      every collection that succeeds has it as a key. */
  lemma SegmentsAreEffective(wanted: set<string>, debuggee: Debuggee, locals: seq<Variable>, name: string)
    returns (chain: seq<Variable>)
    requires NamedRoots(locals)
    requires var r := ResolveSegments(debuggee, locals, name); r.Found? && r.variable.reference > 0
    ensures ResolveSegments(debuggee, locals, name).path == name
    ensures EndsAt(Remember(wanted, name), debuggee, locals, chain, name,
                   ResolveSegments(debuggee, locals, name).variable)
    ensures var r := ExpandedFor(Remember(wanted, name), debuggee, locals); r.Some? ==> name in r.value
  {
    var parts := Split(name, '.');
    var root := FirstNamed(Visible(locals), parts[0]).value;
    var more := Remember(wanted, name);
    JoinOfSplit(name, '.');
    assert [parts[0]] + parts[1..] == parts;
    assert root.name != "" by {
      var i :| 0 <= i < |Visible(locals)| && Visible(locals)[i] == root;
    }
    assert name != "" by {
      if |parts| == 1 {
        assert parts == [parts[0]];
      }
    }
    PrefixesAreWanted(more, name, [parts[0]], parts[1..]);
    var rest := WalkDescends(more, debuggee, root, [parts[0]], parts[1..]);
    chain := [root] + rest;
    assert chain[1..] == rest;
    assert Chain(more, debuggee, Visible(locals), chain);
    RootsFind(more, debuggee, map[], Visible(locals), chain);
  }

  /** A bare name that resolves on the screen to an expandable variable: once its path is remembered,
      every collection that succeeds has the path as a key. */
  lemma BareNameIsEffective(wanted: set<string>, debuggee: Debuggee, locals: seq<Variable>, expanded: Expanded,
                            name: string)
    returns (chain: seq<Variable>)
    requires NamedRoots(locals) && name != ""
    requires ExpandedFor(wanted, debuggee, locals) == Some(expanded)
    requires var r := ResolveBare(locals, expanded, name); r.Resolved? && r.variable.reference > 0
    ensures var r := ResolveBare(locals, expanded, name);
            EndsAt(Remember(wanted, r.path), debuggee, locals, chain, r.path, r.variable)
    ensures var path := ResolveBare(locals, expanded, name).path;
            var r := ExpandedFor(Remember(wanted, path), debuggee, locals);
            r.Some? ==> path in r.value
  {
    var roots := Visible(locals);
    var found := ResolveBare(locals, expanded, name);
    var more := Remember(wanted, found.path);
    var m := Match(found.path, found.variable);
    BareNameAgreesWithScreen(locals, expanded, name);
    assert Justified(wanted, debuggee, roots, map[]);
    RootsAreJustified(wanted, debuggee, roots, map[], roots);
    RootMatchesAreReached(wanted, debuggee, roots, expanded, roots, name);
    assert RootMatches(expanded, roots, name)[0] == m;
    var front :| Leads(wanted, debuggee, roots, front, m.variable) && LeadPath(front, m.variable) == m.path;
    NamedMatch(expanded, roots, name, 0);
    PathIsItsOwnPrefix(m.path);
    LeadsMore(wanted, more, debuggee, roots, front, m.variable);
    ChainSnoc(more, debuggee, roots, front, m.variable);
    chain := front + [m.variable];
    RootsFind(more, debuggee, map[], roots, chain);
  }

  lemma LeadsMore(wanted: set<string>, more: set<string>, debuggee: Debuggee, roots: seq<Variable>,
                  front: seq<Variable>, v: Variable)
    requires wanted <= more && Leads(wanted, debuggee, roots, front, v)
    ensures Leads(more, debuggee, roots, front, v)
  {
    if front != [] {
      DescendsMore(wanted, more, debuggee, front[0], front[0].name, front[1..]);
    }
  }

  /** A match carries the name asked for. */
  lemma NamedMatch(expanded: Expanded, roots: seq<Variable>, name: string, i: nat)
    requires AllGrounded(expanded.Keys, roots) && i < |RootMatches(expanded, roots, name)|
    ensures RootMatches(expanded, roots, name)[i].variable.name == name
  {
    RootMatchesAreLines(expanded, roots, name);
    CarryingNames(RootLines(expanded, roots), name, i);
  }

  lemma {:induction false} CarryingNames(lines: seq<Line>, name: string, i: nat)
    requires i < |Carrying(lines, name)|
    ensures Carrying(lines, name)[i].name == name
  {
    var own := lines[0].VariableLine? && lines[0].variable.name == name;
    if !own {
      CarryingNames(lines[1..], name, i);
    } else if i > 0 {
      CarryingNames(lines[1..], name, i - 1);
    }
  }

  // ---------- in plain terms ----------

  /** The first variable of a name. */
  lemma {:induction false} FirstOfTheName(vs: seq<Variable>, name: string)
    ensures match FirstNamed(vs, name)
            case None => forall i :: 0 <= i < |vs| ==> vs[i].name != name
            case Some(v) => exists i :: 0 <= i < |vs| && vs[i] == v && v.name == name
                                        && forall j :: 0 <= j < i ==> vs[j].name != name
  {
    if vs != [] && vs[0].name != name {
      FirstOfTheName(vs[1..], name);
      assert vs == [vs[0]] + vs[1..];
      if FirstNamed(vs, name).Some? {
        var v := FirstNamed(vs, name).value;
        var i :| 0 <= i < |vs[1..]| && vs[1..][i] == v && forall j :: 0 <= j < i ==> vs[1..][j].name != name;
        assert vs[i + 1] == v && forall j :: 0 < j < i + 1 ==> vs[j] == vs[1..][j - 1];
      }
    }
  }

  /** Each variable is the first shown one of its name among the children of the one before. */
  ghost predicate StepsDown(debuggee: Debuggee, v: Variable, steps: seq<Variable>)
    decreases |steps|
  {
    steps != [] ==>
      && v.hasChildren && v.reference > 0 && debuggee(v.reference).Some?
      && FirstNamed(Visible(debuggee(v.reference).value), steps[0].name) == Some(steps[0])
      && StepsDown(debuggee, steps[0], steps[1..])
  }

  /** The remaining segments are found exactly when they are the names of such steps, and then they lead to
      the last of them. */
  lemma {:induction false} WalkInSteps(debuggee: Debuggee, v: Variable, path: string, parts: seq<string>)
    returns (steps: seq<Variable>)
    requires WalkSegments(debuggee, v, path, parts).Found?
    ensures |steps| == |parts| && (forall i :: 0 <= i < |parts| ==> steps[i].name == parts[i])
    ensures StepsDown(debuggee, v, steps)
    ensures WalkSegments(debuggee, v, path, parts).variable == ([v] + steps)[|steps|]
    decreases |parts|
  {
    hide Visible, JoinPath;
    if parts == [] {
      steps := [];
    } else {
      var next := FirstNamed(Visible(debuggee(v.reference).value), parts[0]).value;
      var more := WalkInSteps(debuggee, next, JoinPath(path, next.name), parts[1..]);
      steps := [next] + more;
      assert steps[1..] == more;
      assert forall i :: 0 < i < |parts| ==> steps[i] == more[i - 1] && parts[i] == parts[1..][i - 1];
      assert ([v] + steps)[|steps|] == ([next] + more)[|more|];
    }
  }

  lemma {:induction false} StepsAreWalked(debuggee: Debuggee, v: Variable, path: string, parts: seq<string>,
                                          steps: seq<Variable>)
    requires |steps| == |parts| && forall i :: 0 <= i < |parts| ==> steps[i].name == parts[i]
    requires StepsDown(debuggee, v, steps)
    ensures WalkSegments(debuggee, v, path, parts).Found?
    ensures WalkSegments(debuggee, v, path, parts).variable == ([v] + steps)[|steps|]
    decreases |parts|
  {
    hide Visible, JoinPath;
    if parts != [] {
      StepsAreWalked(debuggee, steps[0], JoinPath(path, steps[0].name), parts[1..], steps[1..]);
      assert ([steps[0]] + steps[1..])[|steps| - 1] == ([v] + steps)[|steps|];
    }
  }
}
