/** What an expansion shows: when chains of variables do not share paths, the list stored for a path is that of
    the variable at the end of the chain, and its lines stand on the screen below that variable's. */
module ShownChildren {
  import opened GoStrings
  import opened Locals
  import opened Expansion

  /** No two chains of expandable variables at wanted paths have one path and different children. */
  ghost predicate Unambiguous(wanted: set<string>, debuggee: Debuggee, roots: seq<Variable>) {
    forall c: seq<Variable>, d: seq<Variable> :: ToldApart(wanted, debuggee, roots, c, d)
  }

  ghost predicate ToldApart(wanted: set<string>, debuggee: Debuggee, roots: seq<Variable>, c: seq<Variable>,
                            d: seq<Variable>) {
    Chain(wanted, debuggee, roots, c) && Chain(wanted, debuggee, roots, d) && ChainPath(c) == ChainPath(d) ==>
      c[|c| - 1].reference == d[|d| - 1].reference
  }

  /** A chain without its last variable leads to it. */
  lemma {:induction false} DescendInit(wanted: set<string>, debuggee: Debuggee, v: Variable, path: string,
                                       rest: seq<Variable>)
    requires Descends(wanted, debuggee, v, path, rest) && rest != []
    ensures var n := |rest| - 1;
            var last := ([v] + rest)[n];
            && Descends(wanted, debuggee, v, path, rest[..n])
            && debuggee(last.reference).Some? && rest[n] in Visible(debuggee(last.reference).value)
            && PathAlong(path, rest) == JoinPath(PathAlong(path, rest[..n]), rest[n].name)
    decreases |rest|
  {
    hide Visible, JoinPath;
    var n := |rest| - 1;
    if n == 0 {
      assert rest[..0] == [] && rest[1..] == [];
    } else {
      DescendInit(wanted, debuggee, rest[0], JoinPath(path, rest[0].name), rest[1..]);
      assert rest[..n][1..] == rest[1..][..n - 1];
      assert ([rest[0]] + rest[1..])[n - 1] == ([v] + rest)[n];
    }
  }

  lemma ChainInit(wanted: set<string>, debuggee: Debuggee, roots: seq<Variable>, chain: seq<Variable>)
    requires Chain(wanted, debuggee, roots, chain) && |chain| > 1
    ensures var n := |chain| - 1;
            && Chain(wanted, debuggee, roots, chain[..n])
            && debuggee(chain[n - 1].reference).Some? && chain[n] in Visible(debuggee(chain[n - 1].reference).value)
            && ChainPath(chain) == JoinPath(ChainPath(chain[..n]), chain[n].name)
  {
    hide Visible, JoinPath, PathAlong, Descends;
    var n := |chain| - 1;
    DescendInit(wanted, debuggee, chain[0], chain[0].name, chain[1..]);
    assert chain[..n][1..] == chain[1..][..n - 1];
    assert [chain[0]] + chain[1..] == chain;
  }

  /** The list stored for the path of a chain is that of its last variable. */
  lemma {:induction false} OwnChildren(wanted: set<string>, debuggee: Debuggee, locals: seq<Variable>,
                                       chain: seq<Variable>)
    requires NamedRoots(locals) && Unambiguous(wanted, debuggee, Visible(locals))
    requires Chain(wanted, debuggee, Visible(locals), chain) && ExpandedFor(wanted, debuggee, locals).Some?
    ensures var expanded := ExpandedFor(wanted, debuggee, locals).value;
            && ChainPath(chain) in expanded
            && debuggee(chain[|chain| - 1].reference) == Some(expanded[ChainPath(chain)])
  {
    hide Visible, PathAlong, Descends, CollectRoots, Collect;
    var roots := Visible(locals);
    RootsFind(wanted, debuggee, map[], roots, chain);
    assert Justified(wanted, debuggee, roots, map[]);
    RootsAreJustified(wanted, debuggee, roots, map[], roots);
    var expanded := ExpandedFor(wanted, debuggee, locals).value;
    var other :| Accounts(wanted, debuggee, roots, expanded, ChainPath(chain), other);
    assert ToldApart(wanted, debuggee, roots, chain, other);
  }

  /** Some lines stand, together and in order, among others. */
  ghost predicate Within(lines: seq<Line>, all: seq<Line>) {
    exists a: seq<Line>, b: seq<Line> :: Framed(a, lines, b, all)
  }

  predicate Framed(a: seq<Line>, lines: seq<Line>, b: seq<Line>, all: seq<Line>) {
    all == a + lines + b
  }

  lemma WithinParts(a: seq<Line>, lines: seq<Line>, b: seq<Line>)
    ensures Within(lines, a + lines + b)
  {
    assert Framed(a, lines, b, a + lines + b);
  }

  lemma WithinWithin(lines: seq<Line>, some: seq<Line>, all: seq<Line>)
    requires Within(lines, some) && Within(some, all)
    ensures Within(lines, all)
  {
    var a, b :| Framed(a, lines, b, some);
    var c, d :| Framed(c, some, d, all);
    assert c + (a + lines + b) + d == (c + a) + lines + (b + d);
    assert Framed(c + a, lines, b + d, all);
  }

  /** A child's lines are among those of its siblings. */
  lemma {:induction false} ChildLines(expanded: Expanded, children: seq<Variable>, parent: string, depth: nat,
                                      x: Variable)
    requires parent in expanded && parent != "" && x in children
    ensures Grounded(expanded.Keys, JoinPath(parent, x.name))
    ensures Within(Lines(expanded, x, JoinPath(parent, x.name), depth), LinesIn(expanded, children, parent, depth))
  {
    hide Lines;
    var own := Lines(expanded, children[0], JoinPath(parent, children[0].name), depth);
    var others := LinesIn(expanded, children[1..], parent, depth);
    if children[0] == x {
      assert [] + own + others == own + others;
      WithinParts([], own, others);
    } else {
      assert x in children[1..];
      ChildLines(expanded, children[1..], parent, depth, x);
      assert own + others + [] == own + others;
      WithinParts(own, others, []);
      WithinWithin(Lines(expanded, x, JoinPath(parent, x.name), depth), others, own + others);
    }
  }

  lemma {:induction false} RootIsShown(expanded: Expanded, roots: seq<Variable>, x: Variable)
    requires AllGrounded(expanded.Keys, roots) && x in roots
    ensures Within(Lines(expanded, x, x.name, 0), RootLines(expanded, roots))
  {
    hide Lines;
    var own := Lines(expanded, roots[0], roots[0].name, 0);
    var others := RootLines(expanded, roots[1..]);
    if roots[0] == x {
      assert [] + own + others == own + others;
      WithinParts([], own, others);
    } else {
      assert x in roots[1..];
      RootIsShown(expanded, roots[1..], x);
      assert own + others + [] == own + others;
      WithinParts(own, others, []);
      WithinWithin(Lines(expanded, x, x.name, 0), others, own + others);
    }
  }

  /** The children shown below an expanded variable are within its lines. */
  lemma ChildrenWithin(expanded: Expanded, v: Variable, path: string, depth: nat)
    requires path in expanded && path != ""
    ensures Within(LinesIn(expanded, Visible(expanded[path]), path, depth + 1), Lines(expanded, v, path, depth))
  {
    hide Visible, LinesIn;
    var shown := Visible(expanded[path]);
    WithinParts([VariableLine(depth, v)], LinesIn(expanded, shown, path, depth + 1),
                HiddenSummary(depth + 1, |expanded[path]| - |shown|));
  }

  /** From an expanded variable on the screen to a child shown below it. */
  lemma OneDeeper(expanded: Expanded, roots: seq<Variable>, v: Variable, path: string, depth: nat, x: Variable)
    requires AllGrounded(expanded.Keys, roots) && path in expanded && path != "" && x in Visible(expanded[path])
    requires Within(Lines(expanded, v, path, depth), RootLines(expanded, roots))
    ensures JoinPath(path, x.name) != ""
    ensures Within(Lines(expanded, x, JoinPath(path, x.name), depth + 1), RootLines(expanded, roots))
  {
    hide Visible, Lines, RootLines, LinesIn;
    var shown := Visible(expanded[path]);
    var own := Lines(expanded, x, JoinPath(path, x.name), depth + 1);
    ChildLines(expanded, shown, path, depth + 1, x);
    ChildrenWithin(expanded, v, path, depth);
    WithinWithin(own, LinesIn(expanded, shown, path, depth + 1), Lines(expanded, v, path, depth));
    WithinWithin(own, Lines(expanded, v, path, depth), RootLines(expanded, roots));
  }

  /** Every chain ends on the screen: the lines of its last variable stand there, as deep as the chain is long. */
  lemma {:induction false} ChainIsShown(wanted: set<string>, debuggee: Debuggee, locals: seq<Variable>,
                                        chain: seq<Variable>)
    requires NamedRoots(locals) && Unambiguous(wanted, debuggee, Visible(locals))
    requires Chain(wanted, debuggee, Visible(locals), chain) && ExpandedFor(wanted, debuggee, locals).Some?
    ensures ChainPath(chain) != ""
    ensures var expanded := ExpandedFor(wanted, debuggee, locals).value;
            Within(Lines(expanded, chain[|chain| - 1], ChainPath(chain), |chain| - 1),
                   RootLines(expanded, Visible(locals)))
    decreases |chain|
  {
    hide Visible, Lines, RootLines, ExpandedFor, Chain, JoinPath, Unambiguous, LinesIn, ChainPath, Within;
    hide NamedRoots, AllGrounded;
    ChainStarts(wanted, debuggee, locals, chain);
    var roots := Visible(locals);
    var expanded := ExpandedFor(wanted, debuggee, locals).value;
    NamedRootsAreGrounded(locals, expanded.Keys);
    var n := |chain| - 1;
    if n == 0 {
      ShortChain(wanted, debuggee, locals, chain);
      RootIsShown(expanded, roots, chain[0]);
    } else {
      ChainInit(wanted, debuggee, roots, chain);
      var front, path := chain[..n], ChainPath(chain[..n]);
      ChainIsShown(wanted, debuggee, locals, front);
      OwnChildren(wanted, debuggee, locals, front);
      OneDeeper(expanded, roots, chain[n - 1], path, n - 1, chain[n]);
    }
  }

  lemma ShortChain(wanted: set<string>, debuggee: Debuggee, locals: seq<Variable>, chain: seq<Variable>)
    requires NamedRoots(locals) && Chain(wanted, debuggee, Visible(locals), chain) && |chain| == 1
    ensures chain[0] in Visible(locals) && ChainPath(chain) == chain[0].name != ""
  {
  }

  lemma ChainStarts(wanted: set<string>, debuggee: Debuggee, locals: seq<Variable>, chain: seq<Variable>)
    requires Chain(wanted, debuggee, Visible(locals), chain)
    ensures chain != [] && Visible(locals) != []
  {
    hide Visible, Descends;
  }

  lemma NamedRootsAreGrounded(locals: seq<Variable>, paths: set<string>)
    requires NamedRoots(locals)
    ensures AllGrounded(paths, Visible(locals))
  {
    hide Visible;
  }

  /** So on the screen of locals. */
  lemma ChainIsOnScreen(wanted: set<string>, debuggee: Debuggee, locals: seq<Variable>, chain: seq<Variable>)
    requires NamedRoots(locals) && Unambiguous(wanted, debuggee, Visible(locals))
    requires Chain(wanted, debuggee, Visible(locals), chain) && ExpandedFor(wanted, debuggee, locals).Some?
    ensures ChainPath(chain) != ""
    ensures var expanded := ExpandedFor(wanted, debuggee, locals).value;
            Within(Lines(expanded, chain[|chain| - 1], ChainPath(chain), |chain| - 1), Screen(locals, expanded))
  {
    hide Visible, Lines, RootLines, ExpandedFor, Chain, ChainPath, Unambiguous, Within, NamedRoots, AllGrounded;
    ChainStarts(wanted, debuggee, locals, chain);
    var expanded := ExpandedFor(wanted, debuggee, locals).value;
    NamedRootsAreGrounded(locals, expanded.Keys);
    var roots := RootLines(expanded, Visible(locals));
    var hidden := HiddenSummary(0, |locals| - |Visible(locals)|);
    ChainIsShown(wanted, debuggee, locals, chain);
    assert [] + roots + hidden == roots + hidden;
    WithinParts([], roots, hidden);
    WithinWithin(Lines(expanded, chain[|chain| - 1], ChainPath(chain), |chain| - 1), roots, Screen(locals, expanded));
  }
}
