/** The terminal loop: carrying out command texts, and reading keys until one ends the session. */
module Terminal {
  import opened GoStrings
  import opened Locals
  import opened Resolver
  import opened Runner
  import opened Snapshots
  import S = Screens
  import opened Commands
  import Ed = Editor

  /** What surrounds a run: the program debugged, its files' packages, and the turn of the loop from which on
      its context is canceled, if any. */
  datatype World = World(debuggee: Debuggee, packages: Packages, canceledFrom: Option<nat>) {
    predicate CanceledAt(turn: nat) {
      canceledFrom.Some? && canceledFrom.value <= turn
    }
  }

  datatype Outcome = Success | Quit | Failure(fault: Fault)

  /** The debugger actions an order stands for. */
  function ActionOf(order: Order): seq<Action> {
    if order.Act? then [order.action] else []
  }

  /** The calls an order makes of the runner, in a given view. */
  ghost predicate Asks(order: Order, world: World, v: S.View, made: seq<Call>) {
    match order
    case SetBreakpoint(location) => S.AsksBreak(world.packages, v, location, made)
    case Act(action) => S.AsksAction(v, action, made)
    case Expand(_) => S.AsksLocals(v, made)
    case ShowLocals => S.AsksLocals(v, made)
    case Evaluate(expr) => S.AsksValue(world.debuggee, v, expr, made)
    case ShowOutput => S.AsksOutput(v, made)
    case _ => made == []
  }

  /** The view an order leads to when its calls came back as they did, and whether it succeeds. */
  ghost function Result(order: Order, world: World, v: S.View, made: seq<Call>): (S.View, bool)
    requires Asks(order, world, v, made)
  {
    match order
    case Nothing => (v, true)
    case ShowHelp => (v.Showing(S.HelpView), true)
    case ShowBreakpoints => (v.Showing(S.BreakpointsView), true)
    case SetBreakpoint(_) => S.BreakSet(v, made)
    case Act(action) => S.ActionDone(v, action, made)
    case Expand(name) => S.LocalExpanded(world.debuggee, v, made, name)
    case ShowLocals => S.LocalsShown(world.debuggee, v, made)
    case Evaluate(expr) => S.ValueShown(world.debuggee, v, expr, made)
    case ShowOutput => S.OutputShown(v, made)
    case _ => (v, false)
  }

  function Ending(order: Order, ok: bool, made: seq<Call>): Outcome {
    if order.Leave? then Quit
    else
      match S.Verdict(ok, made)
      case None => Success
      case Some(fault) => Failure(fault)
  }

  ghost predicate Carried(order: Order, world: World, v: S.View, made: seq<Call>, v': S.View, outcome: Outcome) {
    && Asks(order, world, v, made)
    && var (shown, ok) := Result(order, world, v, made);
       v' == shown && outcome == Ending(order, ok, made)
  }

  ghost predicate Surrounds(world: World, runner: CommandRunner) {
    world.debuggee == runner.debuggee && world.packages == runner.packages
  }

  lemma StateNow(runner: CommandRunner, state: S.ViewState)
    requires S.InStep(runner, state)
    ensures runner.actions == ActionsIn(runner.calls)
    ensures runner.over == Exited(state.snapshot) && state.snapshot == Latest(runner.initial, runner.calls)
    ensures Quiet(Exited(runner.initial), runner.calls)
  {
  }

  /** The orders that look at the program. */
  method Inspect(runner: CommandRunner, state: S.ViewState, order: Order, ghost world: World)
    returns (fault: Option<Fault>, ghost made: seq<Call>)
    requires S.InStep(runner, state) && (order.Expand? || order.ShowLocals? || order.Evaluate?) && !runner.over
    requires Surrounds(world, runner)
    modifies runner, state`inspection, state`expandedLocals
    ensures S.InStep(runner, state) && !runner.over && runner.actions == old(runner.actions)
    ensures runner.calls == old(runner.calls) + made && Asks(order, world, old(state.Value()), made)
    ensures var (shown, ok) := Result(order, world, old(state.Value()), made);
            state.Value() == shown && fault == S.Verdict(ok, made)
  {
    hide Quiet, Over, Latest, ActionsIn, S.AsksLocals, S.AsksValue, S.LocalsShown, S.LocalExpanded, S.ValueShown;
    match order
    case Expand(name) => fault, made := S.ExpandLocal(runner, state, name);
    case ShowLocals => fault, made := S.ShowLocals(runner, state);
    case Evaluate(expr) => fault, made := S.ShowEval(runner, state, expr);
  }

  method CarryOut(runner: CommandRunner, state: S.ViewState, order: Order, ghost world: World)
    returns (outcome: Outcome, ghost made: seq<Call>)
    requires S.InStep(runner, state) && Surrounds(world, runner)
    requires runner.over ==> order == Nothing || order == Leave || order == ShowOutput
    modifies runner, state
    ensures S.InStep(runner, state) && runner.calls == old(runner.calls) + made
    ensures Carried(order, world, old(state.Value()), made, state.Value(), outcome)
    ensures runner.actions == old(runner.actions) + ActionOf(order)
  {
    hide Quiet, Latest, ActionsIn, S.InStep, S.AsksLocals, S.AsksValue, S.LocalsShown, S.LocalExpanded, S.ValueShown;
    hide S.AsksBreak, S.BreakSet, S.AsksAction, S.ActionDone, S.AsksOutput, S.OutputShown, LastFault;
    StateNow(runner, state);
    var fault: Option<Fault> := None;
    made := [];
    match order {
      case Nothing =>
      case Leave =>
        return Quit, made;
      case ShowHelp =>
        S.ShowHelp(runner, state);
      case ShowBreakpoints =>
        S.ShowBreakpoints(runner, state);
      case SetBreakpoint(location) =>
        fault, made := S.BreakAt(runner, state, location);
      case Act(action) =>
        fault, made := S.RunDebuggerAction(runner, state, action);
      case ShowOutput =>
        fault, made := S.ShowOutput(runner, state);
      case Mistake =>
        NothingFetched();
        return Failure(Other), made;
      case _ =>
        fault, made := Inspect(runner, state, order, world);
    }
    outcome := match fault case None => Success case Some(f) => Failure(f);
  }

  /** executeCommandText: what the text asks for is carried out, unless the context is already canceled. */
  method ExecuteCommandText(runner: CommandRunner, state: S.ViewState, text: string, canceled: bool, ghost world: World)
    returns (outcome: Outcome, ghost made: seq<Call>)
    requires S.InStep(runner, state) && Trimmed(text) && Surrounds(world, runner)
    modifies runner, state
    ensures S.InStep(runner, state) && runner.calls == old(runner.calls) + made
    ensures if canceled then
              made == [] && state.Value() == old(state.Value()) && outcome == Failure(Canceled)
              && runner.actions == old(runner.actions)
            else
              var order := Understand(text, old(Exited(state.snapshot)));
              && Carried(order, world, old(state.Value()), made, state.Value(), outcome)
              && runner.actions == old(runner.actions) + ActionOf(order)
  {
    hide Quiet, Over, Latest, ActionsIn, Understand, Carried, ActionOf;
    made := [];
    if canceled {
      return Failure(Canceled), made;
    }
    if Exited(state.snapshot) {
      AfterExitOnlyOutput(text);
    }
    outcome, made := CarryOut(runner, state, Understand(text, Exited(state.snapshot)), world);
  }

  datatype Going = GoOn | AllDone | Cancel

  /** processCommand: quitting ends the loop, a cancellation interrupts it, and other errors are printed. */
  function Onward(outcome: Outcome): Going {
    match outcome
    case Success => GoOn
    case Quit => AllDone
    case Failure(fault) => if fault == Canceled then Cancel else GoOn
  }

  /** What a command text submitted at some turn does. */
  ghost predicate Obeyed(text: string, turn: nat, world: World, v: S.View, made: seq<Call>, v': S.View, going: Going)
    requires Trimmed(text)
  {
    if world.CanceledAt(turn) then made == [] && v' == v && going == Cancel
    else
      var order := Understand(text, Exited(v.snapshot));
      && Asks(order, world, v, made)
      && var (shown, ok) := Result(order, world, v, made);
         v' == shown && going == Onward(Ending(order, ok, made))
  }

  /** The debugger actions it stands for. */
  function Orders(text: string, turn: nat, world: World, exited: bool): seq<Action>
    requires Trimmed(text)
  {
    if world.CanceledAt(turn) then [] else ActionOf(Understand(text, exited))
  }

  method ProcessCommand(runner: CommandRunner, state: S.ViewState, text: string, turn: nat, canceled: bool,
                        ghost world: World)
    returns (going: Going, ghost made: seq<Call>)
    requires S.InStep(runner, state) && Trimmed(text) && Surrounds(world, runner) && canceled == world.CanceledAt(turn)
    modifies runner, state
    ensures S.InStep(runner, state) && runner.calls == old(runner.calls) + made
    ensures Obeyed(text, turn, world, old(state.Value()), made, state.Value(), going)
    ensures runner.actions == old(runner.actions) + Orders(text, turn, world, old(Exited(state.snapshot)))
  {
    hide Quiet, Over, Latest, ActionsIn, Understand, Asks, Result, Ending, ActionOf;
    var outcome;
    outcome, made := ExecuteCommandText(runner, state, text, canceled, world);
    match outcome
    case Success => going := GoOn;
    case Quit => going := AllDone;
    case Failure(fault) => going := if fault == Canceled then Cancel else GoOn;
  }

  // ---------- bytes and keys ----------

  /** What one read of the asynchronous reader delivers. */
  datatype Event = Byte(b: char) | Timeout | ReadError

  function NamedKey(b: char): Ed.Key {
    if b == 'A' then Ed.ArrowUp else if b == 'B' then Ed.ArrowDown
    else if b == 0 as char then Ed.EscapeKey else Ed.OtherSequence
  }

  /** readTTYEscapeKey: the key after an escape byte, and how many events it takes. */
  function KeyAfterEscape(input: seq<Event>): (r: Option<(Ed.Key, nat)>)
    ensures r.Some? ==> r.value.1 <= |input|
  {
    if input == [] || input[0].ReadError? then None
    else if input[0].Timeout? || input[0].b != '[' then Some((Ed.EscapeKey, 1))
    else if |input| == 1 || input[1].ReadError? then None
    else if input[1].Timeout? then Some((Ed.EscapeKey, 2))
    else Some((NamedKey(input[1].b), 2))
  }

  /** The next key; once the program has exited, escape is a key like any other. */
  function NextKey(input: seq<Event>, exited: bool): (r: Option<(Ed.Key, nat)>)
    ensures r.Some? ==> 1 <= r.value.1 <= |input|
  {
    if input == [] || !input[0].Byte? then None
    else if exited || input[0].b != Ed.ESCAPE then Some((Ed.Plain(input[0].b), 1))
    else
      match KeyAfterEscape(input[1..])
      case None => None
      case Some((key, n)) => Some((key, n + 1))
  }

  /** How far into the input a run of keys got; None when it is not what the input spells. */
  ghost function Position(input: seq<Event>, presses: seq<Ed.Pressed>): (r: Option<nat>)
    ensures r.Some? ==> r.value <= |input|
    decreases |presses|
  {
    if presses == [] then Some(0)
    else
      var last := presses[|presses| - 1];
      match Position(input, presses[..|presses| - 1])
      case None => None
      case Some(pos) =>
        match NextKey(input[pos..], last.exited)
        case None => None
        case Some((key, n)) => if key == last.key then Some(pos + n) else None
  }

  // ---------- runs of the loop ----------

  /** After a run the loop goes on to a head with these flags: its last key neither stopped nor interrupted
      it, the program is only exited by a submitted command and stays exited, and only a command or an
      escape changes the inspection. */
  ghost predicate GoesOn(presses: seq<Ed.Pressed>, exited: bool, inspecting: bool)
    requires presses != []
  {
    var last := presses[|presses| - 1];
    match Ed.LastEffect(presses)
    case Stop => false
    case Interrupt => false
    case Submit(text) => Trimmed(text) && Understand(text, last.exited) != Leave && (last.exited ==> exited)
    case LeaveInspection => exited == last.exited && !inspecting
    case Nothing => exited == last.exited && inspecting == last.inspecting
  }

  ghost predicate Run(presses: seq<Ed.Pressed>)
    decreases |presses|
  {
    presses == [] ||
    var init, last := presses[..|presses| - 1], presses[|presses| - 1];
    Run(init) && (init != [] ==> GoesOn(init, last.exited, last.inspecting))
  }

  lemma {:induction false} RunPrefix(presses: seq<Ed.Pressed>, k: nat)
    requires Run(presses) && k <= |presses|
    ensures Run(presses[..k])
    decreases |presses|
  {
    if k == |presses| {
      assert presses[..k] == presses;
    } else {
      var init := presses[..|presses| - 1];
      RunPrefix(init, k);
      assert init[..k] == presses[..k];
    }
  }

  /** Submitting, and nothing else the loop survives after the exit, leaves command mode. */
  lemma SubmitLeavesCommandMode(e: Ed.Editor, key: Ed.Key, exited: bool, inspecting: bool)
    requires Ed.Tidy(e)
    ensures var (after, effect) := Ed.Press(e, key, exited, inspecting);
            && (effect.Submit? ==> !after.commandMode)
            && (exited && !e.commandMode && !effect.Stop? ==>
                effect == Ed.Submit("o") && key == Ed.Plain('o') && !inspecting)
  {
  }

  /** The debugger actions the submitted commands of a run stand for, in order. */
  ghost function ActionsOrdered(presses: seq<Ed.Pressed>, world: World): seq<Action>
    decreases |presses|
  {
    if presses == [] then []
    else ActionsOrdered(presses[..|presses| - 1], world) + LastAction(presses, world)
  }

  ghost function LastAction(presses: seq<Ed.Pressed>, world: World): seq<Action>
    requires presses != []
  {
    EffectActions(Ed.LastEffect(presses), |presses| - 1, world, presses[|presses| - 1].exited)
  }

  function EffectActions(effect: Ed.Effect, turn: nat, world: World, exited: bool): seq<Action> {
    if effect.Submit? && Trimmed(effect.text) then Orders(effect.text, turn, world, exited) else []
  }

  /** An exited session is never in command mode. */
  lemma {:induction false} ExitedIsNeverTyping(presses: seq<Ed.Pressed>, exited: bool, inspecting: bool)
    requires Run(presses) && (presses != [] ==> GoesOn(presses, exited, inspecting)) && exited
    ensures !Ed.Replay(presses).commandMode
    decreases |presses|
  {
    hide Ed.Press, Understand;
    if presses != [] {
      var init, last := presses[..|presses| - 1], presses[|presses| - 1];
      SubmitLeavesCommandMode(Ed.Replay(init), last.key, last.exited, last.inspecting);
      if last.exited {
        ExitedIsNeverTyping(init, last.exited, last.inspecting);
      }
    }
  }

  /** From the first head that sees an exited program, every head sees it, and every key but the last
      is an `o` pressed while no inspection is open: the loop ends on the first other byte. */
  lemma {:induction false} AfterTheExit(presses: seq<Ed.Pressed>, i: nat, j: nat)
    requires Run(presses) && i < j < |presses| && presses[i].exited
    ensures presses[j].exited && presses[i].key == Ed.Plain('o') && !presses[i].inspecting
    decreases |presses|
  {
    hide Ed.Press, Understand;
    var init, last := presses[..|presses| - 1], presses[|presses| - 1];
    if j < |presses| - 1 {
      AfterTheExit(init, i, j);
    } else {
      var p := init[|init| - 1];
      if i < |init| - 1 {
        AfterTheExit(init, i, |init| - 1);
      }
      var before := init[..|init| - 1];
      ExitedIsNeverTyping(before, p.exited, p.inspecting);
      SubmitLeavesCommandMode(Ed.Replay(before), p.key, p.exited, p.inspecting);
    }
  }

  /** At every head of a run: outside command mode the buffer is empty and the index is -1, a recalled
      entry is what the buffer holds, and an exited session is not in command mode. */
  lemma {:induction false} EveryHeadIsSafe(presses: seq<Ed.Pressed>, k: nat)
    requires Run(presses) && k < |presses|
    ensures var e := Ed.Replay(presses[..k]);
            && Ed.Tidy(e) && (presses[k].exited ==> !e.commandMode)
            && (!e.commandMode ==> e.line.buffer == "" && e.line.index == -1 && e.line.draft.None?)
  {
    hide Ed.Press, Understand;
    if presses[k].exited {
      RunPrefix(presses, k + 1);
      assert presses[..k + 1][..k] == presses[..k];
      ExitedIsNeverTyping(presses[..k], presses[k].exited, presses[k].inspecting);
    }
  }


  // ---------- what the heads saw ----------

  /** How many calls had been made at a loop head, and the view there. */
  datatype Head = Head(calls: nat, view: S.View)

  /** What a run has been so far: the keys read, the heads they were read at, and all calls made. */
  datatype Past =
    Past(world: World, initial: Option<Snapshot>, presses: seq<Ed.Pressed>, heads: seq<Head>, calls: seq<Call>)
  {
    function Before(n: nat): Past
      requires n <= |presses| == |heads|
    {
      this.(presses := presses[..n], heads := heads[..n])
    }

    function Then(p: Ed.Pressed, v: S.View): Past {
      this.(presses := presses + [p], heads := heads + [Head(|calls|, v)])
    }
  }

  predicate Looks(p: Ed.Pressed, v: S.View) {
    p.exited == Exited(v.snapshot) && p.inspecting == v.inspection.Some?
  }

  /** A head's flags are those of its view, and its snapshot is the last one reported by then. */
  ghost predicate Saw(p: Ed.Pressed, h: Head, initial: Option<Snapshot>, calls: seq<Call>) {
    h.calls <= |calls| && Looks(p, h.view) && h.view.snapshot == Latest(initial, calls[..h.calls])
  }

  /** What the effect of a key does at some turn: the calls it makes, the view it leads to, and whether the
      loop goes on. */
  ghost predicate Effected(effect: Ed.Effect, turn: nat, world: World, v: S.View, made: seq<Call>, v': S.View,
                           going: Going) {
    match effect
    case Submit(text) => Trimmed(text) && Obeyed(text, turn, world, v, made, v', going)
    case LeaveInspection => made == [] && v' == v.Closed() && going == GoOn
    case _ => made == [] && v' == v && going == GoOn
  }

  /** And the last key of a run. */
  ghost predicate Does(presses: seq<Ed.Pressed>, world: World, v: S.View, made: seq<Call>, v': S.View, going: Going)
    requires presses != []
  {
    Effected(Ed.LastEffect(presses), |presses| - 1, world, v, made, v', going)
  }

  ghost predicate Between(presses: seq<Ed.Pressed>, world: World, from: Head, to: Head, calls: seq<Call>, going: Going)
    requires presses != []
  {
    from.calls <= to.calls <= |calls| && Does(presses, world, from.view, calls[from.calls..to.calls], to.view, going)
  }

  /** Each head of a run saw the truth, and what lies between two heads is exactly what the key read at the
      first of them does. */
  ghost predicate Traced(past: Past)
    decreases |past.presses|
  {
    && |past.heads| == |past.presses|
    && (past.presses != [] ==>
          var n := |past.presses| - 1;
          && Traced(past.Before(n))
          && Saw(past.presses[n], past.heads[n], past.initial, past.calls)
          && (n > 0 ==> Between(past.presses[..n], past.world, past.heads[n - 1], past.heads[n], past.calls, GoOn)))
  }

  /** And so is what came after the last head, up to now. */
  ghost predicate Followed(past: Past, v: S.View, going: Going) {
    && Traced(past)
    && (if past.presses == [] then going == GoOn
        else Between(past.presses, past.world, past.heads[|past.heads| - 1], Head(|past.calls|, v), past.calls, going))
  }

  /** A run that goes on with a head at this view. */
  ghost predicate AtHead(past: Past, v: S.View) {
    && Run(past.presses) && Followed(past, v, GoOn)
    && (past.presses != [] ==> GoesOn(past.presses, Exited(v.snapshot), v.inspection.Some?))
  }

  /** A key read at a head. */
  lemma HeadRead(past: Past, v: S.View, p: Ed.Pressed)
    requires AtHead(past, v) && Looks(p, v) && v.snapshot == Latest(past.initial, past.calls)
    ensures Traced(past.Then(p, v)) && |past.heads| == |past.presses|
  {
    hide Between, Latest, Run, GoesOn;
    var more := past.Then(p, v);
    assert more.Before(|past.presses|) == past;
    assert past.calls[..|past.calls|] == past.calls;
  }

  lemma {:induction false} TracedGrows(past: Past, more: seq<Call>)
    requires Traced(past)
    ensures Traced(past.(calls := past.calls + more))
    decreases |past.presses|
  {
    hide Latest, Does;
    if past.presses != [] {
      var n := |past.presses| - 1;
      var calls := past.calls + more;
      TracedGrows(past.Before(n), more);
      assert past.(calls := calls).Before(n) == past.Before(n).(calls := calls);
      assert calls[..past.heads[n].calls] == past.calls[..past.heads[n].calls];
      if n > 0 {
        assert calls[past.heads[n - 1].calls..past.heads[n].calls]
            == past.calls[past.heads[n - 1].calls..past.heads[n].calls];
      }
    }
  }

  /** And what the key does leads to the next head, or to the end. */
  lemma HeadDone(past: Past, v: S.View, made: seq<Call>, v': S.View, going: Going)
    requires Traced(past) && past.presses != [] && past.heads[|past.heads| - 1] == Head(|past.calls|, v)
    requires Does(past.presses, past.world, v, made, v', going)
    ensures Followed(past.(calls := past.calls + made), v', going)
  {
    hide Traced, Does;
    var calls := past.calls + made;
    TracedGrows(past, made);
    HeadsMatch(past);
    HeadsMatch(past.(calls := calls));
    assert calls[|past.calls|..|calls|] == made;
  }

  lemma HeadsMatch(past: Past)
    requires Traced(past)
    ensures |past.heads| == |past.presses|
  {
  }

  /** A key the loop survives leads to a head with flags a run can go on to. */
  lemma DoesGoOn(presses: seq<Ed.Pressed>, world: World, v: S.View, made: seq<Call>, v': S.View)
    requires presses != [] && Looks(presses[|presses| - 1], v)
    requires !Ed.LastEffect(presses).Stop? && !Ed.LastEffect(presses).Interrupt?
    requires Does(presses, world, v, made, v', GoOn)
    ensures GoesOn(presses, Exited(v'.snapshot), v'.inspection.Some?)
  {
    hide Ed.LastEffect, Understand;
    var effect := Ed.LastEffect(presses);
    if effect.Submit? && Exited(v.snapshot) {
      AfterExitOnlyOutput(effect.text);
    }
  }

  lemma {:induction false} HeadSaw(past: Past, i: nat)
    requires Traced(past) && i < |past.presses|
    ensures |past.heads| == |past.presses| && Saw(past.presses[i], past.heads[i], past.initial, past.calls)
    decreases |past.presses|
  {
    hide Saw, Between;
    var n := |past.presses| - 1;
    if i < n {
      HeadSaw(past.Before(n), i);
    }
  }

  /** Of every run of the loop, over its log: once some call before a head has reported the exit, or the program
      was over from the start, every later call asks for output only, the key read at that head is an `o` and no
      inspection is open then, unless the run ends with that key. */
  lemma FromTheFirstExit(past: Past, i: nat)
    requires Run(past.presses) && Traced(past) && Quiet(Exited(past.initial), past.calls)
    requires i < |past.presses| == |past.heads|
    ensures var n := past.heads[i].calls;
            && n <= |past.calls|
            && (Over(Exited(past.initial), past.calls[..n]) ==>
                  && (forall q :: n <= q < |past.calls| ==> past.calls[q].OutputCall?)
                  && (i + 1 < |past.presses| ==>
                        past.presses[i].key == Ed.Plain('o') && past.heads[i].view.inspection.None?))
  {
    hide Traced, Run, Latest;
    HeadSaw(past, i);
    var started, calls, n := Exited(past.initial), past.calls, past.heads[i].calls;
    QuietPrefix(started, calls, n);
    OverIsLatest(past.initial, calls[..n]);
    if Over(started, calls[..n]) {
      forall q | n <= q < |calls|
        ensures calls[q].OutputCall?
      {
        StillOver(started, calls, n, q);
      }
      if i + 1 < |past.presses| {
        AfterTheExit(past.presses, i, i + 1);
      }
    }
  }

  lemma StillOver(started: bool, calls: seq<Call>, n: nat, q: nat)
    requires n <= q <= |calls| && Over(started, calls[..n])
    ensures Over(started, calls[..q])
  {
    if !started {
      var i :| 0 <= i < n && ReportsExit(calls[..n][i]);
      assert calls[..q][i] == calls[..n][i];
    }
  }

  // ---------- the loop ----------

  method ReadTTYEscapeKey(input: seq<Event>, pos: nat) returns (key: Option<Ed.Key>, next: nat)
    requires pos <= |input|
    ensures match KeyAfterEscape(input[pos..])
            case None => key.None?
            case Some((k, n)) => key == Some(k) && next == pos + n
  {
    next := pos;
    if next == |input| || input[next].ReadError? {
      return None, next;
    }
    var prefix := input[next];
    next := next + 1;
    if prefix.Timeout? || prefix.b != '[' {
      return Some(Ed.EscapeKey), next;
    }
    if next == |input| || input[next].ReadError? {
      return None, next;
    }
    var second := input[next];
    next := next + 1;
    if second.Timeout? {
      return Some(Ed.EscapeKey), next;
    }
    key := Some(NamedKey(second.b));
  }

  datatype End = Finished | Interrupted | InputFailed

  /** The switch of the loop over one key, on the loop's own variables. */
  method HandleKey(e: Ed.Editor, key: Ed.Key, exited: bool, inspecting: bool)
    returns (commandMode: bool, buffer: string, index: int, draft: Option<string>, history: seq<string>,
             effect: Ed.Effect)
    requires Ed.Tidy(e)
    ensures (Ed.Editor(commandMode, Ed.Line(buffer, index, draft), history), effect)
              == Ed.Press(e, key, exited, inspecting)
    ensures effect.Submit? ==> Trimmed(effect.text)
  {
    hide TrimSpace, Ed.AppendHistory;
    commandMode, buffer, index, draft := e.commandMode, e.line.buffer, e.line.index, e.line.draft;
    history, effect := e.history, Ed.Nothing;
    if exited && !commandMode {
      if key == Ed.Plain('o') && !inspecting {
        history, effect := Ed.AppendHistory(history, "o"), Ed.Submit("o");
        return;
      }
      effect := Ed.Stop;
      return;
    }
    match key {
      case Plain(b) =>
        if b == Ed.CTRL_C {
          effect := Ed.Interrupt;
        } else if b == Ed.CTRL_D && (!commandMode || buffer == "") {
          effect := Ed.Stop;
        } else if b == 'q' && !commandMode {
          effect := Ed.Stop;
        } else if (b == 'h' || b == 'b' || b == 'c' || b == 'n' || b == 's' || b == 'l' || b == 'o') && !commandMode {
          history, effect := Ed.AppendHistory(history, [b]), Ed.Submit([b]);
        } else if b == ':' && !commandMode {
          commandMode, buffer, index, draft := true, ":", -1, None;
        } else if b == '\r' || b == '\n' {
          if commandMode {
            var text := TrimSpace(buffer);
            commandMode, index, draft := false, -1, None;
            history, effect := Ed.AppendHistory(history, text), Ed.Submit(text);
            buffer := "";
          }
        } else if b == Ed.DELETE || b == Ed.BACKSPACE {
          if commandMode && buffer != "" {
            buffer, index, draft := buffer[..|buffer| - 1], -1, None;
          }
        } else if commandMode && Ed.IsPrintable(b) {
          buffer, index, draft := buffer + [b], -1, None;
        }
      case ArrowUp =>
        if !commandMode {
          if history == [] {
            return;
          }
          commandMode, buffer, index, draft := true, "", -1, None;
        }
        var line := Ed.PreviousHistory(Ed.Line(buffer, index, draft), history);
        buffer, index, draft := line.buffer, line.index, line.draft;
      case ArrowDown =>
        if !commandMode {
          return;
        }
        var line := Ed.NextHistory(Ed.Line(buffer, index, draft), history);
        buffer, index, draft := line.buffer, line.index, line.draft;
      case EscapeKey =>
        if commandMode {
          commandMode, buffer, index, draft := false, "", -1, None;
        } else if inspecting {
          effect := Ed.LeaveInspection;
        }
      case OtherSequence =>
    }
  }

  /** How a run ends: finished by a stopping key or a leaving command, interrupted by Ctrl-C or a cancellation
      during a command, or still going when the input fails. */
  ghost predicate EndsWith(input: seq<Event>, presses: seq<Ed.Pressed>, end: End, going: Going, exited: bool) {
    if end == InputFailed then
      going == GoOn && var pos := Position(input, presses); pos.Some? && NextKey(input[pos.value..], exited).None?
    else
      && presses != []
      && var effect := Ed.LastEffect(presses);
         if effect.Stop? then end == Finished
         else if effect.Interrupt? then end == Interrupted
         else going != GoOn && end == (if going == Cancel then Interrupted else Finished)
  }

  method ReadKey(input: seq<Event>, pos: nat, exited: bool) returns (key: Option<Ed.Key>, next: nat)
    requires pos <= |input|
    ensures match NextKey(input[pos..], exited)
            case None => key.None?
            case Some((k, n)) => key == Some(k) && next == pos + n
  {
    hide KeyAfterEscape;
    if pos == |input| || !input[pos].Byte? {
      return None, pos;
    }
    if exited || input[pos].b != Ed.ESCAPE {
      return Some(Ed.Plain(input[pos].b)), pos + 1;
    }
    assert input[pos..][1..] == input[pos + 1..];
    key, next := ReadTTYEscapeKey(input, pos + 1);
  }

  lemma NoKeyYet(input: seq<Event>, world: World)
    ensures Run([]) && Position(input, []) == Some(0) && Ed.Replay([]) == Ed.FRESH && ActionsOrdered([], world) == []
  {
  }

  /** One more key makes a longer run, further into the input. */
  lemma {:induction false} OneMoreKey(input: seq<Event>, presses: seq<Ed.Pressed>, pos: nat, p: Ed.Pressed, n: nat)
    requires Run(presses) && (presses != [] ==> GoesOn(presses, p.exited, p.inspecting))
    requires Position(input, presses) == Some(pos) && pos <= |input|
    requires NextKey(input[pos..], p.exited) == Some((p.key, n))
    ensures Run(presses + [p]) && Position(input, presses + [p]) == Some(pos + n)
  {
    hide Run, Position, GoesOn, NextKey;
    RunSnoc(presses, p);
    PositionSnoc(input, presses, pos, p, n);
  }

  lemma RunSnoc(presses: seq<Ed.Pressed>, p: Ed.Pressed)
    requires Run(presses) && (presses != [] ==> GoesOn(presses, p.exited, p.inspecting))
    ensures Run(presses + [p])
  {
    hide GoesOn;
    assert (presses + [p])[..|presses|] == presses;
  }

  lemma PositionSnoc(input: seq<Event>, presses: seq<Ed.Pressed>, pos: nat, p: Ed.Pressed, n: nat)
    requires Position(input, presses) == Some(pos) && pos <= |input|
    requires NextKey(input[pos..], p.exited) == Some((p.key, n))
    ensures Position(input, presses + [p]) == Some(pos + n)
  {
    hide NextKey;
    assert (presses + [p])[..|presses|] == presses;
  }

  lemma OneMorePress(presses: seq<Ed.Pressed>, p: Ed.Pressed, world: World)
    ensures var more := presses + [p];
            && more[|presses|] == p
            && (Ed.Replay(more), Ed.LastEffect(more)) == Ed.Press(Ed.Replay(presses), p.key, p.exited, p.inspecting)
            && ActionsOrdered(more, world) == ActionsOrdered(presses, world) + LastAction(more, world)
  {
    hide LastAction, Ed.Press, Ed.Tidy;
    assert (presses + [p])[..|presses|] == presses;
  }

  // ---------- one turn of the loop ----------

  method Effectuate(runner: CommandRunner, state: S.ViewState, effect: Ed.Effect, turn: nat, canceled: bool,
                    ghost world: World)
    returns (going: Going, ghost made: seq<Call>)
    requires S.InStep(runner, state) && (effect.Submit? ==> Trimmed(effect.text))
    requires Surrounds(world, runner) && canceled == world.CanceledAt(turn)
    modifies runner, state
    ensures S.InStep(runner, state) && runner.calls == old(runner.calls) + made
    ensures Effected(effect, turn, world, old(state.Value()), made, state.Value(), going)
    ensures runner.actions == old(runner.actions) + EffectActions(effect, turn, world, old(Exited(state.snapshot)))
  {
    hide Obeyed, Orders, Quiet, Over, Latest, ActionsIn;
    going, made := GoOn, [];
    if effect.LeaveInspection? {
      state.ClearInspection();
    } else if effect.Submit? {
      going, made := ProcessCommand(runner, state, effect.text, turn, canceled, world);
    }
  }

  /** What reading a key at a head adds to the run. */
  lemma KeyRead(input: seq<Event>, past: Past, v: S.View, p: Ed.Pressed, pos: nat, n: nat)
    requires AtHead(past, v) && Looks(p, v) && v.snapshot == Latest(past.initial, past.calls)
    requires Position(input, past.presses) == Some(pos) && pos <= |input|
    requires NextKey(input[pos..], p.exited) == Some((p.key, n))
    ensures var more := past.Then(p, v);
            && Run(more.presses) && Traced(more) && |past.heads| == |past.presses|
            && Position(input, more.presses) == Some(pos + n)
            && (Ed.Replay(more.presses), Ed.LastEffect(more.presses))
                 == Ed.Press(Ed.Replay(past.presses), p.key, p.exited, p.inspecting)
  {
    hide Run, Position, NextKey, GoesOn, Traced, Between, Latest, Ed.Press, Ed.Replay, Ed.LastEffect;
    OneMorePress(past.presses, p, past.world);
    OneMoreKey(input, past.presses, pos, p, n);
    HeadRead(past, v, p);
  }

  /** Where a key leads, as the loop knows it: to its next head, or out of the loop. */
  lemma KeyDone(input: seq<Event>, past: Past, v: S.View, made: seq<Call>, v': S.View, going: Going)
    requires Run(past.presses) && Traced(past) && past.presses != []
    requires past.heads[|past.heads| - 1] == Head(|past.calls|, v) && Looks(past.presses[|past.presses| - 1], v)
    requires Does(past.presses, past.world, v, made, v', going)
    ensures var effect := Ed.LastEffect(past.presses);
            var now := past.(calls := past.calls + made);
            && Followed(now, v', going)
            && (if going == GoOn && !effect.Stop? && !effect.Interrupt? then AtHead(now, v')
                else
                  var end := if going == Cancel || effect.Interrupt? then Interrupted else Finished;
                  EndsWith(input, past.presses, end, going, Exited(v'.snapshot)))
  {
    hide Run, Traced, GoesOn, Followed, Obeyed, Ed.LastEffect;
    HeadDone(past, v, made, v', going);
    var effect := Ed.LastEffect(past.presses);
    if going == GoOn && !effect.Stop? && !effect.Interrupt? {
      DoesGoOn(past.presses, past.world, v, made, v');
    }
  }

  /** One turn of the loop, from head to head or to the end: at most one key is read. */
  method Turn(input: seq<Event>, pos: nat, turn: nat, canceled: bool, runner: CommandRunner, state: S.ViewState,
              e: Ed.Editor, ghost past: Past)
    returns (end: Option<End>, next: nat, after: Ed.Editor, ghost now: Past, ghost going: Going)
    requires S.InStep(runner, state) && pos <= |input| && Position(input, past.presses) == Some(pos)
    requires Surrounds(past.world, runner) && past.initial == runner.initial && past.calls == runner.calls
    requires AtHead(past, state.Value()) && e == Ed.Replay(past.presses)
    requires turn == |past.presses| && canceled == past.world.CanceledAt(turn)
    modifies runner, state
    ensures S.InStep(runner, state)
    ensures Position(input, now.presses) == Some(next) && next <= |input|
    ensures end.None? ==> pos < next && after == Ed.Replay(now.presses) && AtHead(now, state.Value())
    ensures end.Some? ==>
              && Run(now.presses) && Followed(now, state.Value(), going)
              && EndsWith(input, now.presses, end.value, going, Exited(state.snapshot))
    ensures if end == Some(InputFailed) then
              now == past && past.calls == runner.calls && state.Value() == old(state.Value())
              && runner.actions == old(runner.actions)
            else
              && now.presses != [] && now.calls == runner.calls && old(runner.calls) <= runner.calls
              && now == past.Then(now.presses[|now.presses| - 1], old(state.Value())).(calls := runner.calls)
              && runner.actions == old(runner.actions) + LastAction(now.presses, past.world)
  {
    hide S.InStep, Understand, Ed.Press, Ed.Tidy, TrimSpace, Run, Position, ActionsOrdered, Ed.Replay, NextKey, GoesOn;
    hide Traced, Followed, Quiet, ActionsIn, Latest, Ed.LastEffect, EffectActions, Effected, AtHead, EndsWith;
    StateNow(runner, state);
    var exited, inspecting := Exited(state.snapshot), state.inspection.Some?;
    var key;
    key, next := ReadKey(input, pos, exited);
    after, now, going := e, past, GoOn;
    if key.None? {
      StillGoing(input, past, pos, state.Value());
      next := pos;
      return Some(InputFailed), next, after, now, going;
    }
    ghost var p, v := Ed.Pressed(key.value, exited, inspecting), state.Value();
    KeyRead(input, past, v, p, pos, next - pos);
    var commandMode, buffer, index, draft, history, effect := HandleKey(e, key.value, exited, inspecting);
    after := Ed.Editor(commandMode, Ed.Line(buffer, index, draft), history);
    ghost var made;
    var led;
    led, made := Effectuate(runner, state, effect, turn, canceled, past.world);
    going := led;
    KeyDone(input, past.Then(p, v), v, made, state.Value(), going);
    now := past.Then(p, v).(calls := runner.calls);
    end := None;
    if led != GoOn || effect == Ed.Stop || effect == Ed.Interrupt {
      end := Some(if led == Cancel || effect == Ed.Interrupt then Interrupted else Finished);
    }
  }

  lemma StillGoing(input: seq<Event>, past: Past, pos: nat, v: S.View)
    requires AtHead(past, v) && Position(input, past.presses) == Some(pos) && pos <= |input|
    requires NextKey(input[pos..], Exited(v.snapshot)).None?
    ensures Run(past.presses) && Followed(past, v, GoOn)
    ensures EndsWith(input, past.presses, InputFailed, GoOn, Exited(v.snapshot))
  {
    hide Run, Position, NextKey, GoesOn;
  }

  /** runTTYCommandLoop, over every sequence of events and every cancellation: `past` is the run, with the keys
      read and what each loop head saw, and `going` what the last key led to. */
  method RunTTYCommandLoop(input: seq<Event>, canceledFrom: Option<nat>, runner: CommandRunner, state: S.ViewState)
    returns (end: End, ghost past: Past, ghost going: Going)
    requires S.InStep(runner, state)
    modifies runner, state
    ensures S.InStep(runner, state) && Quiet(Exited(runner.initial), runner.calls)
    ensures past.world == World(runner.debuggee, runner.packages, canceledFrom)
    ensures past.initial == runner.initial && past.calls == runner.calls && old(runner.calls) <= runner.calls
    ensures Run(past.presses) && Followed(past, state.Value(), going)
    ensures EndsWith(input, past.presses, end, going, Exited(state.snapshot))
    ensures if past.presses == [] then runner.calls == old(runner.calls) && state.Value() == old(state.Value())
            else past.heads != [] && past.heads[0] == Head(|old(runner.calls)|, old(state.Value()))
    ensures Position(input, past.presses).Some?
    ensures runner.actions == old(runner.actions) + ActionsOrdered(past.presses, past.world)
  {
    hide S.InStep, Ed.Tidy, Run, Position, ActionsOrdered, Ed.Replay, Traced, Followed, Quiet, LastAction, AtHead,
         EndsWith;
    var pos, turn := 0, 0;
    var commandMode, commandBuf, historyIndex, historyDraft := false, "", -1, None;
    var commandHistory: seq<string> := [];
    ghost var world := World(runner.debuggee, runner.packages, canceledFrom);
    past, going := Past(world, runner.initial, [], [], runner.calls), GoOn;
    NoKeyYet(input, world);
    NoHeadYet(past, state.Value());
    while true
      invariant S.InStep(runner, state)
      invariant past.world == world && past.initial == runner.initial && past.calls == runner.calls
      invariant AtHead(past, state.Value()) && turn == |past.presses|
      invariant if past.presses == [] then runner.calls == old(runner.calls) && state.Value() == old(state.Value())
                else past.heads != [] && past.heads[0] == Head(|old(runner.calls)|, old(state.Value()))
      invariant old(runner.calls) <= runner.calls
      invariant runner.actions == old(runner.actions) + ActionsOrdered(past.presses, world)
      invariant Position(input, past.presses) == Some(pos) && pos <= |input|
      invariant Ed.Editor(commandMode, Ed.Line(commandBuf, historyIndex, historyDraft), commandHistory)
                  == Ed.Replay(past.presses)
      decreases |input| - pos
    {
      ghost var earlier := past;
      HeadsAlong(past, state.Value());
      var canceled := canceledFrom.Some? && canceledFrom.value <= turn;
      var ended, next, e;
      ended, next, e, past, going := Turn(input, pos, turn, canceled, runner, state,
        Ed.Editor(commandMode, Ed.Line(commandBuf, historyIndex, historyDraft), commandHistory), past);
      if past.presses != earlier.presses {
        OneMorePress(earlier.presses, past.presses[|past.presses| - 1], world);
        Regroup(old(runner.actions), ActionsOrdered(earlier.presses, world), LastAction(past.presses, world));
      }
      if ended.Some? {
        StateNow(runner, state);
        return ended.value, past, going;
      }
      pos, turn := next, turn + 1;
      commandMode, commandHistory := e.commandMode, e.history;
      commandBuf, historyIndex, historyDraft := e.line.buffer, e.line.index, e.line.draft;
    }
  }

  lemma NoHeadYet(past: Past, v: S.View)
    requires past.presses == [] && past.heads == []
    ensures AtHead(past, v)
  {
  }

  lemma HeadsAlong(past: Past, v: S.View)
    requires AtHead(past, v)
    ensures |past.heads| == |past.presses|
  {
  }

  // ---------- in plain terms ----------

  /** The keys that bytes spell, and how many events each takes. */
  lemma KeysInBytes(input: seq<Event>, b: char)
    requires |input| >= 3 && input[0] == Byte(27 as char)
    ensures NextKey(input, true) == Some((Ed.Plain(27 as char), 1))
    ensures input[1] == Byte('[') && input[2] == Byte('A') ==> NextKey(input, false) == Some((Ed.ArrowUp, 3))
    ensures input[1] == Byte('[') && input[2] == Byte('B') ==> NextKey(input, false) == Some((Ed.ArrowDown, 3))
    ensures input[1] == Byte('[') && input[2] == Byte(b) && b !in {'A', 'B', 0 as char} ==>
              NextKey(input, false) == Some((Ed.OtherSequence, 3))
    ensures input[1] == Byte('[') && (input[2] == Timeout || input[2] == Byte(0 as char)) ==>
              NextKey(input, false) == Some((Ed.EscapeKey, 3))
    ensures input[1] == Timeout || (input[1] == Byte(b) && b != '[') ==>
              NextKey(input, false) == Some((Ed.EscapeKey, 2))
    ensures input[1] == ReadError || (input[1] == Byte('[') && input[2] == ReadError) ==> NextKey(input, false) == None
  {
  }

  /** Any other byte is itself, and without one there is no key. */
  lemma PlainKeys(input: seq<Event>, b: char, exited: bool)
    ensures input != [] && input[0] == Byte(b) && b as int != 27 ==> NextKey(input, exited) == Some((Ed.Plain(b), 1))
    ensures input == [] || input[0] == Timeout || input[0] == ReadError ==> NextKey(input, exited) == None
  {
  }

  /** How an order ends, and whether the loop goes on. */
  lemma EndingsInWords(order: Order, ok: bool, made: seq<Call>)
    ensures Ending(Leave, ok, made) == Quit && Onward(Quit) == AllDone
    ensures order != Leave && ok ==> Ending(order, ok, made) == Success
    ensures order != Leave && !ok ==>
              Ending(order, ok, made) == Failure(if LastFault(made) == None then Other else LastFault(made).value)
    ensures Onward(Success) == Onward(Failure(Other)) == Onward(Failure(Unsupported)) == GoOn
    ensures Onward(Failure(Canceled)) == Cancel
  {
  }

  /** What each order is: the calls it may make, and what it leads to. */
  lemma OrdersInWords(order: Order, world: World, v: S.View, made: seq<Call>)
    requires Asks(order, world, v, made)
    ensures match order
            case ShowHelp =>
              made == [] && Result(order, world, v, made)
                            == (S.View(v.sticky, v.snapshot, Some(S.HelpView), {}), true)
            case ShowBreakpoints =>
              made == [] && Result(order, world, v, made)
                            == (S.View(v.sticky, v.snapshot, Some(S.BreakpointsView), {}), true)
            case Act(action) => made != [] && made[0].ActionCall? && made[0].action == action
            case SetBreakpoint(location) =>
              made == [] || (made[0].BreakCall?
                             && Resolve(location, v.snapshot, world.packages) == Some(made[0].location))
            case Evaluate(expr) => made == [] || (made[0].EvalCall? && made[0].expr == expr)
            case ShowLocals => made == [] || made[0].LocalsCall?
            case Expand(_) => made == [] || made[0].LocalsCall?
            case ShowOutput => made == [] || (made == [made[0]] && made[0].OutputCall?)
            case Nothing => made == [] && Result(order, world, v, made) == (v, true)
            case _ => made == [] && Result(order, world, v, made) == (v, false)
    ensures forall action :: ActionOf(Act(action)) == [action]
    ensures !order.Act? ==> ActionOf(order) == []
  {
    hide Resolve, Fetches;
  }

  /** From the turn of the cancellation on a submitted text does nothing and ends the loop; before it, or
      without one, the text is carried out. */
  lemma CancellationInWords(text: string, turn: nat, world: World, v: S.View, made: seq<Call>, v': S.View, going: Going)
    requires Trimmed(text) && Obeyed(text, turn, world, v, made, v', going)
    ensures world.canceledFrom.Some? && world.canceledFrom.value <= turn ==> made == [] && v' == v && going == Cancel
    ensures world.canceledFrom.None? || turn < world.canceledFrom.value ==>
              Asks(Understand(text, Exited(v.snapshot)), world, v, made)
              && v' == Result(Understand(text, Exited(v.snapshot)), world, v, made).0
  {
    hide Understand, Asks, Result;
  }
}
