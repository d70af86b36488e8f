/** What the terminal front end may ask of a debugging session, as one log of calls. */
module Runner {
  import opened GoStrings
  import opened Locals
  import opened Resolver
  import opened Snapshots

  /** The kinds of error the front end tells apart. */
  datatype Fault = Canceled | Unsupported | Other

  datatype Reply<+T> = Done(value: T) | Failed(fault: Fault)

  datatype Call =
    | ActionCall(action: Action, reply: Reply<Option<Snapshot>>)
    | BreakCall(location: string, created: Reply<()>)
    | ListCall(listed: Reply<()>)
    | LocalsCall(frame: FrameRef, locals: Reply<seq<Variable>>)
    | ChildrenCall(reference: int, children: Reply<seq<Variable>>)
    | EvalCall(frame: FrameRef, expr: string, value: Reply<Variable>)
    | OutputCall(entries: Reply<seq<string>>)

  /** The fault a call came back with, if it failed. */
  function Refusal(call: Call): Option<Fault> {
    match call
    case ActionCall(_, reply) => FaultOf(reply)
    case BreakCall(_, created) => FaultOf(created)
    case ListCall(listed) => FaultOf(listed)
    case LocalsCall(_, locals) => FaultOf(locals)
    case ChildrenCall(_, children) => FaultOf(children)
    case EvalCall(_, _, value) => FaultOf(value)
    case OutputCall(entries) => FaultOf(entries)
  }

  function FaultOf<T>(reply: Reply<T>): Option<Fault> {
    match reply
    case Done(_) => None
    case Failed(fault) => Some(fault)
  }

  /** The fault of the last of some calls, if it failed. */
  function LastFault(made: seq<Call>): Option<Fault> {
    if made == [] then None else Refusal(made[|made| - 1])
  }

  /** Calls that fetch children, each but the last answered. */
  predicate Fetches(made: seq<Call>) {
    made == [] || (
      var n := |made| - 1;
      made[n].ChildrenCall? && Fetches(made[..n]) && LastFault(made[..n]).None?)
  }

  lemma NothingFetched()
    ensures Fetches([]) && LastFault([]).None?
  {
  }

  lemma OneFetched(reference: int, reply: Reply<seq<Variable>>)
    ensures Fetches([ChildrenCall(reference, reply)]) && LastFault([ChildrenCall(reference, reply)]) == FaultOf(reply)
  {
    assert [ChildrenCall(reference, reply)][..0] == [];
  }

  lemma {:induction false} FetchesMore(made: seq<Call>, more: seq<Call>)
    requires Fetches(made) && LastFault(made).None? && Fetches(more)
    ensures Fetches(made + more) && LastFault(made + more) == LastFault(more)
    decreases |more|
  {
    if more == [] {
      assert made + more == made;
    } else {
      var n := |more| - 1;
      FetchesMore(made, more[..n]);
      assert (made + more)[..|made| + n] == made + more[..n];
    }
  }

  /** This call reported that the program has exited. */
  predicate ReportsExit(call: Call) {
    call.ActionCall? && call.reply.Done? && Exited(call.reply.value)
  }

  /** The program was over from the start, or some call of the log reported it. */
  predicate Over(started: bool, calls: seq<Call>) {
    started || (exists i :: 0 <= i < |calls| && ReportsExit(calls[i]))
  }

  /** Once the program is over, only captured output is asked for. */
  predicate Quiet(started: bool, calls: seq<Call>) {
    forall i :: 0 <= i < |calls| && Over(started, calls[..i]) ==> calls[i].OutputCall?
  }

  /** The debugger actions of a log, in order. */
  function ActionsIn(calls: seq<Call>): seq<Action> {
    if calls == [] then []
    else
      var last := calls[|calls| - 1];
      ActionsIn(calls[..|calls| - 1]) + (if last.ActionCall? then [last.action] else [])
  }

  /** The last snapshot a log reported, or the initial one. */
  function Latest(initial: Option<Snapshot>, calls: seq<Call>): Option<Snapshot> {
    if calls == [] then initial
    else
      var last := calls[|calls| - 1];
      if last.ActionCall? && last.reply.Done? then last.reply.value else Latest(initial, calls[..|calls| - 1])
  }

  lemma QuietSnoc(started: bool, calls: seq<Call>, call: Call)
    requires Quiet(started, calls)
    requires Over(started, calls) ==> call.OutputCall?
    ensures Quiet(started, calls + [call])
    ensures Over(started, calls + [call]) <==> Over(started, calls) || ReportsExit(call)
  {
    var more := calls + [call];
    forall i | 0 <= i < |more| && Over(started, more[..i])
      ensures more[i].OutputCall?
    {
      assert more[..i] == calls[..i];
      assert calls[..|calls|] == calls;
    }
    if Over(started, calls) && !started {
      var i :| 0 <= i < |calls| && ReportsExit(calls[i]);
      assert more[i] == calls[i];
    }
    if ReportsExit(call) {
      assert more[|calls|] == call;
    }
  }

  lemma QuietPrefix(started: bool, calls: seq<Call>, n: nat)
    requires Quiet(started, calls) && n <= |calls|
    ensures Quiet(started, calls[..n])
  {
    forall i | 0 <= i < n && Over(started, calls[..n][..i])
      ensures calls[..n][i].OutputCall?
    {
      assert calls[..n][..i] == calls[..i];
    }
  }

  /** In a quiet log the program is over exactly when the last snapshot reported is an exited one. */
  lemma {:induction false} OverIsLatest(initial: Option<Snapshot>, calls: seq<Call>)
    requires Quiet(Exited(initial), calls)
    ensures Over(Exited(initial), calls) <==> Exited(Latest(initial, calls))
    decreases |calls|
  {
    if calls != [] {
      var n := |calls| - 1;
      QuietPrefix(Exited(initial), calls, n);
      OverIsLatest(initial, calls[..n]);
      assert calls == calls[..n] + [calls[n]];
      QuietSnoc(Exited(initial), calls[..n], calls[n]);
    }
  }

  /** A session behind the commandRunner interface: replies are arbitrary, except that the children
      of a variables reference are a fixed function of it and that root locals have names. */
  class CommandRunner {
    const debuggee: Debuggee
    const packages: Packages
    const initial: Option<Snapshot>
    ghost var calls: seq<Call>
    ghost var over: bool
    ghost var latest: Option<Snapshot>
    ghost var actions: seq<Action>

    ghost predicate Valid()
      reads this
    {
      && Quiet(Exited(initial), calls) && over == Over(Exited(initial), calls)
      && latest == Latest(initial, calls) && actions == ActionsIn(calls)
    }

    constructor (debuggee: Debuggee, packages: Packages, initial: Option<Snapshot>)
      ensures Valid() && calls == [] && over == Exited(initial) && latest == initial && actions == []
      ensures this.debuggee == debuggee && this.packages == packages && this.initial == initial
    {
      this.debuggee, this.packages, this.initial := debuggee, packages, initial;
      calls, over, latest, actions := [], Exited(initial), initial, [];
    }

    ghost method Record(call: Call)
      requires Valid() && (over ==> call.OutputCall?)
      modifies this
      ensures Valid() && calls == old(calls) + [call] && over == (old(over) || ReportsExit(call))
      ensures actions == old(actions) + if call.ActionCall? then [call.action] else []
      ensures latest == if call.ActionCall? && call.reply.Done? then call.reply.value else old(latest)
    {
      QuietSnoc(Exited(initial), calls, call);
      assert (calls + [call])[..|calls|] == calls;
      calls, over := calls + [call], over || ReportsExit(call);
      actions := actions + if call.ActionCall? then [call.action] else [];
      latest := if call.ActionCall? && call.reply.Done? then call.reply.value else latest;
    }

    method Do(action: Action) returns (reply: Reply<Option<Snapshot>>)
      requires Valid() && !over
      modifies this
      ensures Valid() && calls == old(calls) + [ActionCall(action, reply)]
      ensures over <==> reply.Done? && Exited(reply.value)
      ensures actions == old(actions) + [action] && latest == if reply.Done? then reply.value else old(latest)
    {
      reply := *;
      Record(ActionCall(action, reply));
    }

    method CreateBreakpoint(location: string) returns (reply: Reply<()>)
      requires Valid() && !over
      modifies this
      ensures Valid() && calls == old(calls) + [BreakCall(location, reply)] && !over
      ensures actions == old(actions) && latest == old(latest)
    {
      reply := *;
      Record(BreakCall(location, reply));
    }

    method Breakpoints() returns (reply: Reply<()>)
      requires Valid() && !over
      modifies this
      ensures Valid() && calls == old(calls) + [ListCall(reply)] && !over
      ensures actions == old(actions) && latest == old(latest)
    {
      reply := *;
      Record(ListCall(reply));
    }

    method Locals(frame: FrameRef) returns (reply: Reply<seq<Variable>>)
      requires Valid() && !over
      modifies this
      ensures Valid() && calls == old(calls) + [LocalsCall(frame, reply)] && !over
      ensures actions == old(actions) && latest == old(latest)
      ensures reply.Done? ==> NamedRoots(reply.value)
    {
      var locals: seq<Variable>, fault: Fault := *, *;
      reply := if NamedRoots(locals) then Done(locals) else Failed(fault);
      Record(LocalsCall(frame, reply));
    }

    method Children(reference: int) returns (reply: Reply<seq<Variable>>)
      requires Valid() && !over
      modifies this
      ensures Valid() && calls == old(calls) + [ChildrenCall(reference, reply)] && !over
      ensures actions == old(actions) && latest == old(latest)
      ensures match debuggee(reference)
              case None => reply.Failed?
              case Some(children) => reply == Done(children)
    {
      var fault: Fault := *;
      reply := match debuggee(reference) case None => Failed(fault) case Some(children) => Done(children);
      Record(ChildrenCall(reference, reply));
    }

    method Eval(frame: FrameRef, expr: string) returns (reply: Reply<Variable>)
      requires Valid() && !over
      modifies this
      ensures Valid() && calls == old(calls) + [EvalCall(frame, expr, reply)] && !over
      ensures actions == old(actions) && latest == old(latest)
    {
      reply := *;
      Record(EvalCall(frame, expr, reply));
    }

    method Output() returns (reply: Reply<seq<string>>)
      requires Valid()
      modifies this
      ensures Valid() && calls == old(calls) + [OutputCall(reply)] && over == old(over)
      ensures actions == old(actions) && latest == old(latest)
    {
      reply := *;
      Record(OutputCall(reply));
    }
  }
}
