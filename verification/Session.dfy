/** The session controller: it drives the client step by step, and closes it when a start fails. */
module Session {
  import opened GoStrings
  import opened Dap
  import opened Protocol
  import opened Links
  import opened Snapshots
  import Client
  import Mirror
  import Locations

  function CommandOf(action: Action): string {
    match action
    case Continue => "continue"
    case Next => "next"
    case StepIn => "stepIn"
  }

  /** What asking for a snapshot does to the connection: the stack of a stopped thread is asked for. */
  function Shot(w: Link): Link {
    if AtRest(w.seen) && !w.seen.stop.value.exited && w.seen.stop.value.threadId > 0 then Ask(w) else w
  }

  /** The request a snapshot makes: the stack of a stopped thread, one frame deep, when it can be written. */
  function StackAsked(state: StopState, number: int, faults: seq<bool>): seq<Request> {
    if state.running || state.exited || state.threadId <= 0 || (faults != [] && faults[0]) then []
    else [Request(number, "stackTrace", StackArguments(state.threadId, 1))]
  }

  /** The one request a snapshot may make. */
  lemma StackRequest(state: StopState, number: int, faults: seq<bool>)
    ensures StackAsked(state, number, faults) != [] ==>
              && !state.running && !state.exited && state.threadId > 0 && Writable(faults)
              && StackAsked(state, number, faults)
                   == [Request(number, "stackTrace", StackArguments(state.threadId, 1))]
    ensures !state.running && !state.exited && state.threadId > 0 && Writable(faults) ==>
              StackAsked(state, number, faults) != []
  {
  }

  /** The snapshot a connection yields: the stop state held when it is asked for, with the innermost frame and
      the window around it. */
  function SnapshotOf(windows: Frame -> Option<string>, w: Link): Snapshot
    requires w.seen.stop.Some?
  {
    var state := w.seen.stop.value;
    if state.running || state.exited then Snapshot(state, None, false, None)
    else
      match Client.StackOf(w, state.threadId)
      case Err(_) => Snapshot(state, None, true, None)
      case Ok(frames) =>
        if frames == [] then Snapshot(state, None, false, None)
        else Snapshot(state, Some(frames[0]), false, windows(frames[0]))
  }

  lemma SnapshotShowsTheStop(windows: Frame -> Option<string>, w: Link)
    requires w.seen.stop.Some?
    ensures SnapshotOf(windows, w).state == w.seen.stop.value
  {
  }

  predicate Stopped(w: Link) {
    && w.seen.stop.Some? && !w.seen.stop.value.running && !w.seen.stop.value.exited
    && w.seen.stop.value.threadId > 0
  }

  /** The snapshot of a stopped thread shows the first entry of the stack its request is answered with, as a
      frame of that thread, and the window around it. */
  lemma SnapshotInFields(windows: Frame -> Option<string>, w: Link, k: int, entries: seq<StackEntry>)
    requires Stopped(w) && Writable(w.faults)
    requires AnsweredAt(w.inbox, w.number + 1, k) && w.inbox[k].message.success
    requires w.inbox[k].message.body == StackBody(entries)
    ensures if entries == [] then SnapshotOf(windows, w) == Snapshot(w.seen.stop.value, None, false, None)
            else
              var frame := Frame.Frame(FrameRef(w.seen.stop.value.threadId, entries[0].id), entries[0].path,
                                       entries[0].line);
              SnapshotOf(windows, w) == Snapshot(w.seen.stop.value, Some(frame), false, windows(frame))
  {
    hide AnswerOf;
    AnswerIsReturned(w.inbox, w.number + 1, "stackTrace", k);
  }

  /** It shows no frame, and a warning, when the request is not answered with success. */
  lemma SnapshotWithoutStack(windows: Frame -> Option<string>, w: Link)
    requires Stopped(w)
    requires !Writable(w.faults)
             || forall k :: AnsweredAt(w.inbox, w.number + 1, k) ==> !w.inbox[k].message.success
    ensures SnapshotOf(windows, w) == Snapshot(w.seen.stop.value, None, true, None)
  {
    hide AnswerOf, AnsweredAt;
    AnswerInFields(w.inbox, w.number + 1, "stackTrace");
  }

  /** The outcome of a set request, and whether it succeeds, on a given connection. */
  function SetOutcome(w: Link, g: Registry.Group): Registry.Outcome {
    if Writable(w.faults) then Client.OutcomeOf(AnswerOf(w.inbox, w.number + 1, Client.SetCommand(g)))
      else Registry.Unsent
  }

  lemma SentOnceIsSet(w: Link, before: seq<Request>, after: seq<Request>, g: Registry.Group, specs: seq<Locations.Spec>,
                      outcome: Registry.Outcome)
    requires Client.SentOnce(Writable(w.faults), w.inbox, before, after,
                             Client.SetRequest(w.number + 1, g, specs), outcome)
    ensures outcome == SetOutcome(w, g)
    ensures Mirror.Succeeds(outcome, specs) ==> after == before + [Client.SetRequest(w.number + 1, g, specs)]
  {
  }

  /** The group and the specs a create sends to a registry that tracks nothing, if it sends any. */
  function FirstSet(spec: Locations.Spec, workingDir: Option<string>): Option<(Registry.Group, seq<Locations.Spec>)> {
    Mirror.PlanOf(Registry.EMPTY, Registry.Create(spec, workingDir))
  }

  /** A launch session starts exactly when the session opens, the breakpoint's request, the next after the
      snapshot's, is answered with a verified breakpoint, and the program then continues to a stop. */
  predicate Starts(w: Link, spec: Locations.Spec, workingDir: Option<string>) {
    && Opens(w)
    && Creates(Shot(Opened(w)), FirstSet(spec, workingDir))
    && Acts(Ask(Shot(Opened(w))))
  }

  predicate Creates(w: Link, first: Option<(Registry.Group, seq<Locations.Spec>)>) {
    first.Some? && Mirror.Succeeds(SetOutcome(w, first.value.0), first.value.1)
  }

  /** All that a start writes when it succeeds: the three requests that open the session, the stack at the
      entry stop, the breakpoint's list, the continue for the thread known by then, and the stack at its stop. */
  function StartRequests(w: Link, first: (Registry.Group, seq<Locations.Spec>), ended: StopState): seq<Request> {
    var opening := Opened(w);
    var ready := Shot(opening);
    var sent := Ask(ready);
    [Request(1, "initialize", OtherArguments), Request(2, "launch", OtherArguments),
     Request(3, "configurationDone", NoArguments)]
    + (if opening.seen.stop.None? then [] else StackAsked(opening.seen.stop.value, 4, opening.faults))
    + [Client.SetRequest(ready.number + 1, first.0, first.1)]
    + [Continuing(sent.seen.stop, sent.number + 1)]
    + StackAsked(ended, sent.number + 2, if sent.faults == [] then [] else sent.faults[1..])
  }

  function Continuing(stop: Option<StopState>, number: int): Request {
    var thread := if stop.Some? && stop.value.threadId > 0 then stop.value.threadId else 1;
    Request(number, "continue", ThreadArgument(thread))
  }

  lemma StartWrote(w: Link, first: (Registry.Group, seq<Locations.Spec>), ended: StopState, launched: seq<Request>)
    requires Opened(w).seen.stop.Some?
    requires var opening := Opened(w);
             launched == [Request(1, "initialize", OtherArguments), Request(2, "launch", OtherArguments),
                          Request(3, "configurationDone", NoArguments)]
                         + StackAsked(opening.seen.stop.value, 4, opening.faults)
    ensures var ready := Shot(Opened(w));
            var sent := Ask(ready);
            StartRequests(w, first, ended)
              == launched + [Client.SetRequest(ready.number + 1, first.0, first.1)]
                 + [Continuing(sent.seen.stop, sent.number + 1)]
                 + StackAsked(ended, sent.number + 2, if sent.faults == [] then [] else sent.faults[1..])
  {
    hide Opened, Shot, Ask, StackAsked, Client.SetRequest, Continuing;
  }

  /** A registry that tracks nothing answers no create by itself. */
  lemma FirstSetIsThePlan(spec: Locations.Spec, workingDir: Option<string>)
    ensures match Registry.PlanCreate(Registry.EMPTY, spec, workingDir)
            case Fail(_) => FirstSet(spec, workingDir).None?
            case Done(_) => false
            case Send(g, specs) => FirstSet(spec, workingDir) == Some((g, specs)) && specs != []
  {
  }

  /** Rendering the source window of a frame needs the file system: it is a fixed function here. */
  class Controller {
    const client: Client.Client
    const windows: Frame -> Option<string>
    var lastSnapshot: Option<Snapshot>

    constructor (client: Client.Client, windows: Frame -> Option<string>)
      ensures this.client == client && this.windows == windows && lastSnapshot.None?
    {
      this.client, this.windows, lastSnapshot := client, windows, None;
    }

    /** refreshSnapshot: exactly the stop state the client holds on entry, whatever is read while the
        stack is asked for; a running or exited program has no frame. */
    method RefreshSnapshot() returns (r: Result<Snapshot, Error>)
      requires client.Valid()
      modifies client`lastNumber, client`outbox, client`writeFaults, client`inbox, client`seen, client`log,
               client`exchanges, `lastSnapshot
      ensures client.Valid()
      ensures r.Ok? <==> client.connected && old(client.seen.stop.Some?)
      ensures r.Ok? ==>
                && r.value
                     == SnapshotOf(windows, old(Link(client.inbox, client.writeFaults, client.lastNumber, client.seen)))
                && lastSnapshot == Some(r.value)
                && Link(client.inbox, client.writeFaults, client.lastNumber, client.seen)
                     == Shot(old(Link(client.inbox, client.writeFaults, client.lastNumber, client.seen)))
      ensures r.Ok? ==>
                client.outbox
                  == old(client.outbox) + StackAsked(r.value.state, old(client.lastNumber) + 1, old(client.writeFaults))
      ensures r.Err? ==> lastSnapshot == old(lastSnapshot) && client.outbox == old(client.outbox)
    {
      hide Ask, Client.StackOf, Client.StackThread;
      AskIsOneRequest(Link(client.inbox, client.writeFaults, client.lastNumber, client.seen));
      if client.seen.stop.Some? {
        Client.ThreadAskedFor(client.seen.stop.value.threadId, client.seen);
      }
      var state := client.State();
      if state.Err? {
        return Err(state.error);
      }
      var snapshot := Snapshot(state.value, None, false, None);
      if snapshot.state.running || snapshot.state.exited {
        lastSnapshot := Some(snapshot);
        return Ok(snapshot);
      }
      var frames := client.Stack(snapshot.state.threadId, 1);
      if frames.Err? {
        snapshot := snapshot.(stackFailed := true);
      } else if frames.value != [] {
        var frame := frames.value[0];
        snapshot := snapshot.(frame := Some(frame), source := windows(frame));
      }
      lastSnapshot := Some(snapshot);
      r := Ok(snapshot);
    }

    method RefreshSnapshotOrClose() returns (r: Result<Snapshot, Error>)
      requires client.Valid()
      modifies client, `lastSnapshot
      ensures client.Valid()
      ensures r.Ok? <==> old(client.connected && client.seen.stop.Some?)
      ensures r.Ok? ==>
                && client.connected && client.book == old(client.book)
                && client.terminateDebuggee == old(client.terminateDebuggee)
                && client.outbox
                     == old(client.outbox)
                        + StackAsked(r.value.state, old(client.lastNumber) + 1, old(client.writeFaults))
                && r.value
                     == SnapshotOf(windows, old(Link(client.inbox, client.writeFaults, client.lastNumber, client.seen)))
                && lastSnapshot == Some(r.value)
                && Link(client.inbox, client.writeFaults, client.lastNumber, client.seen)
                     == Shot(old(Link(client.inbox, client.writeFaults, client.lastNumber, client.seen)))
      ensures r.Err? ==> client.Fresh() && lastSnapshot == old(lastSnapshot)
    {
      hide Shot, SnapshotOf;
      r := RefreshSnapshot();
      if r.Err? {
        client.Close();
      }
    }

    /** Continue, Next and StepIn: the action was carried out in this session, and the snapshot returned and
        kept is the one at its stop; after an error the last snapshot stands. */
    method Do(action: Action) returns (r: Result<Snapshot, Error>, ghost n: nat)
      requires client.Valid()
      modifies client`lastNumber, client`outbox, client`writeFaults, client`inbox, client`seen, client`log,
               client`exchanges, `lastSnapshot
      ensures client.Valid()
      ensures r.Ok? <==>
                client.connected && Acts(old(Link(client.inbox, client.writeFaults, client.lastNumber, client.seen)))
      ensures r.Ok? ==>
                var w := Acted(old(Link(client.inbox, client.writeFaults, client.lastNumber, client.seen)));
                && AtRest(w.seen) && r.value == SnapshotOf(windows, w) && lastSnapshot == Some(r.value)
                && Link(client.inbox, client.writeFaults, client.lastNumber, client.seen) == Shot(w)
      ensures r.Ok? ==> Completes(MarkRunning(old(client.seen)), old(client.inbox), old(client.lastNumber) + 1, n)
      ensures r.Ok? ==> n <= |old(client.inbox)| && exists k: nat :: SaidBy(old(client.inbox)[..n], k, r.value.state)
      ensures r.Err? ==> lastSnapshot == old(lastSnapshot)
      ensures !client.connected || !old(Writable(client.writeFaults)) ==> client.outbox == old(client.outbox)
      ensures client.connected && old(Writable(client.writeFaults)) ==>
                var command := match action case Continue => "continue" case Next => "next" case StepIn => "stepIn";
                var stop, number := old(client.seen.stop), old(client.lastNumber) + 1;
                var thread := if stop.Some? && stop.value.threadId > 0 then stop.value.threadId else 1;
                var faults := old(client.writeFaults);
                client.outbox
                  == old(client.outbox) + [Request(number, command, ThreadArgument(thread))]
                     + if r.Err? then []
                       else StackAsked(r.value.state, number + 1, if faults == [] then [] else faults[1..])
    {
      hide Completes, Consumed, Acts, Acted, Tried, Shot, SnapshotOf, SaidBy, StackAsked;
      ActedIsOneRequest(Link(client.inbox, client.writeFaults, client.lastNumber, client.seen));
      var state, sent, k := client.RunThreadAction(CommandOf(action));
      n := k;
      if state.Err? {
        return Err(state.error), n;
      }
      SnapshotShowsTheStop(windows, Link(client.inbox, client.writeFaults, client.lastNumber, client.seen));
      r := RefreshSnapshot();
    }

    method Launch(dialed: Option<seq<Delivery>>) returns (r: Result<Snapshot, Error>)
      requires client.Valid()
      modifies client, `lastSnapshot
      ensures client.Valid()
      ensures old(client.connected) ==> r == Err(AlreadyStarted) && unchanged(client)
      ensures !old(client.connected) && r.Err? ==> client.Fresh()
      ensures r.Err? ==> lastSnapshot == old(lastSnapshot)
      ensures r.Ok? <==>
                !old(client.connected) && dialed.Some? && Opens(Link(dialed.value, old(client.writeFaults), 0, NOTHING))
      ensures r.Ok? ==>
                var w := Opened(Link(dialed.value, old(client.writeFaults), 0, NOTHING));
                && AtRest(w.seen) && r.value == SnapshotOf(windows, w) && lastSnapshot == Some(r.value)
                && Link(client.inbox, client.writeFaults, client.lastNumber, client.seen) == Shot(w)
                && client.connected && client.book == Registry.EMPTY && client.terminateDebuggee
                && client.outbox
                     == [Request(1, "initialize", OtherArguments), Request(2, "launch", OtherArguments),
                         Request(3, "configurationDone", NoArguments)] + StackAsked(r.value.state, 4, w.faults)
    {
      hide Consumed, Opens, Opened, Shot, SnapshotOf, StackAsked, Client.GivenUp;
      var failure, n := client.OpenSession(dialed, true, "launch");
      if failure.Some? {
        return Err(failure.value);
      }
      r := RefreshSnapshotOrClose();
    }

    /** The breakpoint of a start, created in a session that tracks nothing yet. */
    method SetFirstBreakpoint(spec: Locations.Spec, workingDir: Option<string>)
      returns (r: Result<Registry.Breakpoint, Error>, ghost outcome: Registry.Outcome)
      requires client.Valid() && client.connected && client.book == Registry.EMPTY
      modifies client`lastNumber, client`outbox, client`writeFaults, client`inbox, client`seen, client`log,
               client`exchanges, client`book, client`doubtful
      ensures client.Valid()
      ensures var w := old(Link(client.inbox, client.writeFaults, client.lastNumber, client.seen));
              r.Ok? <==> Creates(w, FirstSet(spec, workingDir))
      ensures r.Ok? ==>
                var w := old(Link(client.inbox, client.writeFaults, client.lastNumber, client.seen));
                var (g, specs) := FirstSet(spec, workingDir).value;
                && outcome == SetOutcome(w, g)
                && specs != [] && Mirror.Succeeds(outcome, specs) && r.value == Mirror.LastReply(specs, outcome)
                && client.outbox == old(client.outbox) + [Client.SetRequest(w.number + 1, g, specs)]
                && Link(client.inbox, client.writeFaults, client.lastNumber, client.seen) == Ask(w)
                && client.book == Registry.Step(Registry.EMPTY, Registry.Create(spec, workingDir), outcome)
    {
      hide Registry.Step, Registry.PlanCreate, Mirror.Succeeds, Ask, AnswerOf, FirstSet, SetOutcome,
           Mirror.LastReply, Recorded, Client.SentOnce, Client.SetFailure, Client.SetRequest;
      FirstSetIsThePlan(spec, workingDir);
      r, outcome := client.CreateBreakpoint(spec, workingDir);
      if FirstSet(spec, workingDir).Some? {
        ghost var (g, specs) := FirstSet(spec, workingDir).value;
        SentOnceIsSet(old(Link(client.inbox, client.writeFaults, client.lastNumber, client.seen)), old(client.outbox),
                      client.outbox, g, specs, outcome);
      }
    }

    /** The rest of a start once the program is at its entry: the first breakpoint, and on to the first stop. */
    method BreakAndContinue(spec: Locations.Spec, workingDir: Option<string>)
      returns (r: Result<(Registry.Breakpoint, Snapshot), Error>, ghost outcome: Registry.Outcome)
      requires client.Valid() && client.connected && client.book == Registry.EMPTY
      modifies client, `lastSnapshot
      ensures client.Valid()
      ensures r.Err? ==> client.Fresh() && lastSnapshot == old(lastSnapshot)
      ensures var w := old(Link(client.inbox, client.writeFaults, client.lastNumber, client.seen));
              r.Ok? <==> Creates(w, FirstSet(spec, workingDir)) && Acts(Ask(w))
      ensures r.Ok? ==>
                var w := old(Link(client.inbox, client.writeFaults, client.lastNumber, client.seen));
                var (g, specs) := FirstSet(spec, workingDir).value;
                && outcome == SetOutcome(w, g)
                && specs != [] && Mirror.Succeeds(outcome, specs) && r.value.0 == Mirror.LastReply(specs, outcome)
                && AtRest(Acted(Ask(w)).seen) && r.value.1 == SnapshotOf(windows, Acted(Ask(w)))
                && lastSnapshot == Some(r.value.1)
                && client.outbox
                     == old(client.outbox) + [Client.SetRequest(w.number + 1, g, specs)]
                        + [Continuing(Ask(w).seen.stop, Ask(w).number + 1)]
                        + StackAsked(r.value.1.state, Ask(w).number + 2,
                                     if Ask(w).faults == [] then [] else Ask(w).faults[1..])
      ensures r.Ok? ==>
                && client.connected && client.terminateDebuggee == old(client.terminateDebuggee)
                && client.book == Registry.Step(Registry.EMPTY, Registry.Create(spec, workingDir), outcome)
    {
      hide Registry.Step, Completes, Mirror.Succeeds, Acts, Acted, Ask, FirstSet, SetOutcome, SnapshotOf,
           Mirror.LastReply, StackAsked, SaidBy, Client.SetRequest, Creates;
      var breakpoint;
      breakpoint, outcome := SetFirstBreakpoint(spec, workingDir);
      if breakpoint.Err? {
        client.Close();
        return Err(breakpoint.error), outcome;
      }
      ActedIsOneRequest(Link(client.inbox, client.writeFaults, client.lastNumber, client.seen));
      var snapshot, n := Do(Continue);
      if snapshot.Err? {
        client.Close();
        return Err(snapshot.error), outcome;
      }
      r := Ok((breakpoint.value, snapshot.value));
    }

    /** StartLaunchSession: a start that fails leaves the client as if it had never been opened; one that
        succeeds leaves it connected, stopped or exited, and tracking what the breakpoint request left. */
    method StartLaunchSession(dialed: Option<seq<Delivery>>, spec: Locations.Spec, workingDir: Option<string>)
      returns (r: Result<(Registry.Breakpoint, Snapshot), Error>, ghost outcome: Registry.Outcome)
      requires client.Valid()
      modifies client, `lastSnapshot
      ensures client.Valid()
      ensures old(client.connected) ==> r == Err(AlreadyStarted) && unchanged(client)
      ensures !old(client.connected) && r.Err? ==> client.Fresh()
      ensures r.Ok? <==>
              !old(client.connected) && dialed.Some? &&
                Starts(Link(dialed.value, old(client.writeFaults), 0, NOTHING), spec, workingDir)
      ensures r.Ok? ==>
                var ready := Shot(Opened(Link(dialed.value, old(client.writeFaults), 0, NOTHING)));
                var (g, specs) := FirstSet(spec, workingDir).value;
                && outcome == SetOutcome(ready, g)
                && specs != [] && Mirror.Succeeds(outcome, specs) && r.value.0 == Mirror.LastReply(specs, outcome)
                && AtRest(Acted(Ask(ready)).seen) && r.value.1 == SnapshotOf(windows, Acted(Ask(ready)))
                && lastSnapshot == Some(r.value.1)
      ensures r.Ok? ==>
                client.outbox == StartRequests(Link(dialed.value, old(client.writeFaults), 0, NOTHING),
                                               FirstSet(spec, workingDir).value, r.value.1.state)
      ensures r.Ok? ==>
                && client.connected && client.terminateDebuggee
                && client.book == Registry.Step(Registry.EMPTY, Registry.Create(spec, workingDir), outcome)
    {
      hide Registry.Step, Mirror.Succeeds, Opens, Opened, Shot, Acts, Acted, Ask, FirstSet, SetOutcome, SnapshotOf,
           Mirror.LastReply, StackAsked, Client.SetRequest, StartRequests;
      outcome := Registry.Unsent;
      var launched := Launch(dialed);
      if launched.Err? {
        return Err(launched.error), outcome;
      }
      ghost var before := client.outbox;
      SnapshotShowsTheStop(windows, Opened(Link(dialed.value, old(client.writeFaults), 0, NOTHING)));
      r, outcome := BreakAndContinue(spec, workingDir);
      if r.Ok? {
        assert Creates(Shot(Opened(Link(dialed.value, old(client.writeFaults), 0, NOTHING))),
                       FirstSet(spec, workingDir));
        StartWrote(Link(dialed.value, old(client.writeFaults), 0, NOTHING), FirstSet(spec, workingDir).value,
                   r.value.1.state, before);
      }
    }
  }
}
