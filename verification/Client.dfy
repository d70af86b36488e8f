/** The DAP client: one connection, its request and wait loops, and the breakpoint registry it keeps. */
module Client {
  import opened GoStrings
  import opened Dap
  import opened Protocol
  import opened Links
  import opened Snapshots
  import Mirror
  import Listing
  import Locations

  /** For every group whose last request succeeded, the last list sent is exactly the list tracked. */
  ghost predicate Mirrored(book: Registry.State, outbox: seq<Request>, doubtful: set<Registry.Group>) {
    forall g :: g !in doubtful ==>
      Registry.SpecsOf(g, LastSent(outbox, g)) == Registry.TrackedSpecs(book.Items(g))
  }

  lemma StartIsValid()
    ensures Coherent(NOTHING, [], [], [], 0) && Registry.Valid(Registry.EMPTY) && Mirrored(Registry.EMPTY, [], {})
  {
    assert forall g :: Registry.SpecsOf(g, []) == Registry.TrackedSpecs([]);
  }

  /** A set request, however it ends, keeps the mirror for the groups whose last request succeeded. */
  lemma {:induction false} SetKeepsMirror(book: Registry.State, outbox: seq<Request>, doubtful: set<Registry.Group>,
                                          g: Registry.Group, specs: seq<Locations.Spec>, request: Request,
                                          outcome: Registry.Outcome)
    requires Mirrored(book, outbox, doubtful) && Registry.SpecsOk(g, specs)
    requires request.arguments == SetGroup(g, Registry.BuildEntries(g, specs))
    ensures var outbox' := if outcome.Unsent? then outbox else outbox + [request];
            var doubtful' := if Mirror.Succeeds(outcome, specs) then doubtful - {g} else doubtful + {g};
            Mirrored(Registry.After(book, g, specs, outcome), outbox', doubtful')
  {
    hide Registry.BuildEntries, Registry.SpecsOf;
    var outbox' := if outcome.Unsent? then outbox else outbox + [request];
    var doubtful' := if Mirror.Succeeds(outcome, specs) then doubtful - {g} else doubtful + {g};
    var book' := Registry.After(book, g, specs, outcome);
    if Mirror.Succeeds(outcome, specs) {
      Mirror.AfterSuccess(book, g, specs, outcome);
      Registry.BuildSkipsNothing(g, specs);
    }
    forall other | other !in doubtful'
      ensures Registry.SpecsOf(other, LastSent(outbox', other)) == Registry.TrackedSpecs(book'.Items(other))
    {
      LastSentSnoc(outbox, request, other);
    }
  }

  /** A request that could be written was, once, and its outcome is what the deliveries after it answer. */
  predicate SentOnce(writable: bool, inbox: seq<Delivery>, before: seq<Request>, after: seq<Request>,
                     request: Request, outcome: Registry.Outcome) {
    if writable then
      after == before + [request] && outcome == OutcomeOf(AnswerOf(inbox, request.number, request.command))
    else after == before && outcome.Unsent?
  }

  /** The thread whose stack is asked for. */
  function StackThread(threadId: int, seen: Observed): int {
    if threadId <= 0 && seen.stop.Some? then seen.stop.value.threadId else threadId
  }

  function FramesOf(entries: seq<StackEntry>, thread: int): (frames: seq<Frame>)
    ensures |frames| == |entries|
    ensures forall i :: 0 <= i < |frames| ==>
                          frames[i] == Frame.Frame(FrameRef(thread, entries[i].id), entries[i].path, entries[i].line)
  {
    seq(|entries|, i requires 0 <= i < |entries| =>
        Frame.Frame(FrameRef(thread, entries[i].id), entries[i].path, entries[i].line))
  }

  function DecodeStack(body: Body, thread: int): Result<seq<Frame>, Error> {
    if body.NoBody? || body.Undecodable? then Err(UndecodableStack)
    else Ok(FramesOf(if body.StackBody? then body.entries else [], thread))
  }

  /** What asking a connected client for a stack returns. */
  function StackOf(w: Link, threadId: int): Result<seq<Frame>, Error> {
    var thread := StackThread(threadId, w.seen);
    if thread <= 0 then Err(NoThread)
    else if !Writable(w.faults) then Err(WriteFailed)
    else
      match AnswerOf(w.inbox, w.number + 1, "stackTrace")
      case Err(e) => Err(e)
      case Ok(Response(_, _, _, body)) => DecodeStack(body, thread)
      case Ok(_) => Err(ReadFailed) // a message of another type is no answer
  }

  /** What a session that fails to open has written: its first requests, and a goodbye if the connection
      takes it. */
  function GivenUp(w: Link, command: string, terminate: bool): seq<Request> {
    var ended := Negotiated(w);
    Written(w, command)
    + if Writable(ended.faults) then [Request(ended.number + 1, "disconnect", TerminateDebuggee(terminate))] else []
  }

  class Client {
    // the connection: what the peer will still deliver, and what was written since it was made
    var connected: bool
    var inbox: seq<Delivery>
    var outbox: seq<Request>
    var writeFaults: seq<bool>

    // the session: last request number, what events left behind, tracked breakpoints
    var lastNumber: int
    var terminateDebuggee: bool
    var seen: Observed
    var book: Registry.State

    // history, for the specification
    ghost var log: seq<LogEntry>
    ghost var exchanges: seq<Exchange>
    ghost var doubtful: set<Registry.Group>

    /** Nothing is remembered of any session, but what was written on the connection that ended. */
    ghost predicate Fresh()
      reads this
    {
      && !connected
      && inbox == [] && lastNumber == 0
      && seen == NOTHING && book == Registry.EMPTY
      && log == [] && exchanges == [] && doubtful == {}
    }

    ghost predicate Valid()
      reads this
    {
      && Registry.Valid(book)
      && if connected then Coherent(seen, log, exchanges, outbox, lastNumber) && Mirrored(book, outbox, doubtful)
         else Fresh()
    }

    constructor ()
      ensures Valid() && Fresh() && outbox == []
    {
      connected, inbox, outbox, writeFaults := false, [], [], [];
      lastNumber, terminateDebuggee, seen, book := 0, false, NOTHING, Registry.EMPTY;
      log, exchanges, doubtful := [], [], {};
      new;
      StartIsValid();
    }

    // ---------- reading and writing ----------

    /** Writes one frame; the connection may refuse it. */
    method WriteRequest(request: Request) returns (ok: bool)
      modifies `outbox, `writeFaults
      ensures ok == Writable(old(writeFaults)) && writeFaults == Rest(old(writeFaults))
      ensures outbox == if ok then old(outbox) + [request] else old(outbox)
    {
      ok := true;
      if writeFaults != [] {
        ok := !writeFaults[0];
        writeFaults := writeFaults[1..];
      }
      if ok {
        outbox := outbox + [request];
      }
    }

    /** Reads one message. A connection with nothing more to deliver fails or times out. */
    method ReadMessage() returns (d: Delivery)
      modifies `inbox
      ensures old(inbox) == [] ==> d == ReadError && inbox == []
      ensures old(inbox) != [] ==> d == old(inbox)[0] && inbox == old(inbox)[1..]
    {
      d := ReadError;
      if inbox != [] {
        d := inbox[0];
        inbox := inbox[1..];
      }
    }

    /** handleEventLocked; false on an event body that does not decode. */
    method HandleEvent(e: Event) returns (ok: bool)
      modifies `seen
      ensures seen == OnEvent(old(seen), e)
      ensures match e
              case Stopped(Some((reason, threadId))) =>
                seen == old(seen).(stop := Some(StopState(false, false, reason, threadId, threadId)))
              case Continued =>
                var thread := if old(seen).stop.Some? then old(seen).stop.value.threadId else 0;
                seen == old(seen).(stop := Some(StopState(true, false, ReasonUnknown, thread, thread)))
              case Terminated => seen == old(seen).(stop := Some(StopState(false, true, ReasonExit, 0, 0)))
              case Output(Some((_, text))) => seen.stop == old(seen.stop) && seen.debug == old(seen.debug) + text
              case _ => seen == old(seen)
      ensures ok <==> e != Stopped(None) && e != Output(None)
    {
      match e {
        case Stopped(body) =>
          if body.None? {
            return false;
          }
          seen := seen.(stop := Some(StoppedState(body.value.0, body.value.1)));
        case Continued =>
          var threadId := 0;
          if seen.stop.Some? {
            threadId := seen.stop.value.threadId;
          }
          seen := seen.(stop := Some(RunningState(threadId)));
        case Terminated =>
          seen := seen.(stop := Some(EXITED_STATE));
        case Output(body) =>
          if body.None? {
            return false;
          }
          seen := seen.(debug := seen.debug + body.value.1);
          if body.value.0.Some? {
            AppendTargetOutput(OutputEntry(body.value.0.value, body.value.1));
          }
        case OtherEvent =>
      }
      ok := true;
    }

    method AppendTargetOutput(entry: OutputEntry)
      modifies `seen
      ensures seen == old(seen).(target := AppendTarget(old(seen).target, entry))
    {
      BlankIffTrimsToNothing(entry.text);
      if TrimSpace(entry.text) == "" {
        return;
      }
      var target := seen.target + [entry];
      if |target| > MAX_TARGET_OUTPUT {
        target := target[|target| - MAX_TARGET_OUTPUT..];
      }
      seen := seen.(target := target);
    }

    // ---------- the two loops ----------

    /** Reads one message and, if it is an event, handles it; `handled` is false on an undecodable event.
        Both loops of the client begin this way. */
    method ReadAndHandle() returns (d: Delivery, handled: bool)
      modifies `inbox, `seen, `log
      ensures old(inbox) == [] ==> d == ReadError && inbox == [] && seen == old(seen) && log == old(log)
      ensures old(inbox) != [] ==>
                && d == old(inbox)[0] && inbox == old(inbox)[1..]
                && seen == OnDelivery(old(seen), d)
                && log == old(log) + [Got(d)]
      ensures handled == !(d.Frame? && d.message.EventMessage? && BadEvent(d.message.event))
    {
      handled := true;
      var exhausted := inbox == [];
      d := ReadMessage();
      if !exhausted {
        log := log + [Got(d)];
        if d.Frame? && d.message.EventMessage? {
          handled := HandleEvent(d.message.event);
        }
      }
    }

    /** The read loop of requestLocked: up to the answer to request `number`, or the first failure. */
    method AwaitAnswer(number: int) returns (d: Delivery, ghost n: nat)
      modifies `inbox, `seen, `log
      ensures Consumed(old(Tape(inbox, log, seen)), n, Tape(inbox, log, seen))
      ensures n == ReadsOf(old(inbox), number)
      ensures var k := EndOf(old(inbox), number); d == if k < |old(inbox)| then old(inbox)[k] else ReadError
    {
      n := 0;
      NothingConsumed(Tape(inbox, log, seen));
      while true
        invariant Consumed(old(Tape(inbox, log, seen)), n, Tape(inbox, log, seen))
        invariant EndOf(old(inbox), number) == n + EndOf(inbox, number)
        decreases |inbox|
      {
        if inbox != [] {
          ConsumedOneMore(old(Tape(inbox, log, seen)), n, Tape(inbox, log, seen));
          n := n + 1;
        }
        var handled;
        d, handled := ReadAndHandle();
        if d.ReadError? {
          return;
        }
        if d.message.EventMessage? {
          if !handled {
            return;
          }
          continue;
        }
        if d.message.Response? && d.message.requestSeq == number {
          return;
        }
      }
    }

    /** requestErrorLocked */
    method RequestError(command: string, message: string, body: Body, debugOutputStart: nat) returns (error: Error)
      requires debugOutputStart <= |seen.debug|
      ensures error == RequestFailed(RefusalText(command, message, body, seen.debug[debugOutputStart..]))
    {
      hide TrimSpace, Join;
      var details: seq<string> := [];
      var text := TrimSpace(message);
      if text != "" {
        details := details + [text];
      }
      if body.ErrorBody? {
        var formatted := TrimSpace(body.format);
        if formatted != "" && formatted !in details {
          details := details + [formatted];
        }
      }
      var output := TrimSpace(seen.debug[debugOutputStart..]);
      if output != "" {
        details := details + [output];
      }
      if |details| == 0 {
        return RequestFailed("dap " + command + " failed" + "");
      }
      error := RequestFailed("dap " + command + " failed" + (": " + Join(details, '\n')));
    }

    /** The reading half of requestLocked, for the request written last. */
    method ReceiveAnswer(command: string, ghost earlier: seq<Request>, ghost request: Request)
      returns (r: Result<Message, Error>, ghost n: nat)
      requires seen == Replay(log) && WellAnswered(log, exchanges, lastNumber - 1)
      requires Numbered(outbox, lastNumber) && lastNumber > 0
      requires outbox == earlier + [request] && request.number == lastNumber && SentFor(earlier, exchanges)
      modifies `inbox, `seen, `log, `exchanges
      ensures Coherent(seen, log, exchanges, outbox, lastNumber)
      ensures Consumed(old(Tape(inbox, log, seen)), n, Tape(inbox, log, seen))
      ensures n == ReadsOf(old(inbox), lastNumber) && r == AnswerOf(old(inbox), lastNumber, command)
      ensures exchanges == Recorded(old(exchanges), old(inbox), lastNumber, |old(log)|)
      ensures r.Ok? ==> r.value.Response?
    {
      hide WellAnswered, Numbered, LastSent, SentFor, Fold, RefusalText;
      var debugOutputStart := |seen.debug|;
      var d;
      d, n := AwaitAnswer(lastNumber);
      if d.ReadError? || d.message.EventMessage? {
        UnansweredKeepsCoherence(old(Tape(inbox, log, seen)), n, Tape(inbox, log, seen), exchanges, earlier, request);
        return Err(if d.ReadError? then ReadFailed else UndecodableEvent), n;
      }
      AnswerKeepsCoherence(old(Tape(inbox, log, seen)), n, Tape(inbox, log, seen), exchanges, earlier, request);
      exchanges := exchanges + [Exchange(lastNumber, |old(log)|, |log| - 1)];
      if !d.message.success {
        var error := RequestError(command, d.message.text, d.message.body, debugOutputStart);
        return Err(error), n;
      }
      r := Ok(d.message);
    }

    /** requestLocked. `sent` says whether the request was written, `n` how many messages were read. */
    method RequestLocked(command: string, arguments: Arguments)
      returns (r: Result<Message, Error>, ghost sent: bool, ghost n: nat)
      requires connected ==> Coherent(seen, log, exchanges, outbox, lastNumber)
      modifies `lastNumber, `outbox, `writeFaults, `inbox, `seen, `log, `exchanges
      ensures connected ==> Coherent(seen, log, exchanges, outbox, lastNumber)
      ensures Consumed(old(Tape(inbox, log, seen)), n, Tape(inbox, log, seen))
      ensures lastNumber == if connected then old(lastNumber) + 1 else old(lastNumber)
      ensures writeFaults == if connected then Rest(old(writeFaults)) else old(writeFaults)
      ensures sent <==> connected && Writable(old(writeFaults))
      ensures outbox == if sent then old(outbox) + [Request(lastNumber, command, arguments)] else old(outbox)
      ensures !sent ==> r == Err(if connected then WriteFailed else NotConnected)
      ensures !sent ==> n == 0 && inbox == old(inbox) && log == old(log) && seen == old(seen)
      ensures sent ==> n == ReadsOf(old(inbox), lastNumber) && r == AnswerOf(old(inbox), lastNumber, command)
      ensures exchanges == if sent then Recorded(old(exchanges), old(inbox), lastNumber, |old(log)|) else old(exchanges)
      ensures r.Ok? ==> r.value.Response?
    {
      hide WellAnswered, Numbered, SentFor, Recorded, Fold, Replay, AnswerOf, ReadsOf, EndOf, Rest, Consumed;
      n, sent := 0, false;
      NothingConsumed(Tape(inbox, log, seen));
      if !connected {
        return Err(NotConnected), sent, n;
      }
      lastNumber := lastNumber + 1;
      MoreReads(log, log, exchanges, lastNumber - 1, lastNumber);
      var request := Request(lastNumber, command, arguments);
      NumberedSnoc(outbox, request);
      var written := WriteRequest(request);
      if !written {
        return Err(WriteFailed), sent, n;
      }
      sent := true;
      r, n := ReceiveAnswer(command, old(outbox), request);
    }

    /** waitForStop: reads until the debuggee is at rest. `n` counts the messages read. */
    method WaitForStop() returns (failure: Option<Error>, ghost n: nat)
      requires Valid() && connected
      modifies `inbox, `seen, `log
      ensures Valid()
      ensures Consumed(old(Tape(inbox, log, seen)), n, Tape(inbox, log, seen))
      ensures failure.None? <==> AtRest(seen)
      ensures n == WaitReads(old(seen), old(inbox))
      ensures Link(inbox, writeFaults, lastNumber, seen) == Await(old(Link(inbox, writeFaults, lastNumber, seen)))
    {
      hide WellAnswered, Numbered, LastSent, SentFor, Replay, Fold;
      n, failure := 0, None;
      NothingConsumed(Tape(inbox, log, seen));
      while !(seen.stop.Some? && !seen.stop.value.running)
        invariant Consumed(old(Tape(inbox, log, seen)), n, Tape(inbox, log, seen))
        invariant WaitReads(old(seen), old(inbox)) == n + WaitReads(seen, inbox)
        decreases |inbox|
      {
        var exhausted := inbox == [];
        if !exhausted {
          ConsumedOneMore(old(Tape(inbox, log, seen)), n, Tape(inbox, log, seen));
          n := n + 1;
        }
        var d, handled := ReadAndHandle();
        if d.ReadError? || !handled {
          failure := Some(if d.ReadError? then ReadFailed else UndecodableEvent);
          break;
        }
      }
      ReadsKeepCoherence(old(Tape(inbox, log, seen)), n, Tape(inbox, log, seen), exchanges, outbox, lastNumber);
    }

    /** A request that is not about breakpoints. */
    method PlainRequest(command: string, arguments: Arguments)
      returns (r: Result<Message, Error>, ghost sent: bool, ghost n: nat)
      requires Valid() && !arguments.SetGroup?
      modifies `lastNumber, `outbox, `writeFaults, `inbox, `seen, `log, `exchanges
      ensures Valid()
      ensures Consumed(old(Tape(inbox, log, seen)), n, Tape(inbox, log, seen))
      ensures lastNumber == if connected then old(lastNumber) + 1 else old(lastNumber)
      ensures sent <==> connected && Writable(old(writeFaults))
      ensures outbox == if sent then old(outbox) + [Request(lastNumber, command, arguments)] else old(outbox)
      ensures !sent ==> n == 0 && r == Err(if connected then WriteFailed else NotConnected)
      ensures sent ==> n == ReadsOf(old(inbox), lastNumber) && r == AnswerOf(old(inbox), lastNumber, command)
      ensures exchanges == if sent then Recorded(old(exchanges), old(inbox), lastNumber, |old(log)|) else old(exchanges)
      ensures connected ==>
                Link(inbox, writeFaults, lastNumber, seen) == Ask(old(Link(inbox, writeFaults, lastNumber, seen)))
      ensures r.Ok? <==> connected && Granted(old(Link(inbox, writeFaults, lastNumber, seen)))
      ensures r.Ok? ==> r.value.Response?
    {
      hide Coherent, LastSent, Recorded, Fold, AnswerOf, ReadsOf, EndOf, Granted, Consumed, Ask, Writable, Rest;
      OtherRequestsSendNoList(outbox, Request(lastNumber + 1, command, arguments));
      GrantedIsAnswered(Link(inbox, writeFaults, lastNumber, seen), command);
      r, sent, n := RequestLocked(command, arguments);
      if sent {
        AskedBy(old(Tape(inbox, log, seen)), n, Tape(inbox, log, seen), old(writeFaults), lastNumber);
      } else if connected {
        NotAsked(old(Link(inbox, writeFaults, lastNumber, seen)));
      }
    }

    // ---------- thread actions ----------

    /** State: the last known stop state of a connected client. */
    method State() returns (r: Result<StopState, Error>)
      ensures r == if !connected then Err(NotConnected)
                   else if seen.stop.None? then Err(NoStopState) else Ok(seen.stop.value)
    {
      if !connected {
        return Err(NotConnected);
      }
      if seen.stop.None? {
        return Err(NoStopState);
      }
      r := Ok(seen.stop.value);
    }

    /** The locked prefix of runThreadAction: the debuggee counts as running from here on. */
    method MarkThreadRunning() returns (threadId: int)
      requires Valid() && connected
      modifies `seen, `log
      ensures Valid()
      ensures threadId == ThreadFor(old(seen)) && seen == MarkRunning(old(seen))
      ensures threadId == if old(seen.stop.Some? && seen.stop.value.threadId > 0) then old(seen.stop.value.threadId)
                          else 1
      ensures seen == old(seen).(stop := Some(StopState(true, false, NoReason, threadId, threadId)))
      ensures log == old(log) + [ActionStarted]
    {
      threadId := 1;
      if seen.stop.Some? && seen.stop.value.threadId > 0 {
        threadId := seen.stop.value.threadId;
      }
      seen := seen.(stop := Some(StopState(true, false, NoReason, threadId, threadId)));
      ReplayOne(log, ActionStarted);
      MoreReads(log, log + [ActionStarted], exchanges, lastNumber, lastNumber);
      log := log + [ActionStarted];
    }

    /** runThreadAction, for continue, next and stepIn. Success and completion coincide: the request was
        written and Completes holds of what was delivered after it, for exactly the `n` messages read. */
    method RunThreadAction(command: string) returns (r: Result<StopState, Error>, ghost sent: bool, ghost n: nat)
      requires Valid()
      modifies `lastNumber, `outbox, `writeFaults, `inbox, `seen, `log, `exchanges
      ensures Valid()
      ensures lastNumber == if connected then old(lastNumber) + 1 else old(lastNumber)
      ensures sent <==> connected && Writable(old(writeFaults))
      ensures outbox == if sent then old(outbox) + [Request(lastNumber, command, ThreadArgument(ThreadFor(old(seen))))]
                        else old(outbox)
      ensures !connected ==>
                r == Err(NotConnected) && !sent && seen == old(seen) && log == old(log) && inbox == old(inbox)
      ensures connected ==>
                Consumed(old(Tape(inbox, log + [ActionStarted], MarkRunning(seen))), n, Tape(inbox, log, seen))
      ensures r.Ok? ==> sent && Completes(MarkRunning(old(seen)), old(inbox), lastNumber, n)
      ensures r.Ok? <==> connected && Acts(old(Link(inbox, writeFaults, lastNumber, seen)))
      ensures r.Ok? ==>
                Link(inbox, writeFaults, lastNumber, seen) == Acted(old(Link(inbox, writeFaults, lastNumber, seen)))
      ensures connected ==>
                Link(inbox, writeFaults, lastNumber, seen) == Tried(old(Link(inbox, writeFaults, lastNumber, seen)))
      ensures exchanges
                == if sent then Recorded(old(exchanges), old(inbox), lastNumber, |old(log)| + 1) else old(exchanges)
      ensures r.Ok? ==> seen.stop == Some(r.value) && !r.value.running
      ensures r.Ok? ==> n <= |old(inbox)| && exists k: nat :: SaidBy(old(inbox)[..n], k, r.value)
      ensures sent && r.Err? ==> forall m: nat :: !Completes(MarkRunning(old(seen)), old(inbox), lastNumber, m)
    {
      hide Coherent, Completes, Fold, Replay, LastSent, WaitReads, AnswerOf, ReadsOf, EndOf, Recorded;
      hide Ask, Granted, Await, Rest, Writable, SaidBy;
      sent, n := false, 0;
      if !connected {
        return Err(NotConnected), sent, n;
      }
      var threadId := MarkThreadRunning();
      var answer;
      answer, sent, n := PlainRequest(command, ThreadArgument(threadId));
      if answer.Err? {
        if sent {
          forall m: nat
            ensures !Completes(MarkRunning(old(seen)), old(inbox), lastNumber, m)
          {
            RefusedNeverCompletes(MarkRunning(old(seen)), old(inbox), lastNumber, command, m);
          }
        }
        return Err(answer.error), sent, n;
      }
      ghost var tape := Tape(inbox, log, seen);
      ghost var w;
      var failure;
      failure, w := WaitForStop();
      ActionEnds(old(Tape(inbox, log + [ActionStarted], MarkRunning(seen))), lastNumber, command, n, tape, w,
                 Tape(inbox, log, seen));
      n := n + w;
      if failure.Some? {
        return Err(failure.value), sent, n;
      }
      r := State();
      ghost var stop := CompletionInFields(old(seen), old(inbox), lastNumber, n);
    }

    /** Stack: the frames of a thread, or of the stopped one. */
    method Stack(threadId: int, depth: int) returns (r: Result<seq<Frame>, Error>)
      requires Valid()
      modifies `lastNumber, `outbox, `writeFaults, `inbox, `seen, `log, `exchanges
      ensures Valid()
      ensures r == if !connected then Err(NotConnected)
                   else StackOf(old(Link(inbox, writeFaults, lastNumber, seen)), threadId)
      ensures var w := old(Link(inbox, writeFaults, lastNumber, seen));
              var thread := StackThread(threadId, w.seen);
              var asked := connected && thread > 0;
              && Link(inbox, writeFaults, lastNumber, seen) == (if asked then Ask(w) else w)
              && outbox == (if !asked || !Writable(w.faults) then old(outbox)
                            else old(outbox) + [Request(lastNumber, "stackTrace", StackArguments(thread, depth))])
    {
      hide Ask, Granted, AnswerOf, Coherent, Recorded, Consumed, Mirrored, Registry.Valid, Writable;
      if !connected {
        return Err(NotConnected);
      }
      var thread := threadId;
      if thread <= 0 && seen.stop.Some? {
        thread := seen.stop.value.threadId;
      }
      if thread <= 0 {
        return Err(NoThread);
      }
      var answer, sent, n := PlainRequest("stackTrace", StackArguments(thread, depth));
      if answer.Err? {
        return Err(answer.error);
      }
      var body := answer.value.body;
      if body.NoBody? || body.Undecodable? {
        return Err(UndecodableStack);
      }
      var entries := if body.StackBody? then body.entries else [];
      var frames := [];
      for i := 0 to |entries|
        invariant frames == FramesOf(entries[..i], thread)
      {
        frames := frames + [Frame.Frame(FrameRef(thread, entries[i].id), entries[i].path, entries[i].line)];
      }
      assert entries[..|entries|] == entries;
      r := Ok(frames);
    }

    // ---------- opening and closing ----------

    /** start: `dialed` is what a new server connection will deliver, or None when there is none. */
    method Start(dialed: Option<seq<Delivery>>) returns (failure: Option<Error>)
      requires Valid()
      modifies `connected, `inbox, `outbox
      ensures Valid()
      ensures old(connected) ==> failure == Some(AlreadyStarted) && unchanged(this)
      ensures !old(connected) && dialed.None? ==> failure == Some(StartFailed) && unchanged(this)
      ensures !old(connected) && dialed.Some? ==> failure.None? && connected && inbox == dialed.value && outbox == []
    {
      if connected {
        return Some(AlreadyStarted);
      }
      if dialed.None? {
        return Some(StartFailed);
      }
      connected, inbox, outbox := true, dialed.value, [];
      StartIsValid();
      failure := None;
    }

    /** Close: says goodbye if it can, and forgets everything either way. `outbox` still shows all that was
        written on the connection that ended. */
    method Close()
      requires Valid()
      modifies this
      ensures Valid() && Fresh()
      ensures outbox
                == old(outbox)
                   + if !old(connected && Writable(writeFaults)) then []
                     else [Request(old(lastNumber) + 1, "disconnect", TerminateDebuggee(old(terminateDebuggee)))]
    {
      hide WellAnswered, Numbered, SentFor, Fold, Replay, LastSent, AnswerOf, ReadsOf, EndOf, Consumed, Recorded, Ask,
           Granted;
      if connected {
        var farewell, sent, n := PlainRequest("disconnect", TerminateDebuggee(terminateDebuggee));
        connected, inbox := false, [];
      }
      lastNumber, seen, book := 0, NOTHING, Registry.EMPTY;
      log, exchanges, doubtful := [], [], {};
      StartIsValid();
    }

    /** openSession. A session that opens is at rest, on a stop announced by this connection, whether it
        came before or after the last answer; a session that fails to open leaves nothing behind. */
    method OpenSession(dialed: Option<seq<Delivery>>, terminate: bool, command: string)
      returns (failure: Option<Error>, ghost n: nat)
      requires Valid()
      modifies this
      ensures Valid()
      ensures old(connected) ==> failure == Some(AlreadyStarted) && unchanged(this)
      ensures !old(connected) && failure.Some? ==> Fresh()
      ensures !old(connected) && dialed.None? ==> failure == Some(StartFailed) && outbox == old(outbox)
      ensures !old(connected) && dialed.Some? && failure.Some? ==>
                outbox == GivenUp(Link(dialed.value, old(writeFaults), 0, NOTHING), command, terminate)
      ensures failure.None? <==>
                !old(connected) && dialed.Some? && Opens(Link(dialed.value, old(writeFaults), 0, NOTHING))
      ensures failure.None? ==>
                Link(inbox, writeFaults, lastNumber, seen) == Opened(Link(dialed.value, old(writeFaults), 0, NOTHING))
      ensures !old(connected) && failure.None? ==>
                && connected && dialed.Some? && AtRest(seen) && book == Registry.EMPTY
                && Consumed(Tape(dialed.value, [], NOTHING), n, Tape(inbox, log, seen))
                && outbox == [Request(1, "initialize", OtherArguments), Request(2, command, OtherArguments),
                              Request(3, "configurationDone", NoArguments)]
                && lastNumber == 3 && terminateDebuggee == terminate
    {
      hide WellAnswered, Numbered, SentFor, Fold, Replay, LastSent, WaitReads, AnswerOf, ReadsOf, EndOf, Recorded;
      hide Opens, Opened, Written, Negotiated, Coherent, Mirrored, Registry.Valid, Writable;
      n := 0;
      failure := Start(dialed);
      if failure.Some? {
        return;
      }
      terminateDebuggee := terminate;
      ghost var w := Link(inbox, writeFaults, lastNumber, seen);
      failure, n := Negotiate(command);
      assert [] + Written(w, command) == Written(w, command);
      if failure.Some? {
        Close();
      } else {
        OpensWritesAll(w, command);
      }
    }

    /** initialize, launch or attach, configurationDone, and the wait for the entry stop. */
    method Negotiate(command: string) returns (failure: Option<Error>, ghost n: nat)
      requires Valid() && connected
      modifies `lastNumber, `outbox, `writeFaults, `inbox, `seen, `log, `exchanges
      ensures Valid()
      ensures Consumed(old(Tape(inbox, log, seen)), n, Tape(inbox, log, seen))
      ensures failure.None? <==> Opens(old(Link(inbox, writeFaults, lastNumber, seen)))
      ensures failure.None? ==> AtRest(seen) && lastNumber == old(lastNumber) + 3
      ensures Link(inbox, writeFaults, lastNumber, seen) == Negotiated(old(Link(inbox, writeFaults, lastNumber, seen)))
      ensures outbox == old(outbox) + Written(old(Link(inbox, writeFaults, lastNumber, seen)), command)
    {
      hide Coherent, Fold, LastSent, WaitReads, AnswerOf, ReadsOf, EndOf, Consumed, Recorded;
      hide Ask, Granted, Await, Rest, Writable, Written;
      WrittenByThen(outbox, Link(inbox, writeFaults, lastNumber, seen), command);
      var r;
      ghost var sent, k;
      r, sent, n := PlainRequest("initialize", OtherArguments);
      if r.Err? {
        return Some(r.error), n;
      }
      ghost var tape := Tape(inbox, log, seen);
      r, sent, k := PlainRequest(command, OtherArguments);
      ConsumedTwice(old(Tape(inbox, log, seen)), n, tape, k, Tape(inbox, log, seen));
      n := n + k;
      if r.Err? {
        return Some(r.error), n;
      }
      tape := Tape(inbox, log, seen);
      r, sent, k := PlainRequest("configurationDone", NoArguments);
      ConsumedTwice(old(Tape(inbox, log, seen)), n, tape, k, Tape(inbox, log, seen));
      n := n + k;
      if r.Err? {
        return Some(r.error), n;
      }
      tape := Tape(inbox, log, seen);
      failure, k := WaitForStop();
      ConsumedTwice(old(Tape(inbox, log, seen)), n, tape, k, Tape(inbox, log, seen));
      n := n + k;
    }

    // ---------- breakpoints ----------

    /** Sends the complete list of a group and, on a complete and verified reply, replaces the group.
        This is the common tail of CreateBreakpoint, replaceFileBreakpointsLocked and
        replaceFunctionBreakpointsLocked. */
    method ReplaceGroup(g: Registry.Group, specs: seq<Locations.Spec>)
      returns (failure: Option<Error>, ghost outcome: Registry.Outcome)
      requires Valid() && connected && Registry.SpecsOk(g, specs)
      modifies `lastNumber, `outbox, `writeFaults, `inbox, `seen, `log, `exchanges, `book, `doubtful
      ensures Valid()
      ensures book == Registry.After(old(book), g, specs, outcome)
      ensures failure.None? <==> Mirror.Succeeds(outcome, specs)
      ensures doubtful == if failure.None? then old(doubtful) - {g} else old(doubtful) + {g}
      ensures lastNumber == old(lastNumber) + 1
      ensures Link(inbox, writeFaults, lastNumber, seen) == Ask(old(Link(inbox, writeFaults, lastNumber, seen)))
      ensures exchanges
                == if outcome.Unsent? then old(exchanges)
                   else Recorded(old(exchanges), old(inbox), lastNumber, |old(log)|)
      ensures outcome.Unsent? <==> !Writable(old(writeFaults))
      ensures outcome.Unsent? ==> outbox == old(outbox)
      ensures !outcome.Unsent? ==> outbox == old(outbox) + [SetRequest(lastNumber, g, specs)]
      ensures !outcome.Unsent? ==> outcome == OutcomeOf(AnswerOf(old(inbox), lastNumber, SetCommand(g)))
      ensures failure == SetFailure(old(Writable(writeFaults)),
                                    AnswerOf(old(inbox), lastNumber, SetCommand(g)), |specs|)
    {
      hide WellAnswered, Numbered, SentFor, Fold, Replay, WaitReads, AnswerOf, ReadsOf, EndOf, Consumed, Recorded;
      hide Registry.BuildEntries, Registry.SpecsOk, Registry.SpecsOf, Registry.Valid, Registry.MapTracked, Ask,
           Writable, Rest;
      var entries := Registry.CollectEntries(g, specs);
      var r;
      ghost var sent, n;
      r, sent, n := RequestLocked(SetCommand(g), SetGroup(g, entries));
      outcome := if sent then OutcomeOf(r) else Registry.Unsent;
      if sent {
        AskedBy(old(Tape(inbox, log, seen)), n, Tape(inbox, log, seen), old(writeFaults), lastNumber);
      } else {
        NotAsked(old(Link(inbox, writeFaults, lastNumber, seen)));
      }
      SetKeepsMirror(old(book), old(outbox), old(doubtful), g, specs,
                     Request(lastNumber, SetCommand(g), SetGroup(g, entries)), outcome);
      Registry.AfterIsValid(old(book), g, specs, outcome);
      if r.Err? {
        doubtful := doubtful + {g};
        return Some(r.error), outcome;
      }
      var wires := Registry.DecodeBreakpoints(r.value.body, |specs|);
      if wires.Err? {
        doubtful := doubtful + {g};
        return Some(BreakpointError(wires.error)), outcome;
      }
      var items := Registry.CollectTracked(specs, wires.value);
      book := book.Put(g, items);
      doubtful := doubtful - {g};
      failure := None;
    }

    /** CreateBreakpoint. What it returns and sends is what PlanCreate says of the registry before;
        what it tracks afterwards is what Step says for the outcome of its request. */
    method CreateBreakpoint(spec: Locations.Spec, workingDir: Option<string>)
      returns (r: Result<Registry.Breakpoint, Error>, ghost outcome: Registry.Outcome)
      requires Valid()
      modifies `lastNumber, `outbox, `writeFaults, `inbox, `seen, `log, `exchanges, `book, `doubtful
      ensures Valid()
      ensures !connected ==> r == Err(NotConnected) && unchanged(this)
      ensures connected ==> book == Registry.Step(old(book), Registry.Create(spec, workingDir), outcome)
      ensures connected ==>
                match Registry.PlanCreate(old(book), spec, workingDir)
                case Fail(e) => r == Err(BreakpointError(e)) && unchanged(this)
                case Done(known) => r == Ok(known) && unchanged(this)
                case Send(g, specs) =>
                  && (r.Ok? <==> Mirror.Succeeds(outcome, specs))
                  && doubtful == (if r.Ok? then old(doubtful) - {g} else old(doubtful) + {g})
                  && (var failure := SetFailure(old(Writable(writeFaults)),
                                                AnswerOf(old(inbox), lastNumber, SetCommand(g)), |specs|);
                      if failure.Some? then r == Err(failure.value) else r.Ok?)
                  && lastNumber == old(lastNumber) + 1
                  && Link(inbox, writeFaults, lastNumber, seen) == Ask(old(Link(inbox, writeFaults, lastNumber, seen)))
                  && exchanges
                       == (if !old(Writable(writeFaults)) then old(exchanges)
                           else Recorded(old(exchanges), old(inbox), lastNumber, |old(log)|))
                  && SentOnce(old(Writable(writeFaults)), old(inbox), old(outbox), outbox,
                              SetRequest(lastNumber, g, specs), outcome)
                  && (r.Ok? ==> r.value == Mirror.LastReply(specs, outcome))
    {
      hide Coherent, LastSent, Ask, Recorded, AnswerOf, Registry.BuildEntries, Registry.SpecFits, Registry.SpecsOk;
      hide Locations.Normalize, Registry.After, Registry.MapTracked, Registry.FindSpec;
      outcome := Registry.Unsent;
      if !connected {
        return Err(NotConnected), outcome;
      }
      var normal := Locations.Normalize(spec, workingDir);
      if normal.Invalid? {
        return Err(BreakpointError(Registry.BadSpec(normal.error))), outcome;
      }
      var g := Registry.GroupOf(normal.place);
      var known := Registry.SearchSpec(book.Items(g), normal.spec);
      if known.Some? {
        return Ok(known.value), outcome;
      }
      var specs := Registry.CollectSpecs(book.Items(g));
      specs := specs + [normal.spec];
      Registry.PlanCreateOk(book, spec, workingDir);
      var failure;
      failure, outcome := ReplaceGroup(g, specs);
      if failure.Some? {
        return Err(failure.value), outcome;
      }
      Mirror.CreateReturnsItsReply(old(book), spec, workingDir, outcome);
      var found := Registry.SearchSpec(book.Items(g), normal.spec);
      r := Ok(found.value);
    }

    /** ClearBreakpoint. `pick` is the file the map's iteration happened to find the id in, if any. */
    method ClearBreakpoint(id: int)
      returns (failure: Option<Error>, ghost pick: Option<string>, ghost outcome: Registry.Outcome)
      requires Valid()
      modifies `lastNumber, `outbox, `writeFaults, `inbox, `seen, `log, `exchanges, `book, `doubtful
      ensures Valid()
      ensures !connected ==> failure == Some(NotConnected) && unchanged(this)
      ensures connected ==> Registry.LegalPick(old(book), id, pick)
      ensures connected ==> book == Registry.Step(old(book), Registry.Clear(id, pick), outcome)
      ensures connected ==>
                match Registry.PlanClear(old(book), id, pick)
                case Fail(e) => failure == Some(BreakpointError(e)) && unchanged(this)
                case Done(_) => true
                case Send(g, specs) =>
                  && (failure.None? <==> Mirror.Succeeds(outcome, specs))
                  && doubtful == (if failure.None? then old(doubtful) - {g} else old(doubtful) + {g})
                  && failure == SetFailure(old(Writable(writeFaults)),
                                           AnswerOf(old(inbox), lastNumber, SetCommand(g)), |specs|)
                  && lastNumber == old(lastNumber) + 1
                  && Link(inbox, writeFaults, lastNumber, seen) == Ask(old(Link(inbox, writeFaults, lastNumber, seen)))
                  && exchanges
                       == (if !old(Writable(writeFaults)) then old(exchanges)
                           else Recorded(old(exchanges), old(inbox), lastNumber, |old(log)|))
                  && SentOnce(old(Writable(writeFaults)), old(inbox), old(outbox), outbox,
                              SetRequest(lastNumber, g, specs), outcome)
    {
      hide Coherent, Mirrored, LastSent, Ask, Recorded, AnswerOf, Registry.BuildEntries, Registry.SpecsOk;
      hide Registry.Valid, Registry.After, Mirror.Succeeds, Writable;
      pick, outcome := None, Registry.Unsent;
      if !connected {
        return Some(NotConnected), pick, outcome;
      }
      var file := FindFileWithId(id);
      pick := file;
      var g := if file.Some? then Registry.FileGroup(file.value) else Registry.FunctionGroup;
      var items := book.Items(g);
      var i := Registry.SearchId(items, id);
      if i == |items| {
        return Some(BreakpointError(Registry.UnknownId(id))), pick, outcome;
      }
      var specs := Registry.CollectSpecs(items[..i] + items[i + 1..]);
      Registry.PlanClearOk(book, id, pick);
      failure, outcome := ReplaceGroup(g, specs);
    }

    /** The search over the file groups, in whatever order the map yields them. */
    method FindFileWithId(id: int) returns (file: Option<string>)
      ensures Registry.LegalPick(book, id, file)
    {
      var todo := book.files.Keys;
      while todo != {}
        invariant todo <= book.files.Keys
        invariant forall f :: f in book.files.Keys - todo ==> !Registry.HasId(book.files[f], id)
        decreases |todo|
      {
        var f :| f in todo;
        var i := Registry.SearchId(book.files[f], id);
        if i < |book.files[f]| {
          return Some(f);
        }
        todo := todo - {f};
      }
      file := None;
    }

    /** Breakpoints */
    method ListBreakpoints() returns (r: Result<seq<Registry.Breakpoint>, Error>)
      ensures !connected ==> r == Err(NotConnected)
      ensures connected ==> r.Ok? && Listing.IsListing(book, r.value)
    {
      if !connected {
        return Err(NotConnected);
      }
      var all := Listing.FlattenTrackedBreakpoints(book);
      r := Ok(all);
    }
  }

  function SetRequest(number: int, g: Registry.Group, specs: seq<Locations.Spec>): Request {
    Request(number, SetCommand(g), SetGroup(g, Registry.BuildEntries(g, specs)))
  }

  function SetCommand(g: Registry.Group): string {
    if g.FileGroup? then "setBreakpoints" else "setFunctionBreakpoints"
  }

  /** How a set request fails, if it does: it is not written, not answered with success, or its reply is not
      accepted. */
  function SetFailure(writable: bool, answer: Result<Message, Error>, count: nat): Option<Error> {
    if !writable then Some(WriteFailed)
    else
      match answer
      case Err(e) => Some(e)
      case Ok(Response(_, _, _, body)) =>
        var wires := Registry.DecodeReply(body, count);
        if wires.Err? then Some(BreakpointError(wires.error)) else None
      case Ok(_) => Some(ReadFailed) // a message of another type is no answer
  }

  /** A request that was written and failed may still have been acted on. */
  function OutcomeOf(answer: Result<Message, Error>): Registry.Outcome {
    match answer
    case Ok(Response(_, _, _, body)) => Registry.Replied(body)
    case _ => Registry.Failed(true)
  }

  // ---------- in plain terms ----------

  /** The request for a group carries one entry for each spec: the number of its line or its name, and its
      condition. */
  lemma SetRequestInFields(number: int, g: Registry.Group, specs: seq<Locations.Spec>, i: nat)
    requires Registry.SpecsOk(g, specs) && i < |specs|
    ensures var r := SetRequest(number, g, specs);
            && r.number == number && r.arguments.SetGroup? && r.arguments.group == g
            && |r.arguments.entries| == |specs|
            && r.command == (if g.FileGroup? then "setBreakpoints" else "setFunctionBreakpoints")
            && match r.arguments.entries[i]
               case SourceEntry(line, condition) =>
                 && g.FileGroup? && 0 < line && condition == specs[i].condition
                 && specs[i].location == g.path + ":" + Itoa(line)
               case FunctionEntry(name, condition) =>
                 g.FunctionGroup? && name == specs[i].location && condition == specs[i].condition
  {
    hide Itoa, Locations.ParseFileLine;
    assert Registry.SpecFits(g, specs[i]);
    var entries := Registry.BuildEntries(g, specs);
    var expected := seq(|specs|, j requires 0 <= j < |specs| => Registry.EntryOf(g, specs[j]));
    Registry.AllPresent(Registry.MapSpecs(Registry.Builder(g), specs), expected);
    assert entries[i] == Registry.EntryOf(g, specs[i]);
    assert Registry.BuildEntry(g, specs[i]) == Some(entries[i]);
  }

  /** A set request succeeds exactly when the answer to it holds a verified breakpoint for each spec. */
  lemma SetInFields(inbox: seq<Delivery>, number: int, g: Registry.Group, specs: seq<Locations.Spec>)
    requires specs != []
    ensures var outcome := OutcomeOf(AnswerOf(inbox, number, SetCommand(g)));
            Mirror.Succeeds(outcome, specs) <==> exists k :: Confirms(inbox, number, k, |specs|)
    ensures var outcome := OutcomeOf(AnswerOf(inbox, number, SetCommand(g)));
            Mirror.Succeeds(outcome, specs) ==>
              exists k :: Confirms(inbox, number, k, |specs|)
                          && IsOf(Mirror.LastReply(specs, outcome), specs[|specs| - 1],
                                  inbox[k].message.body.wires[|specs| - 1])
  {
    hide AnswerOf, Registry.FirstUnverified;
    var answer := AnswerOf(inbox, number, SetCommand(g));
    AnswerInFields(inbox, number, SetCommand(g));
    forall k | Confirms(inbox, number, k, |specs|)
      ensures answer == Ok(inbox[k].message)
    {
      AnswerIsReturned(inbox, number, SetCommand(g), k);
    }
    if Mirror.Succeeds(OutcomeOf(answer), specs) {
      var k :| AnsweredAt(inbox, number, k) && inbox[k].message == answer.value && answer.value.success;
      assert Confirms(inbox, number, k, |specs|);
    }
  }

  /** Delivery `k` answers request `number` with that many breakpoints, all verified. */
  ghost predicate Confirms(inbox: seq<Delivery>, number: int, k: int, count: nat) {
    && AnsweredAt(inbox, number, k) && inbox[k].message.success
    && inbox[k].message.body.BreakpointsBody? && |inbox[k].message.body.wires| == count
    && forall i :: 0 <= i < count ==> inbox[k].message.body.wires[i].verified
  }

  /** A breakpoint holds what its spec and the reply's entry say. */
  predicate IsOf(breakpoint: Registry.Breakpoint, spec: Locations.Spec, wire: Wire) {
    && breakpoint.id == wire.id && breakpoint.file == wire.path && breakpoint.line == wire.line
    && breakpoint.functionName == (if ':' in spec.location then "" else spec.location)
    && breakpoint.condition == spec.condition && breakpoint.enabled
  }

  /** A thread that is named is the one asked for, and otherwise the one that stopped. */
  lemma ThreadAskedFor(threadId: int, seen: Observed)
    ensures threadId > 0 ==> StackThread(threadId, seen) == threadId
    ensures seen.stop.Some? && (threadId <= 0 || threadId == seen.stop.value.threadId) ==>
              StackThread(threadId, seen) == seen.stop.value.threadId
  {
  }

  /** A stack is that of the reply: a frame for each entry, of the thread asked for. */
  lemma StackInFields(w: Link, threadId: int, k: int)
    requires threadId > 0 && Writable(w.faults) && AnsweredAt(w.inbox, w.number + 1, k) && w.inbox[k].message.success
    ensures var stack := StackOf(w, threadId);
            match w.inbox[k].message.body
            case NoBody => stack == Err(UndecodableStack)
            case Undecodable => stack == Err(UndecodableStack)
            case StackBody(entries) =>
              && stack.Ok? && |stack.value| == |entries|
              && forall i :: 0 <= i < |entries| ==>
                               stack.value[i] == Frame.Frame(FrameRef(threadId, entries[i].id), entries[i].path,
                                                             entries[i].line)
            case _ => stack == Ok([])
  {
    hide AnswerOf;
    AnswerIsReturned(w.inbox, w.number + 1, "stackTrace", k);
  }

  /** How a set request fails: it cannot be written, it is refused or not answered, or its list is not accepted. */
  lemma SetFailureInFields(answer: Result<Message, Error>, count: nat)
    ensures SetFailure(false, answer, count) == Some(WriteFailed)
    ensures match answer
            case Err(error) =>
              SetFailure(true, answer, count) == Some(error) && OutcomeOf(answer) == Registry.Failed(true)
            case Ok(Response(_, _, _, body)) =>
              && OutcomeOf(answer) == Registry.Replied(body)
              && (match Registry.DecodeReply(body, count)
                  case Err(error) => SetFailure(true, answer, count) == Some(BreakpointError(error))
                  case Ok(_) => SetFailure(true, answer, count) == None)
            case _ => true
  {
  }
}
