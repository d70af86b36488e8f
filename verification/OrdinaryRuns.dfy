/** What an ordinary server sends: with it a launch opens, and a start reaches its first breakpoint. */
module OrdinaryRuns {
  import opened GoStrings
  import opened Dap
  import opened Protocol
  import opened Links
  import opened Session

  function Answer(number: int, body: Body): Delivery {
    Frame(Response(number, true, "", body))
  }

  function StopAt(reason: StopReason, thread: int): Delivery {
    Frame(EventMessage(Stopped(Some((reason, thread)))))
  }

  /** A request that is answered at once. */
  lemma AnsweredAtOnce(w: Link, command: string, body: Body, rest: seq<Delivery>)
    requires w.faults == [] && w.inbox == [Answer(w.number + 1, body)] + rest
    ensures Granted(w) && Ask(w) == Link(rest, [], w.number + 1, w.seen)
    ensures AnswerOf(w.inbox, w.number + 1, command) == Ok(Answer(w.number + 1, body).message)
  {
    var d := Answer(w.number + 1, body);
    assert EndOf(w.inbox, w.number + 1) == 0;
    assert w.inbox[..1] == [d] && w.inbox[1..] == rest;
    FoldOne(w.seen, [], d);
    assert [] + [d] == [d];
  }

  /** A request whose answer comes after a stop. */
  lemma AnsweredAfterAStop(w: Link, reason: StopReason, thread: int, body: Body, rest: seq<Delivery>)
    requires w.faults == [] && w.inbox == [StopAt(reason, thread), Answer(w.number + 1, body)] + rest
    ensures Granted(w)
    ensures Ask(w)
              == Link(rest, [], w.number + 1, w.seen.(stop := Some(StopState(false, false, reason, thread, thread))))
  {
    var n := w.number + 1;
    var stop, d := StopAt(reason, thread), Answer(n, body);
    EndOfIsFirst(w.inbox, n, 1);
    assert w.inbox[..2] == [] + [stop] + [d] && w.inbox[2..] == rest;
    FoldOne(w.seen, [], stop);
    FoldOne(w.seen, [] + [stop], d);
  }

  /** A wait at rest reads nothing. */
  lemma AlreadyAtRest(w: Link)
    requires AtRest(w.seen)
    ensures Await(w) == w
  {
    assert w.inbox[..0] == [] && w.inbox[0..] == w.inbox;
  }

  /** The first messages of an ordinary launch, its entry stop before the last answer. */
  function Opening(thread: int): seq<Delivery> {
    [Answer(1, NoBody), Answer(2, NoBody), StopAt(ReasonEntry, thread), Answer(3, NoBody)]
  }

  /** It opens, at rest on that stop, and whatever comes later is still to be read. */
  lemma AnOrdinaryLaunchOpens(thread: int, rest: seq<Delivery>)
    ensures var w := Link(Opening(thread) + rest, [], 0, NOTHING);
            && Opens(w)
            && Opened(w)
                 == Link(rest, [], 3, Observed(Some(StopState(false, false, ReasonEntry, thread, thread)), "", []))
  {
    hide Ask, Granted, Await;
    var w := Link(Opening(thread) + rest, [], 0, NOTHING);
    var more := [StopAt(ReasonEntry, thread), Answer(3, NoBody)] + rest;
    assert w.inbox == [Answer(1, NoBody)] + ([Answer(2, NoBody)] + more);
    AnsweredAtOnce(w, "initialize", NoBody, [Answer(2, NoBody)] + more);
    AnsweredAtOnce(Ask(w), "launch", NoBody, more);
    AnsweredAfterAStop(Ask(Ask(w)), ReasonEntry, thread, NoBody, rest);
    AlreadyAtRest(Ask(Ask(Ask(w))));
  }

  /** What comes next in an ordinary start: the stack, the breakpoint, the stop at it, and the stack there. */
  function Start(thread: int, wire: Wire): seq<Delivery> {
    Opening(thread)
    + ([Answer(4, StackBody([])), Answer(5, BreakpointsBody([wire])), StopAt(ReasonBreakpoint, thread),
        Answer(6, NoBody), Answer(7, StackBody([]))])
  }

  /** With a verified breakpoint it succeeds, for every spec that can be normalized and a thread with a number. */
  lemma AnOrdinaryStartSucceeds(thread: int, wire: Wire, spec: Locations.Spec, workingDir: Option<string>)
    requires thread > 0 && wire.verified && Locations.Normalize(spec, workingDir).Normalized?
    ensures Starts(Link(Start(thread, wire), [], 0, NOTHING), spec, workingDir)
  {
    hide Ask, Granted, Await, Opens, Opened, AnswerOf, Locations.Normalize;
    var last := [Answer(7, StackBody([]))];
    var stopped := [StopAt(ReasonBreakpoint, thread), Answer(6, NoBody)] + last;
    var listed := [Answer(5, BreakpointsBody([wire]))] + stopped;
    var rest := [Answer(4, StackBody([]))] + listed;
    var w := Link(Start(thread, wire), [], 0, NOTHING);
    assert Start(thread, wire) == Opening(thread) + rest;
    AnOrdinaryLaunchOpens(thread, rest);
    AnsweredAtOnce(Opened(w), "stackTrace", StackBody([]), listed);
    var ready := Shot(Opened(w));
    FirstSetOfOne(spec, workingDir);
    AnsweredAtOnce(ready, Client.SetCommand(FirstSet(spec, workingDir).value.0), BreakpointsBody([wire]), stopped);
    var sent := Ask(ready);
    AnsweredAfterAStop(Started(sent), ReasonBreakpoint, thread, NoBody, last);
    AlreadyAtRest(Ask(Started(sent)));
  }

  lemma FirstSetOfOne(spec: Locations.Spec, workingDir: Option<string>)
    requires Locations.Normalize(spec, workingDir).Normalized?
    ensures FirstSet(spec, workingDir).Some? && |FirstSet(spec, workingDir).value.1| == 1
  {
    hide Locations.Normalize;
  }
}
