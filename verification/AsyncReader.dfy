/** The asynchronous reader: a goroutine that reads on request, and a caller whose Next
    can be cancelled while it waits to hand over its request or while it waits for a result.
    asyncByteReader and asyncLineReader share this protocol; T is what one read yields. */
module AsyncReader {

  /** One read of the input: a value, and whether the read also reported an error. */
  datatype ReadResult<T> = ReadResult(value: T, failed: bool)

  datatype Goroutine<T> =
    | Waiting                          // in `range requests`
    | Reading                          // inside input.Read
    | Sending(result: ReadResult<T>)   // about to put a result on the channel
    | Finished                         // returned; the results channel is closed

  datatype Caller = Idle | Requesting | Awaiting

  /** `read` is everything the input has yielded, `delivered` what Next returned,
      `accepted` how many requests the goroutine has taken. The results channel holds one entry. */
  datatype State<T> = State(
    goroutine: Goroutine<T>,
    caller: Caller,
    channel: seq<ReadResult<T>>,
    closed: bool,
    read: seq<ReadResult<T>>,
    delivered: seq<ReadResult<T>>,
    accepted: nat
  )

  function Start<T>(): State<T> {
    State(Waiting, Idle, [], false, [], [], 0)
  }

  datatype Event<T> =
    | CallNext                 // Next begins, its context not yet cancelled
    | Accept                   // the unbuffered request channel passes the request over
    | CancelRequest            // the first select takes ctx.Done
    | InputYields(result: ReadResult<T>)
    | Put                      // the goroutine's send completes
    | Take                     // Next receives a result and returns it
    | TakeClosed               // Next receives from the closed, empty channel and returns io.EOF
    | CancelWait               // the second select takes ctx.Done
    | Close                    // the owner closes the request channel, once
    | RequestsClosed           // the goroutine sees it and returns

  predicate Enabled<T>(s: State<T>, e: Event<T>) {
    match e
    case CallNext => s.caller.Idle? && !s.closed
    case Accept => s.caller.Requesting? && s.goroutine.Waiting?
    case CancelRequest => s.caller.Requesting?
    case InputYields(_) => s.goroutine.Reading?
    case Put => s.goroutine.Sending? && |s.channel| == 0
    case Take => s.caller.Awaiting? && |s.channel| > 0
    case TakeClosed => s.caller.Awaiting? && |s.channel| == 0 && s.goroutine.Finished?
    case CancelWait => s.caller.Awaiting?
    case Close => s.caller.Idle?
    case RequestsClosed => s.goroutine.Waiting? && s.closed
  }

  function Step<T>(s: State<T>, e: Event<T>): State<T>
    requires Enabled(s, e)
  {
    match e
    case CallNext => s.(caller := Requesting)
    case Accept => s.(caller := Awaiting, goroutine := Reading, accepted := s.accepted + 1)
    case CancelRequest => s.(caller := Idle)
    case InputYields(r) => s.(goroutine := Sending(r), read := s.read + [r])
    case Put =>
      s.(channel := [s.goroutine.result], goroutine := if s.goroutine.result.failed then Finished else Waiting)
    case Take => s.(caller := Idle, channel := s.channel[1..], delivered := s.delivered + [s.channel[0]])
    case TakeClosed => s.(caller := Idle)
    case CancelWait => s.(caller := Idle)
    case Close => s.(closed := true)
    case RequestsClosed => s.(goroutine := Finished)
  }

  /** The runs: any interleaving of enabled events. */
  predicate CanRun<T>(s: State<T>, events: seq<Event<T>>)
    decreases |events|, 0
  {
    events == [] ||
    (CanRun(s, events[..|events| - 1]) && Enabled(Run(s, events[..|events| - 1]), events[|events| - 1]))
  }

  function Run<T>(s: State<T>, events: seq<Event<T>>): State<T>
    requires CanRun(s, events)
    decreases |events|, 1
  {
    if events == [] then s else Step(Run(s, events[..|events| - 1]), events[|events| - 1])
  }

  // ---------- the invariant ----------

  /** What was read but not delivered yet: in the channel, then in the goroutine's hands. */
  function InFlight<T>(s: State<T>): seq<ReadResult<T>> {
    s.channel + (if s.goroutine.Sending? then [s.goroutine.result] else [])
  }

  ghost predicate Inv<T>(s: State<T>) {
    && s.read == s.delivered + InFlight(s)
    && |s.channel| <= 1
    && s.accepted == |s.read| + (if s.goroutine.Reading? then 1 else 0)
    && (s.caller.Awaiting? ==> s.accepted > |s.delivered|)
    && (forall i :: 0 <= i < |s.read| - 1 ==> !s.read[i].failed)
    && (s.read != [] && s.read[|s.read| - 1].failed ==> s.goroutine.Sending? || s.goroutine.Finished?)
  }

  lemma StepKeepsInv<T>(s: State<T>, e: Event<T>)
    requires Inv(s) && Enabled(s, e)
    ensures Inv(Step(s, e))
  {
    match e
    case InputYields(result) => ReadingKeepsInv(s, result);
    case Put => PutKeepsInv(s);
    case Take => TakeKeepsInv(s);
    case _ =>
  }

  lemma ReadingKeepsInv<T>(s: State<T>, result: ReadResult<T>)
    requires Inv(s) && Enabled(s, InputYields(result))
    ensures Inv(Step(s, InputYields(result)))
  {
  }

  lemma PutKeepsInv<T>(s: State<T>)
    requires Inv(s) && Enabled(s, Put)
    ensures Inv(Step(s, Put))
  {
    assert InFlight(Step(s, Put)) == InFlight(s);
  }

  lemma TakeKeepsInv<T>(s: State<T>)
    requires Inv(s) && Enabled(s, Take)
    ensures Inv(Step(s, Take))
  {
    var t := Step(s, Take);
    assert t.delivered + InFlight(t) == s.delivered + InFlight(s);
  }

  lemma {:induction false} ReachableIsInv<T>(s: State<T>, events: seq<Event<T>>)
    requires Inv(s) && CanRun(s, events)
    ensures Inv(Run(s, events))
    decreases |events|
  {
    if events != [] {
      var n := |events| - 1;
      ReachableIsInv(s, events[..n]);
      StepKeepsInv(Run(s, events[..n]), events[n]);
    }
  }

  /** Whatever is cancelled and however the two sides interleave, Next delivers exactly a prefix of
      what was read, in order: nothing lost, repeated or reordered; at most two accepted requests are
      still owed a result; nothing is read after a failed read; and a waiting call always gets a result of
      its own reader, never the end-of-file answer of the closed channel. */
  lemma DeliveredIsAPrefix<T>(events: seq<Event<T>>)
    requires CanRun(Start(), events)
    ensures var t := Run(Start<T>(), events);
            && t.delivered <= t.read
            && |t.delivered| <= t.accepted <= |t.delivered| + 2
            && (forall i :: 0 <= i < |t.read| - 1 ==> !t.read[i].failed)
            && !Enabled(t, TakeClosed)
  {
    ReachableIsInv(Start(), events);
  }

  // ---------- where progress stops ----------

  predicate IsCancellation<T>(e: Event<T>) {
    e.CancelRequest? || e.CancelWait?
  }

  /** A call is under way, and nothing but its cancellation can happen any more. */
  ghost predicate Stuck<T(!new)>(s: State<T>) {
    !s.caller.Idle? && forall e :: Enabled(s, e) ==> IsCancellation(e)
  }

  /** In every run, a call that was not closed under is stuck exactly when it is still handing over its
      request and the goroutine is gone, or holds a second undelivered result while the channel is full.
      A call that waits for its result is never stuck. */
  lemma StuckExactlyWhen<T(!new)>(events: seq<Event<T>>, input: ReadResult<T>)
    requires CanRun(Start(), events)
    requires !Run(Start<T>(), events).closed
    ensures var t := Run(Start<T>(), events);
            Stuck(t) <==>
            && t.caller.Requesting?
            && (t.goroutine.Finished? || (t.goroutine.Sending? && t.accepted == |t.delivered| + 2))
  {
    ReachableIsInv(Start(), events);
    var t := Run(Start<T>(), events);
    var accept: Event<T>, arrival, put: Event<T>, take: Event<T>, takeClosed: Event<T> :=
      Accept, InputYields(input), Put, Take, TakeClosed;
    if Stuck(t) {
      assert !Enabled(t, accept) && !Enabled(t, arrival) && !Enabled(t, put) && !Enabled(t, take) &&
        !Enabled(t, takeClosed);
    }
  }

  /** Both kinds of undelivered result can pile up: cancelling twice while waiting leads to a call
      that only its own cancellation can end. */
  lemma TwoCancelledWaitsCanBlock<T(!new)>(a: ReadResult<T>, b: ReadResult<T>) returns (events: seq<Event<T>>)
    requires !a.failed
    ensures CanRun(Start(), events)
    ensures Stuck(Run(Start<T>(), events)) && Run(Start<T>(), events).goroutine == Sending(b)
  {
    hide Run, CanRun;
    var s0 := Start<T>();
    NothingRun<T>();
    events := [];
    events := Extend(s0, events, CallNext);
    events := Extend(s0, events, Accept);
    events := Extend(s0, events, CancelWait);
    events := Extend(s0, events, InputYields(a));
    events := Extend(s0, events, Put);
    events := Extend(s0, events, CallNext);
    events := Extend(s0, events, Accept);
    events := Extend(s0, events, CancelWait);
    events := Extend(s0, events, InputYields(b));
    events := Extend(s0, events, CallNext);
  }

  lemma NothingRun<T>()
    ensures CanRun(Start<T>(), []) && Run(Start<T>(), []) == Start<T>()
  {
  }

  lemma Extend<T>(s: State<T>, events: seq<Event<T>>, e: Event<T>) returns (longer: seq<Event<T>>)
    requires CanRun(s, events) && Enabled(Run(s, events), e)
    ensures longer == events + [e]
    ensures CanRun(s, longer) && Run(s, longer) == Step(Run(s, events), e)
  {
    longer := events + [e];
    assert longer[..|events|] == events;
  }
}
