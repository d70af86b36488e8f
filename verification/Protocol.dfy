/** Requests and their answers on one shared stream, and what a thread action waits for. */
module Protocol {
  import opened GoStrings
  import opened Dap
  import Registry

  datatype Arguments =
    | NoArguments
    | ThreadArgument(threadId: int)
    | SetGroup(group: Registry.Group, entries: seq<Registry.Entry>)
    | TerminateDebuggee(terminate: bool)
    | StackArguments(threadId: int, levels: int)
    | OtherArguments

  datatype Request = Request(number: int, command: string, arguments: Arguments)

  datatype Error =
    | NotConnected
    | AlreadyStarted
    | StartFailed
    | WriteFailed
    | ReadFailed
    | UndecodableEvent
    | RequestFailed(text: string)
    | NoStopState
    | NoThread
    | UndecodableStack
    | BreakpointError(error: Registry.Error)

  // ---------- one request ----------

  /** A read that makes either loop give up. */
  predicate Breaks(d: Delivery) {
    d.ReadError? || (d.message.EventMessage? && BadEvent(d.message.event))
  }

  predicate Answers(d: Delivery, n: int) {
    d.Frame? && d.message.Response? && d.message.requestSeq == n
  }

  predicate EndsRequest(d: Delivery, n: int) {
    Breaks(d) || Answers(d, n)
  }

  /** The position of the delivery that ends request `n`, or |inbox|. */
  function EndOf(inbox: seq<Delivery>, n: int): (k: nat)
    ensures k <= |inbox|
    ensures k < |inbox| ==> EndsRequest(inbox[k], n)
  {
    if inbox == [] || EndsRequest(inbox[0], n) then 0 else 1 + EndOf(inbox[1..], n)
  }

  lemma {:induction false} EndOfIsFirst(inbox: seq<Delivery>, n: int, k: nat)
    requires k <= |inbox|
    requires forall i :: 0 <= i < k ==> !EndsRequest(inbox[i], n)
    requires k < |inbox| ==> EndsRequest(inbox[k], n)
    ensures EndOf(inbox, n) == k
  {
    if k > 0 {
      assert !EndsRequest(inbox[0], n);
      EndOfIsFirst(inbox[1..], n, k - 1);
    }
  }

  lemma {:induction false} NothingEndsBefore(inbox: seq<Delivery>, n: int, i: nat)
    requires i < EndOf(inbox, n)
    ensures !EndsRequest(inbox[i], n)
  {
    if i > 0 {
      NothingEndsBefore(inbox[1..], n, i - 1);
    }
  }

  /** The parts of a refusal's text: message, formatted error if different, and trimmed debug output,
      blank ones left out. */
  function RefusalDetails(message: string, body: Body, output: string): seq<string> {
    var said := Added([], TrimSpace(message));
    var format := if body.ErrorBody? then TrimSpace(body.format) else "";
    Added(if format in said then said else Added(said, format), TrimSpace(output))
  }

  function Added(details: seq<string>, text: string): seq<string> {
    if text == "" then details else details + [text]
  }

  /** The error requestErrorLocked makes of a refused request. */
  function RefusalText(command: string, message: string, body: Body, output: string): string {
    var details := RefusalDetails(message, body, output);
    "dap " + command + " failed" + if details == [] then "" else ": " + Join(details, '\n')
  }

  /** What request `n` returns when the connection delivers `inbox` from the moment it was written.
      The debug text in a refusal is the output read during this very request. */
  function AnswerOf(inbox: seq<Delivery>, n: int, command: string): Result<Message, Error> {
    var k := EndOf(inbox, n);
    if k == |inbox| || inbox[k].ReadError? then Err(ReadFailed)
    else
      match inbox[k].message
      case EventMessage(_) => Err(UndecodableEvent)
      case Response(_, true, _, _) => Ok(inbox[k].message)
      case Response(_, false, text, body) => Err(RequestFailed(RefusalText(command, text, body, DebugText(inbox[..k]))))
      case OtherMessage => Err(ReadFailed) // a message of another type ends no request
  }

  /** The error of a refused request shows, after what the answer itself says, exactly the output read
      during that request, trimmed; when there was none, it says nothing more. */
  lemma {:induction false} RefusalShowsItsOutput(inbox: seq<Delivery>, n: int, command: string)
    requires var k := EndOf(inbox, n); k < |inbox| && Answers(inbox[k], n) && !inbox[k].message.success
    ensures var k := EndOf(inbox, n);
            var answer := inbox[k].message;
            var said := RefusalText(command, answer.text, answer.body, "");
            var out := TrimSpace(DebugText(inbox[..k]));
            var separator := if RefusalDetails(answer.text, answer.body, "") == [] then ": " else "\n";
            AnswerOf(inbox, n, command) == Err(RequestFailed(if out == "" then said else said + separator + out))
  {
    hide TrimSpace, DebugText;
    var k := EndOf(inbox, n);
    var answer := inbox[k].message;
    var own := RefusalDetails(answer.text, answer.body, "");
    var out := TrimSpace(DebugText(inbox[..k]));
    NothingTrimsToNothing();
    if out != "" {
      assert RefusalDetails(answer.text, answer.body, DebugText(inbox[..k])) == own + [out];
      var start := "dap " + command + " failed";
      if own == [] {
        assert own + [out] == [out];
        assert start + (": " + out) == start + "" + ": " + out;
      } else {
        JoinSnoc(own, out, '\n');
        assert start + (": " + (Join(own, '\n') + ['\n'] + out)) == start + (": " + Join(own, '\n')) + "\n" + out;
      }
    }
  }

  lemma NothingTrimsToNothing()
    ensures TrimSpace("") == ""
  {
  }

  /** How many deliveries the request consumes. */
  function ReadsOf(inbox: seq<Delivery>, n: int): (k: nat)
    ensures k <= |inbox|
  {
    var k := EndOf(inbox, n);
    if k < |inbox| then k + 1 else k
  }

  /** What reading changes: the deliveries to come, the history, and what it left behind. */
  datatype Tape = Tape(inbox: seq<Delivery>, log: seq<LogEntry>, seen: Observed)

  /** `n` deliveries have been read between two points. */
  predicate Consumed(before: Tape, n: nat, after: Tape) {
    && n <= |before.inbox|
    && after.inbox == before.inbox[n..]
    && after.log == before.log + GotAll(before.inbox[..n])
    && after.seen == Fold(before.seen, before.inbox[..n])
  }

  lemma NothingConsumed(tape: Tape)
    ensures Consumed(tape, 0, tape)
  {
    assert tape.inbox[..0] == [] && GotAll([]) == [];
  }

  lemma ConsumedOneMore(before: Tape, n: nat, after: Tape)
    requires Consumed(before, n, after) && after.inbox != []
    ensures n < |before.inbox| && after.inbox[0] == before.inbox[n]
    ensures var d := after.inbox[0];
            Consumed(before, n + 1, Tape(after.inbox[1..], after.log + [Got(d)], OnDelivery(after.seen, d)))
  {
    var d, inbox := before.inbox[n], before.inbox;
    assert inbox[..n + 1] == inbox[..n] + [d];
    FoldOne(before.seen, inbox[..n], d);
    assert GotAll(inbox[..n + 1]) == GotAll(inbox[..n]) + [Got(d)];
  }

  lemma ConsumedTwice(first: Tape, n: nat, second: Tape, m: nat, third: Tape)
    requires Consumed(first, n, second) && Consumed(second, m, third)
    ensures Consumed(first, n + m, third)
  {
    hide Fold;
    assert first.inbox[..n + m] == first.inbox[..n] + second.inbox[..m];
    assert GotAll(first.inbox[..n + m]) == GotAll(first.inbox[..n]) + GotAll(second.inbox[..m]);
    FoldSplit(first.seen, first.inbox[..n], second.inbox[..m]);
  }

  // ---------- waiting for a stop ----------

  /** How many deliveries waitForStop consumes when it starts from `o`. */
  function WaitReads(o: Observed, inbox: seq<Delivery>): (n: nat)
    ensures n <= |inbox|
    decreases |inbox|
  {
    if AtRest(o) || inbox == [] then 0
    else if Breaks(inbox[0]) then 1
    else 1 + WaitReads(OnDelivery(o, inbox[0]), inbox[1..])
  }

  lemma FoldFirst(o: Observed, ds: seq<Delivery>, j: nat)
    requires 0 < j <= |ds|
    ensures Fold(o, ds[..j]) == Fold(OnDelivery(o, ds[0]), ds[1..][..j - 1])
  {
    assert ds[..j] == [ds[0]] + ds[1..][..j - 1];
    FoldSplit(o, [ds[0]], ds[1..][..j - 1]);
    FoldOne(o, [], ds[0]);
    assert [] + [ds[0]] == [ds[0]];
  }

  /** It stops reading at the first point where the debuggee is at rest, unless a read fails before. */
  lemma {:induction false} WaitMeaning(o: Observed, inbox: seq<Delivery>, j: nat)
    requires j <= WaitReads(o, inbox)
    ensures j < WaitReads(o, inbox) ==> !AtRest(Fold(o, inbox[..j]))
    ensures j < WaitReads(o, inbox) && Breaks(inbox[j]) ==>
              j + 1 == WaitReads(o, inbox) && !AtRest(Fold(o, inbox[..j + 1]))
    ensures j == WaitReads(o, inbox) && !AtRest(Fold(o, inbox[..j])) ==> j == |inbox| || (0 < j && Breaks(inbox[j - 1]))
    decreases |inbox|
  {
    if AtRest(o) || inbox == [] {
    } else if j == 0 {
      if Breaks(inbox[0]) {
        FoldFirst(o, inbox, 1);
      }
    } else {
      FoldFirst(o, inbox, j);
      if !Breaks(inbox[0]) {
        WaitMeaning(OnDelivery(o, inbox[0]), inbox[1..], j - 1);
        if j < WaitReads(o, inbox) {
          FoldFirst(o, inbox, j + 1);
        }
      }
    }
  }

  // ---------- a thread action: mark running, request, wait for a stop ----------

  function ThreadFor(o: Observed): int {
    if o.stop.Some? && o.stop.value.threadId > 0 then o.stop.value.threadId else 1
  }

  function MarkRunning(o: Observed): Observed {
    var t := ThreadFor(o);
    o.(stop := Some(StopState(true, false, NoReason, t, t)))
  }

  /** The action completes after `m` reads: its request `n` is answered with success, nothing read
      makes a loop give up, and `m` is the first point from the answer on where the debuggee is at rest. */
  ghost predicate Completes(started: Observed, inbox: seq<Delivery>, n: int, m: nat) {
    var a := EndOf(inbox, n);
    && a < m <= |inbox|
    && Answers(inbox[a], n) && inbox[a].message.success
    && (forall j :: a < j < m ==> !Breaks(inbox[j]))
    && (forall j :: a < j < m ==> !AtRest(Fold(started, inbox[..j])))
    && AtRest(Fold(started, inbox[..m]))
  }

  /** No stale stop: the state a completed action returns is announced by an event that was read
      after Running was set for this action, with no later event deciding otherwise. */
  lemma CompletedByAFreshStop(o: Observed, inbox: seq<Delivery>, n: int, m: nat) returns (k: nat)
    requires Completes(MarkRunning(o), inbox, n, m)
    ensures k < m && IsStop(inbox[k]) && NoneDecides(inbox[k + 1..m])
    ensures Fold(MarkRunning(o), inbox[..m]).stop == Some(AnnouncedStop(inbox[k]))
  {
    k := RestComesFromAStop(MarkRunning(o), inbox[..m]);
    assert inbox[..m][k + 1..] == inbox[k + 1..m];
  }

  /** The state a completed action returns, in fields. */
  lemma CompletionInFields(o: Observed, inbox: seq<Delivery>, n: int, m: nat) returns (k: nat)
    requires Completes(MarkRunning(o), inbox, n, m)
    ensures var s := Fold(MarkRunning(o), inbox[..m]).stop; s.Some? && SaidBy(inbox[..m], k, s.value)
  {
    hide Fold, SaidBy;
    k := RestInFields(MarkRunning(o), inbox[..m]);
  }

  /** No lost stop: a stop read before the answer, with nothing deciding otherwise in between,
      completes the action at the answer itself; not one more message is read. */
  lemma EarlyStopIsKept(o: Observed, inbox: seq<Delivery>, n: int, k: nat)
    requires var a := EndOf(inbox, n);
             && a < |inbox| && Answers(inbox[a], n) && inbox[a].message.success
             && k < a && IsStop(inbox[k]) && NoneDecides(inbox[k + 1..a])
    ensures Completes(MarkRunning(o), inbox, n, EndOf(inbox, n) + 1)
    ensures Fold(MarkRunning(o), inbox[..EndOf(inbox, n) + 1]).stop == Some(AnnouncedStop(inbox[k]))
  {
    var a := EndOf(inbox, n);
    var ds := inbox[..a + 1];
    assert ds[k + 1..] == inbox[k + 1..a] + [inbox[a]];
    LastDecisionWins(MarkRunning(o), ds, k);
  }

  lemma {:induction false} WaitStopsAt(o: Observed, inbox: seq<Delivery>, j: nat)
    requires j <= |inbox| && AtRest(Fold(o, inbox[..j]))
    requires forall i :: 0 <= i < j ==> !AtRest(Fold(o, inbox[..i])) && !Breaks(inbox[i])
    ensures WaitReads(o, inbox) == j
    decreases j
  {
    if j > 0 {
      assert !AtRest(Fold(o, inbox[..0])) && !Breaks(inbox[0]);
      FoldFirst(o, inbox, j);
      forall i | 0 <= i < j - 1
        ensures !AtRest(Fold(OnDelivery(o, inbox[0]), inbox[1..][..i])) && !Breaks(inbox[1..][i])
      {
        FoldFirst(o, inbox, i + 1);
        assert !AtRest(Fold(o, inbox[..i + 1])) && !Breaks(inbox[i + 1]);
      }
      WaitStopsAt(OnDelivery(o, inbox[0]), inbox[1..], j - 1);
    }
  }

  lemma FoldShift(o: Observed, inbox: seq<Delivery>, k: nat, j: nat)
    requires k + j <= |inbox|
    ensures Fold(o, inbox[..k + j]) == Fold(Fold(o, inbox[..k]), inbox[k..][..j])
  {
    assert inbox[..k + j] == inbox[..k] + inbox[k..][..j];
    FoldSplit(o, inbox[..k], inbox[k..][..j]);
  }

  /** If the wait loop ends at rest, the action completes there. */
  lemma WaitCompletes(started: Observed, inbox: seq<Delivery>, n: int, w: nat)
    requires var a := EndOf(inbox, n); a < |inbox| && Answers(inbox[a], n) && inbox[a].message.success
    requires var k := EndOf(inbox, n) + 1;
             w == WaitReads(Fold(started, inbox[..k]), inbox[k..]) && AtRest(Fold(started, inbox[..k + w]))
    ensures Completes(started, inbox, n, EndOf(inbox, n) + 1 + w)
  {
    hide Fold, EndOf;
    var k := EndOf(inbox, n) + 1;
    forall j | k - 1 < j < k + w
      ensures !Breaks(inbox[j]) && !AtRest(Fold(started, inbox[..j]))
    {
      WaitMeaning(Fold(started, inbox[..k]), inbox[k..], j - k);
      FoldShift(started, inbox, k, j - k);
      if Breaks(inbox[j]) {
        FoldShift(started, inbox, k, j - k + 1);
      }
    }
  }

  /** If the action completes anywhere, the wait loop ends there, at rest. */
  lemma CompletionIsFound(started: Observed, inbox: seq<Delivery>, n: int, m: nat)
    requires Completes(started, inbox, n, m)
    ensures m == EndOf(inbox, n) + 1
              + WaitReads(Fold(started, inbox[..EndOf(inbox, n) + 1]), inbox[EndOf(inbox, n) + 1..])
  {
    hide Fold, EndOf;
    var k := EndOf(inbox, n) + 1;
    forall i | 0 <= i < m - k
      ensures !AtRest(Fold(Fold(started, inbox[..k]), inbox[k..][..i])) && !Breaks(inbox[k..][i])
    {
      FoldShift(started, inbox, k, i);
      assert !Breaks(inbox[k + i]);
    }
    FoldShift(started, inbox, k, m - k);
    WaitStopsAt(Fold(started, inbox[..k]), inbox[k..], m - k);
  }

  // ---------- the history of a connection ----------

  /** What changed the client's view of the debuggee: a read, or the start of a thread action. */
  datatype LogEntry = Got(delivery: Delivery) | ActionStarted

  function Replay(log: seq<LogEntry>): Observed {
    if log == [] then NOTHING
    else
      var before := Replay(log[..|log| - 1]);
      match log[|log| - 1]
      case Got(d) => OnDelivery(before, d)
      case ActionStarted => MarkRunning(before)
  }

  function GotAll(ds: seq<Delivery>): (log: seq<LogEntry>)
    ensures |log| == |ds|
    ensures forall i :: 0 <= i < |ds| ==> log[i] == Got(ds[i])
  {
    seq(|ds|, i requires 0 <= i < |ds| => Got(ds[i]))
  }

  lemma ReplayOne(log: seq<LogEntry>, e: LogEntry)
    ensures Replay(log + [e])
              == match e { case Got(d) => OnDelivery(Replay(log), d) case ActionStarted => MarkRunning(Replay(log)) }
  {
    assert (log + [e])[..|log|] == log;
  }

  /** Between two actions the state is the plain left fold of the event handler over what was read,
      whichever loop read it. */
  lemma {:induction false} ReplayIsFold(log: seq<LogEntry>, ds: seq<Delivery>)
    ensures Replay(log + GotAll(ds)) == Fold(Replay(log), ds)
  {
    if ds == [] {
      assert log + GotAll(ds) == log;
    } else {
      var init, last := ds[..|ds| - 1], ds[|ds| - 1];
      ReplayIsFold(log, init);
      assert log + GotAll(ds) == log + GotAll(init) + [Got(last)];
      ReplayOne(log + GotAll(init), Got(last));
    }
  }

  /** Everything read in a connection, actions left out. */
  function Reads(log: seq<LogEntry>): seq<Delivery> {
    if log == [] then []
    else
      var before := Reads(log[..|log| - 1]);
      match log[|log| - 1]
      case Got(d) => before + [d]
      case ActionStarted => before
  }

  /** Over a whole connection, however its reads are split between requests, waits and actions:
      the debug text is all output read, and the target output its last 256 non-blank entries. */
  lemma {:induction false} ReplayOutputs(log: seq<LogEntry>)
    ensures Replay(log).debug == DebugText(Reads(log))
    ensures Replay(log).target == LastN(MAX_TARGET_OUTPUT, TargetEntries(Reads(log)))
  {
    if log != [] {
      var init, last := log[..|log| - 1], log[|log| - 1];
      ReplayOutputs(init);
      if last.Got? {
        var ds := Reads(init);
        assert (ds + [last.delivery])[..|ds|] == ds;
        OneOutput(Replay(init), last.delivery);
        KeepLast(TargetEntries(ds), TargetEntry(last.delivery));
      }
    }
  }

  /** A request that was answered: its number, the log positions where it was sent and answered. */
  datatype Exchange = Exchange(number: int, sentAt: nat, answeredAt: nat)

  predicate IsAnswer(e: LogEntry, n: int) {
    e.Got? && Answers(e.delivery, n)
  }

  /** The answer carries the request's number and is the first to do so since the request was sent. */
  predicate Matched(log: seq<LogEntry>, e: Exchange) {
    && e.sentAt <= e.answeredAt < |log|
    && IsAnswer(log[e.answeredAt], e.number)
    && forall j :: e.sentAt <= j < e.answeredAt ==> !IsAnswer(log[j], e.number)
  }

  /** Every answer is matched, and all earlier exchanges, with smaller numbers, were over
      before the request was sent. */
  predicate WellAnswered(log: seq<LogEntry>, exchanges: seq<Exchange>, lastNumber: int)
    decreases |exchanges|
  {
    exchanges != [] ==>
      var e := exchanges[|exchanges| - 1];
      && e.number <= lastNumber
      && Matched(log, e)
      && WellAnswered(log[..e.sentAt], exchanges[..|exchanges| - 1], e.number - 1)
  }

  /** In every run, requests are answered in the order of their numbers, each by a message of its own,
      never by an answer to an earlier request. */
  lemma {:induction false} AnswersNeverCross(log: seq<LogEntry>, exchanges: seq<Exchange>, lastNumber: int, i: nat,
                                             j: nat)
    requires WellAnswered(log, exchanges, lastNumber)
    requires i <= j < |exchanges|
    ensures exchanges[j].number <= lastNumber && Matched(log, exchanges[i])
    ensures i < j ==> exchanges[i].number < exchanges[j].number && exchanges[i].answeredAt < exchanges[j].sentAt
    decreases |exchanges|
  {
    var n := |exchanges| - 1;
    var before := log[..exchanges[n].sentAt];
    if j < n {
      AnswersNeverCross(before, exchanges[..n], exchanges[n].number - 1, i, j);
    } else if i < n {
      AnswersNeverCross(before, exchanges[..n], exchanges[n].number - 1, i, i);
    }
  }

  /** Adding the exchange that just ended keeps all answers matched. */
  lemma RecordAnswer(history: seq<LogEntry>, deliveries: seq<Delivery>, n: nat, exchanges: seq<Exchange>, number: int)
    requires 0 < n <= |deliveries|
    requires EndOf(deliveries, number) == n - 1 && Answers(deliveries[n - 1], number)
    requires WellAnswered(history, exchanges, number - 1)
    ensures var log := history + GotAll(deliveries[..n]);
            WellAnswered(log, exchanges + [Exchange(number, |history|, |log| - 1)], number)
  {
    var log := history + GotAll(deliveries[..n]);
    var e := Exchange(number, |history|, |log| - 1);
    forall j | |history| <= j < |log| - 1
      ensures !IsAnswer(log[j], number)
    {
      NothingEndsBefore(deliveries, number, j - |history|);
      assert log[j] == Got(deliveries[j - |history|]);
    }
    assert log[..e.sentAt] == history;
    assert (exchanges + [e])[..|exchanges|] == exchanges;
  }

  /** More reads, or a higher number, leave the answers matched. */
  lemma MoreReads(history: seq<LogEntry>, log: seq<LogEntry>, exchanges: seq<Exchange>, number: int, higher: int)
    requires history <= log && WellAnswered(history, exchanges, number) && number <= higher
    ensures WellAnswered(log, exchanges, higher)
  {
    if exchanges != [] {
      var e := exchanges[|exchanges| - 1];
      assert log[..e.sentAt] == history[..e.sentAt];
    }
  }

  /** The exchanges after request `number`, written at log position `sentAt`: one more exactly when an answer
      to it was read, refusals included. */
  function Recorded(exchanges: seq<Exchange>, inbox: seq<Delivery>, number: int, sentAt: nat): seq<Exchange> {
    var k := EndOf(inbox, number);
    if k < |inbox| && Answers(inbox[k], number) then exchanges + [Exchange(number, sentAt, sentAt + k)] else exchanges
  }

  /** The exchanges belong to requests that were written, in the same order. */
  predicate SentFor(outbox: seq<Request>, exchanges: seq<Exchange>)
    decreases |outbox|
  {
    if exchanges == [] then true
    else
      && outbox != []
      && var n, m := |outbox| - 1, |exchanges| - 1;
         if outbox[n].number == exchanges[m].number then SentFor(outbox[..n], exchanges[..m])
         else SentFor(outbox[..n], exchanges)
  }

  lemma SentForSnoc(outbox: seq<Request>, exchanges: seq<Exchange>, r: Request)
    requires SentFor(outbox, exchanges)
    requires exchanges != [] ==> exchanges[|exchanges| - 1].number < r.number
    ensures SentFor(outbox + [r], exchanges)
  {
    assert (outbox + [r])[..|outbox|] == outbox;
  }

  lemma SentForAnswered(outbox: seq<Request>, exchanges: seq<Exchange>, r: Request, e: Exchange)
    requires SentFor(outbox, exchanges) && r.number == e.number
    ensures SentFor(outbox + [r], exchanges + [e])
  {
    assert (outbox + [r])[..|outbox|] == outbox;
    assert (exchanges + [e])[..|exchanges|] == exchanges;
  }

  /** Every exchange answers a request that was written on this connection. */
  lemma {:induction false} ExchangesWereSent(outbox: seq<Request>, exchanges: seq<Exchange>, i: nat) returns (j: nat)
    requires SentFor(outbox, exchanges) && i < |exchanges|
    ensures j < |outbox| && outbox[j].number == exchanges[i].number
    decreases |outbox|
  {
    var n, m := |outbox| - 1, |exchanges| - 1;
    if outbox[n].number == exchanges[m].number {
      if i == m {
        j := n;
      } else {
        j := ExchangesWereSent(outbox[..n], exchanges[..m], i);
      }
    } else {
      j := ExchangesWereSent(outbox[..n], exchanges, i);
    }
  }

  /** Request numbers strictly increase, from 1, up to the last one used. */
  predicate Numbered(outbox: seq<Request>, lastNumber: int)
    decreases |outbox|
  {
    outbox != [] ==>
      var r := outbox[|outbox| - 1];
      0 < r.number <= lastNumber && Numbered(outbox[..|outbox| - 1], r.number - 1)
  }

  lemma {:induction false} NumbersIncrease(outbox: seq<Request>, lastNumber: int, i: nat, j: nat)
    requires Numbered(outbox, lastNumber) && i <= j < |outbox|
    ensures 0 < outbox[i].number && outbox[j].number <= lastNumber
    ensures i < j ==> outbox[i].number < outbox[j].number
    decreases |outbox|
  {
    var n := |outbox| - 1;
    if j < n {
      NumbersIncrease(outbox[..n], outbox[n].number - 1, i, j);
    } else if i < n {
      NumbersIncrease(outbox[..n], outbox[n].number - 1, i, i);
    }
  }

  /** The state is the replay of the history; numbers grow; answers match their requests. */
  predicate Coherent(seen: Observed, log: seq<LogEntry>, exchanges: seq<Exchange>, outbox: seq<Request>,
                     lastNumber: int) {
    && lastNumber >= 0
    && seen == Replay(log)
    && Numbered(outbox, lastNumber)
    && WellAnswered(log, exchanges, lastNumber)
    && SentFor(outbox, exchanges)
  }

  /** Reading more messages, in either loop, keeps the history coherent. */
  lemma ReadsKeepCoherence(before: Tape, n: nat, after: Tape, exchanges: seq<Exchange>, outbox: seq<Request>,
                           number: int)
    requires Coherent(before.seen, before.log, exchanges, outbox, number) && Consumed(before, n, after)
    ensures Coherent(after.seen, after.log, exchanges, outbox, number)
  {
    ReplayIsFold(before.log, before.inbox[..n]);
    MoreReads(before.log, after.log, exchanges, number, number);
  }

  /** So does the answer to the request that was just written. */
  lemma AnswerKeepsCoherence(before: Tape, n: nat, after: Tape, exchanges: seq<Exchange>, earlier: seq<Request>,
                             r: Request)
    requires before.seen == Replay(before.log) && r.number > 0 && Numbered(earlier + [r], r.number)
    requires WellAnswered(before.log, exchanges, r.number - 1) && SentFor(earlier, exchanges)
    requires Consumed(before, n, after)
    requires EndOf(before.inbox, r.number) == n - 1 && n > 0 && Answers(before.inbox[n - 1], r.number)
    ensures Coherent(after.seen, after.log, Recorded(exchanges, before.inbox, r.number, |before.log|), earlier + [r],
                     r.number)
    ensures |before.seen.debug| <= |after.seen.debug|
    ensures after.seen.debug[|before.seen.debug|..] == DebugText(before.inbox[..n - 1])
  {
    hide SentFor, WellAnswered, Numbered, Fold, Replay, DebugText, EndOf;
    ReplayIsFold(before.log, before.inbox[..n]);
    RecordAnswer(before.log, before.inbox, n, exchanges, r.number);
    SentForAnswered(earlier, exchanges, r, Exchange(r.number, |before.log|, |after.log| - 1));
    FoldDebug(before.seen, before.inbox[..n]);
    AnswerPrintsNothing(before.inbox, n);
  }

  /** A request that was written and not answered leaves the history coherent. */
  lemma UnansweredKeepsCoherence(before: Tape, n: nat, after: Tape, exchanges: seq<Exchange>, earlier: seq<Request>,
                                 r: Request)
    requires before.seen == Replay(before.log) && r.number > 0 && Numbered(earlier + [r], r.number)
    requires WellAnswered(before.log, exchanges, r.number - 1) && SentFor(earlier, exchanges)
    requires Consumed(before, n, after)
    ensures Coherent(after.seen, after.log, exchanges, earlier + [r], r.number)
  {
    hide SentFor, Numbered;
    ReplayIsFold(before.log, before.inbox[..n]);
    SentForSnoc(earlier, exchanges, r);
    MoreReads(before.log, after.log, exchanges, r.number - 1, r.number);
  }

  lemma NumberedSnoc(outbox: seq<Request>, r: Request)
    requires Numbered(outbox, r.number - 1) && r.number > 0
    ensures Numbered(outbox, r.number) && Numbered(outbox + [r], r.number)
  {
    assert (outbox + [r])[..|outbox|] == outbox;
  }

  /** The list the last set request for a group carried; empty when there was none. */
  function LastSent(outbox: seq<Request>, g: Registry.Group): seq<Registry.Entry> {
    if outbox == [] then []
    else
      var last := outbox[|outbox| - 1].arguments;
      if last.SetGroup? && last.group == g then last.entries else LastSent(outbox[..|outbox| - 1], g)
  }

  lemma LastSentSnoc(outbox: seq<Request>, r: Request, g: Registry.Group)
    ensures LastSent(outbox + [r], g) ==
            if r.arguments.SetGroup? && r.arguments.group == g then r.arguments.entries else LastSent(outbox, g)
  {
    assert (outbox + [r])[..|outbox|] == outbox;
  }

  /** Requests of any other kind leave the lists sent as they were. */
  lemma OtherRequestsSendNoList(outbox: seq<Request>, r: Request)
    requires !r.arguments.SetGroup?
    ensures forall g :: LastSent(outbox + [r], g) == LastSent(outbox, g)
  {
    forall g
      ensures LastSent(outbox + [r], g) == LastSent(outbox, g)
    {
      LastSentSnoc(outbox, r, g);
    }
  }

  // ---------- a thread action, start to end ----------

  /** The action's request got no successful answer: it cannot complete. */
  lemma RefusedNeverCompletes(started: Observed, inbox: seq<Delivery>, n: int, command: string, m: nat)
    requires AnswerOf(inbox, n, command).Err?
    ensures !Completes(started, inbox, n, m)
  {
  }

  /** The reads of an answered request and of the wait after it, taken together. */
  lemma ActionEnds(started: Tape, n: int, command: string, k: nat, answered: Tape, w: nat, ended: Tape)
    requires k == ReadsOf(started.inbox, n) && AnswerOf(started.inbox, n, command).Ok?
    requires Consumed(started, k, answered)
    requires w == WaitReads(answered.seen, answered.inbox) && Consumed(answered, w, ended)
    ensures Consumed(started, k + w, ended)
    ensures AtRest(ended.seen) ==> Completes(started.seen, started.inbox, n, k + w)
    ensures !AtRest(ended.seen) ==> forall m: nat :: !Completes(started.seen, started.inbox, n, m)
  {
    hide Fold, EndOf, WaitReads;
    ConsumedTwice(started, k, answered, w, ended);
    if AtRest(ended.seen) {
      WaitCompletes(started.seen, started.inbox, n, w);
    } else {
      forall m: nat
        ensures !Completes(started.seen, started.inbox, n, m)
      {
        if Completes(started.seen, started.inbox, n, m) {
          CompletionIsFound(started.seen, started.inbox, n, m);
        }
      }
    }
  }

  // ---------- in plain terms ----------

  /** Delivery `k` is the answer to request `n`: before it there is none, no failed read, and no event of a
      known kind that does not decode. */
  ghost predicate AnsweredAt(inbox: seq<Delivery>, n: int, k: int) {
    && 0 <= k < |inbox| && inbox[k].Frame? && inbox[k].message.Response? && inbox[k].message.requestSeq == n
    && forall j :: 0 <= j < k ==> PassedOver(inbox[j], n)
  }

  predicate PassedOver(d: Delivery, n: int) {
    match d
    case ReadError => false
    case Frame(Response(requestSeq, _, _, _)) => requestSeq != n
    case Frame(EventMessage(Stopped(None))) => false
    case Frame(EventMessage(Output(None))) => false
    case _ => true
  }

  /** What a request returns, by its answer in the deliveries. */
  lemma AnswerInFields(inbox: seq<Delivery>, n: int, command: string)
    ensures match AnswerOf(inbox, n, command)
            case Ok(m) => exists k :: AnsweredAt(inbox, n, k) && inbox[k].message == m && m.success
            case Err(RequestFailed(_)) => exists k :: AnsweredAt(inbox, n, k) && !inbox[k].message.success
            case Err(e) => e in {ReadFailed, UndecodableEvent} && forall k :: !AnsweredAt(inbox, n, k)
  {
    hide EndOf, RefusalText, DebugText;
    var k := EndOf(inbox, n);
    forall j | 0 <= j < k
      ensures PassedOver(inbox[j], n)
    {
      NothingEndsBefore(inbox, n, j);
    }
    forall i | AnsweredAt(inbox, n, i)
      ensures i == k
    {
      EndOfIsFirst(inbox, n, i);
    }
  }

  /** An answer in the deliveries is the one returned. */
  lemma AnswerIsReturned(inbox: seq<Delivery>, n: int, command: string, k: int)
    requires AnsweredAt(inbox, n, k) && inbox[k].message.success
    ensures AnswerOf(inbox, n, command) == Ok(inbox[k].message)
  {
    hide EndOf;
    EndOfIsFirst(inbox, n, k);
  }

  function Part(separator: string, text: string): string {
    if text == "" then "" else separator + text
  }

  /** The text of a refusal: the answer's message, its format when it says something else, and the output,
      each trimmed, on lines of their own behind a colon. */
  lemma RefusalInParts(command: string, text: string, body: Body, output: string)
    ensures var message := TrimSpace(text);
            var stated := if body.ErrorBody? then TrimSpace(body.format) else "";
            var format := if stated == message then "" else stated;
            RefusalText(command, text, body, output)
              == "dap " + command + " failed" + Part(": ", message)
                 + Part(if message == "" then ": " else "\n", format)
                 + Part(if message == "" && format == "" then ": " else "\n", TrimSpace(output))
  {
    hide TrimSpace, Join;
    var start := "dap " + command + " failed";
    var message := TrimSpace(text);
    var stated := if body.ErrorBody? then TrimSpace(body.format) else "";
    var format := if stated == message then "" else stated;
    var out := TrimSpace(output);
    var details := RefusalDetails(text, body, output);
    OneTwoThree(message, format, out);
    assert details == if message == "" then
                        if format == "" then (if out == "" then [] else [out])
                        else if out == "" then [format] else [format, out]
                      else if format == "" then (if out == "" then [message] else [message, out])
                      else if out == "" then [message, format] else [message, format, out];
    Glued(start, message, format, out);
  }

  lemma Glued(start: string, a: string, b: string, c: string)
    ensures start + (": " + a) + ("\n" + b) == start + (": " + (a + "\n" + b))
    ensures start + (": " + a) + ("\n" + c) == start + (": " + (a + "\n" + c))
    ensures start + (": " + b) + ("\n" + c) == start + (": " + (b + "\n" + c))
    ensures start + (": " + a) + ("\n" + b) + ("\n" + c) == start + (": " + (a + "\n" + b + "\n" + c))
    ensures start + "" == start && start + (": " + a) + "" == start + (": " + a)
    ensures start + (": " + b) + "" == start + (": " + b)
    ensures start + (": " + a) + ("\n" + b) + "" == start + (": " + a) + ("\n" + b)
  {
  }

  lemma OneTwoThree(a: string, b: string, c: string)
    ensures Join([a], '\n') == a && Join([b], '\n') == b && Join([c], '\n') == c
    ensures Join([a, b], '\n') == a + "\n" + b && Join([a, c], '\n') == a + "\n" + c
    ensures Join([b, c], '\n') == b + "\n" + c && Join([a, b, c], '\n') == a + "\n" + b + "\n" + c
  {
    assert [a, b, c] == [a] + [b] + [c] && [a, b] == [a] + [b] && [a, c] == [a] + [c] && [b, c] == [b] + [c];
    JoinSnoc([a], b, '\n');
    JoinSnoc([a], c, '\n');
    JoinSnoc([b], c, '\n');
    JoinSnoc([a] + [b], c, '\n');
  }

  /** An exchange is recorded when there is an answer, refusals included, at the place of that answer. */
  lemma RecordedInFields(exchanges: seq<Exchange>, inbox: seq<Delivery>, number: int, sentAt: nat)
    ensures forall k :: AnsweredAt(inbox, number, k) ==>
                          Recorded(exchanges, inbox, number, sentAt)
                            == exchanges + [Exchange(number, sentAt, sentAt + k)]
    ensures (forall k :: !AnsweredAt(inbox, number, k)) ==> Recorded(exchanges, inbox, number, sentAt) == exchanges
  {
    hide EndOf;
    forall k | AnsweredAt(inbox, number, k)
      ensures Recorded(exchanges, inbox, number, sentAt) == exchanges + [Exchange(number, sentAt, sentAt + k)]
    {
      EndOfIsFirst(inbox, number, k);
    }
    var k := EndOf(inbox, number);
    if k < |inbox| && Answers(inbox[k], number) {
      forall j | 0 <= j < k
        ensures PassedOver(inbox[j], number)
      {
        NothingEndsBefore(inbox, number, j);
      }
      assert AnsweredAt(inbox, number, k);
    }
  }
}
