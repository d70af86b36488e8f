/** Messages of the Debug Adapter Protocol as the client sees them, once decoded,
    and what the client remembers of the events among them. */
module Dap {
  import opened GoStrings

  /** NoReason is the empty string, which the local Running mark carries. */
  datatype StopReason =
    NoReason | ReasonUnknown | ReasonEntry | ReasonBreakpoint | ReasonStep | ReasonPause | ReasonExit

  datatype StopState = StopState(running: bool, exited: bool, reason: StopReason, threadId: int, goroutineId: int)

  datatype OutputCategory = Stdout | Stderr

  datatype OutputEntry = OutputEntry(category: OutputCategory, text: string)

  /** A body that does not decode is None. Reasons and categories are the ones the client maps
      the wire strings to; an output event of any other category has none. */
  datatype Event =
    | Stopped(stop: Option<(StopReason, int)>)
    | Continued
    | Terminated
    | Output(output: Option<(Option<OutputCategory>, string)>)
    | OtherEvent

  /** One entry of a setBreakpoints or setFunctionBreakpoints reply. */
  datatype Wire = Wire(id: int, verified: bool, line: int, path: string, message: string)

  /** One entry of a stackTrace reply. */
  datatype StackEntry = StackEntry(id: int, path: string, line: int)

  /** The parts of a response body that the model reads; Undecodable fits no expected shape. */
  datatype Body =
    | NoBody
    | BreakpointsBody(wires: seq<Wire>)
    | StackBody(entries: seq<StackEntry>)
    | ErrorBody(format: string)
    | Undecodable

  datatype Message =
    | EventMessage(event: Event)
    | Response(requestSeq: int, success: bool, text: string, body: Body)
    | OtherMessage

  /** What one read of the connection yields: a whole message, or an error. */
  datatype Delivery = Frame(message: Message) | ReadError

  // ---------- what events leave behind ----------

  datatype Observed = Observed(stop: Option<StopState>, debug: string, target: seq<OutputEntry>)

  const NOTHING := Observed(None, "", [])

  const MAX_TARGET_OUTPUT := 256

  /** appendTargetOutputLocked: blank text is dropped, and only the newest entries are kept. */
  function AppendTarget(target: seq<OutputEntry>, entry: OutputEntry): seq<OutputEntry> {
    if IsBlank(entry.text) then target else LastN(MAX_TARGET_OUTPUT, target + [entry])
  }

  function StoppedState(reason: StopReason, threadId: int): StopState {
    StopState(false, false, reason, threadId, threadId)
  }

  const EXITED_STATE := StopState(false, true, ReasonExit, 0, 0)

  function RunningState(threadId: int): StopState {
    StopState(true, false, ReasonUnknown, threadId, threadId)
  }

  /** handleEventLocked fails on an event whose body it needs and cannot decode. */
  predicate BadEvent(e: Event) {
    (e.Stopped? && e.stop.None?) || (e.Output? && e.output.None?)
  }

  /** The state handleEventLocked leaves; on a bad event it leaves everything as it was. */
  function OnEvent(o: Observed, e: Event): Observed {
    match e
    case Stopped(Some((reason, threadId))) => o.(stop := Some(StoppedState(reason, threadId)))
    case Continued => o.(stop := Some(RunningState(if o.stop.Some? then o.stop.value.threadId else 0)))
    case Terminated => o.(stop := Some(EXITED_STATE))
    case Output(Some((category, text))) =>
      var target := if category.Some? then AppendTarget(o.target, OutputEntry(category.value, text)) else o.target;
      Observed(o.stop, o.debug + text, target)
    case _ => o
  }

  function OnDelivery(o: Observed, d: Delivery): Observed {
    if d.Frame? && d.message.EventMessage? then OnEvent(o, d.message.event) else o
  }

  /** The left fold of the event handler over everything read. */
  function Fold(o: Observed, ds: seq<Delivery>): Observed {
    if ds == [] then o else OnDelivery(Fold(o, ds[..|ds| - 1]), ds[|ds| - 1])
  }

  predicate AtRest(o: Observed) {
    o.stop.Some? && !o.stop.value.running
  }

  lemma FoldOne(o: Observed, ds: seq<Delivery>, d: Delivery)
    ensures Fold(o, ds + [d]) == OnDelivery(Fold(o, ds), d)
  {
    assert (ds + [d])[..|ds|] == ds;
  }

  /** Reading some messages in one loop and the rest in another leaves the same state as one loop. */
  lemma {:induction false} FoldSplit(o: Observed, a: seq<Delivery>, b: seq<Delivery>)
    ensures Fold(o, a + b) == Fold(Fold(o, a), b)
  {
    if b == [] {
      assert a + b == a;
    } else {
      var b' := b[..|b| - 1];
      FoldSplit(o, a, b');
      assert (a + b)[..|a + b| - 1] == a + b';
    }
  }

  // ---------- what the fold means, without the handler ----------

  /** The text of every decodable output event, concatenated. */
  function DebugText(ds: seq<Delivery>): string {
    if ds == [] then "" else DebugText(ds[..|ds| - 1]) + OutputText(ds[|ds| - 1])
  }

  function OutputText(d: Delivery): string {
    match d
    case Frame(EventMessage(Output(Some((_, text))))) => text
    case _ => ""
  }

  /** Every non-blank stdout or stderr entry, in order. */
  function TargetEntries(ds: seq<Delivery>): seq<OutputEntry> {
    if ds == [] then [] else TargetEntries(ds[..|ds| - 1]) + TargetEntry(ds[|ds| - 1])
  }

  function TargetEntry(d: Delivery): seq<OutputEntry> {
    match d
    case Frame(EventMessage(Output(Some((category, text))))) =>
      if category.Some? && !IsBlank(text) then [OutputEntry(category.value, text)] else []
    case _ => []
  }

  /** What the handler adds to the debug text is exactly the output text read. */
  lemma {:induction false} FoldDebug(o: Observed, ds: seq<Delivery>)
    ensures Fold(o, ds).debug == o.debug + DebugText(ds)
    ensures Fold(o, ds).debug[|o.debug|..] == DebugText(ds)
  {
    if ds != [] {
      FoldDebug(o, ds[..|ds| - 1]);
      assert o.debug + "" == o.debug;
      Regroup(o.debug, DebugText(ds[..|ds| - 1]), OutputText(ds[|ds| - 1]));
    }
  }

  lemma AnswerPrintsNothing(ds: seq<Delivery>, n: nat)
    requires 0 < n <= |ds| && ds[n - 1].Frame? && ds[n - 1].message.Response?
    ensures DebugText(ds[..n]) == DebugText(ds[..n - 1])
  {
    assert ds[..n][..n - 1] == ds[..n - 1];
  }

  lemma OneOutput(o: Observed, d: Delivery)
    requires |o.target| <= MAX_TARGET_OUTPUT
    ensures OnDelivery(o, d).debug == o.debug + OutputText(d)
    ensures OnDelivery(o, d).target == LastN(MAX_TARGET_OUTPUT, o.target + TargetEntry(d))
  {
    assert o.debug + "" == o.debug;
    assert o.target + [] == o.target;
  }

  /** The debug text is all output text; the target output is the last 256 non-blank
      stdout or stderr entries, with what was kept before counted in. */
  lemma {:induction false} FoldOutputs(o: Observed, ds: seq<Delivery>)
    requires |o.target| <= MAX_TARGET_OUTPUT
    ensures Fold(o, ds).debug == o.debug + DebugText(ds)
    ensures Fold(o, ds).target == LastN(MAX_TARGET_OUTPUT, o.target + TargetEntries(ds))
  {
    if ds == [] {
      assert o.target + [] == o.target;
    } else {
      var ds', d := ds[..|ds| - 1], ds[|ds| - 1];
      FoldOutputs(o, ds');
      OneOutput(Fold(o, ds'), d);
      KeepLast(o.target + TargetEntries(ds'), TargetEntry(d));
      Regroup(o.target, TargetEntries(ds'), TargetEntry(d));
      Regroup(o.debug, DebugText(ds'), OutputText(d));
    }
  }

  lemma KeepLast(before: seq<OutputEntry>, entry: seq<OutputEntry>)
    requires |entry| <= 1
    ensures LastN(MAX_TARGET_OUTPUT, LastN(MAX_TARGET_OUTPUT, before) + entry)
              == LastN(MAX_TARGET_OUTPUT, before + entry)
  {
  }

  /** Events that decide whether the debuggee runs. */
  predicate DecidesStop(d: Delivery) {
    && d.Frame?
    && d.message.EventMessage?
    && (d.message.event.Continued? || d.message.event.Terminated?
        || (d.message.event.Stopped? && d.message.event.stop.Some?))
  }

  predicate IsStop(d: Delivery) {
    DecidesStop(d) && !d.message.event.Continued?
  }

  /** The state an announced stop stands for: it depends on that one event only. */
  function AnnouncedStop(d: Delivery): StopState
    requires IsStop(d)
  {
    if d.message.event.Terminated? then EXITED_STATE
    else StoppedState(d.message.event.stop.value.0, d.message.event.stop.value.1)
  }

  predicate NoneDecides(ds: seq<Delivery>) {
    forall i :: 0 <= i < |ds| ==> !DecidesStop(ds[i])
  }

  lemma {:induction false} FoldWithoutDecision(o: Observed, ds: seq<Delivery>)
    requires NoneDecides(ds)
    ensures Fold(o, ds).stop == o.stop
  {
    if ds != [] {
      FoldWithoutDecision(o, ds[..|ds| - 1]);
      assert !DecidesStop(ds[|ds| - 1]);
    }
  }

  /** The last deciding event decides: nothing before it matters to a stop. */
  lemma LastDecisionWins(o: Observed, ds: seq<Delivery>, k: nat)
    requires k < |ds| && IsStop(ds[k]) && NoneDecides(ds[k + 1..])
    ensures Fold(o, ds).stop == Some(AnnouncedStop(ds[k]))
  {
    assert ds == ds[..k + 1] + ds[k + 1..];
    FoldSplit(o, ds[..k + 1], ds[k + 1..]);
    FoldWithoutDecision(Fold(o, ds[..k + 1]), ds[k + 1..]);
    assert ds[..k + 1][..k] == ds[..k];
  }

  /** Where a debuggee at rest was last told to stop, when it was running before. */
  lemma {:induction false} RestComesFromAStop(o: Observed, ds: seq<Delivery>) returns (k: nat)
    requires !AtRest(o) && AtRest(Fold(o, ds))
    ensures k < |ds| && IsStop(ds[k]) && NoneDecides(ds[k + 1..])
    ensures Fold(o, ds).stop == Some(AnnouncedStop(ds[k]))
  {
    var last := |ds| - 1;
    if DecidesStop(ds[last]) {
      k := last;
    } else {
      k := RestComesFromAStop(o, ds[..last]);
      assert ds[k + 1..] == ds[..last][k + 1..] + [ds[last]];
    }
  }

  // ---------- in plain terms ----------

  /** What each event leaves of the stop state, field by field. */
  lemma EventsInFields(o: Observed, reason: StopReason, threadId: int)
    ensures var s := OnEvent(o, Stopped(Some((reason, threadId)))).stop;
            && s.Some? && !s.value.running && !s.value.exited
            && s.value.reason == reason && s.value.threadId == threadId && s.value.goroutineId == threadId
    ensures var s := OnEvent(o, Continued).stop;
            var thread := if o.stop.Some? then o.stop.value.threadId else 0;
            && s.Some? && s.value.running && !s.value.exited
            && s.value.reason == ReasonUnknown && s.value.threadId == thread && s.value.goroutineId == thread
    ensures var s := OnEvent(o, Terminated).stop;
            && s.Some? && !s.value.running && s.value.exited
            && s.value.reason == ReasonExit && s.value.threadId == 0 && s.value.goroutineId == 0
    ensures forall e: Event :: !e.Output? ==> OnEvent(o, e).debug == o.debug && OnEvent(o, e).target == o.target
    ensures OnEvent(o, Stopped(None)) == OnEvent(o, Output(None)) == OnEvent(o, OtherEvent) == o
    ensures forall d: Delivery :: !d.Frame? || !d.message.EventMessage? ==> OnDelivery(o, d) == o
  {
  }

  /** An output event adds its text to the debug text, and the debuggee's own output to the target output. */
  lemma OutputInFields(o: Observed, category: OutputCategory, text: string)
    ensures var own := OnEvent(o, Output(Some((Some(category), text))));
            && own.stop == o.stop && own.debug == o.debug + text
            && own.target == AppendTarget(o.target, OutputEntry(category, text))
    ensures var other := OnEvent(o, Output(Some((None, text))));
            other.stop == o.stop && other.debug == o.debug + text && other.target == o.target
  {
  }

  /** The stop at `k` is the last event that says whether the program runs, and `s` is what it says. */
  ghost predicate SaidBy(ds: seq<Delivery>, k: nat, s: StopState) {
    && k < |ds| && ds[k].Frame? && ds[k].message.EventMessage?
    && (match ds[k].message.event
        case Stopped(Some((reason, threadId))) =>
          && !s.running && !s.exited
          && s.reason == reason && s.threadId == threadId && s.goroutineId == threadId
        case Terminated => !s.running && s.exited && s.reason == ReasonExit
        case _ => false)
    && forall j :: k < j < |ds| ==> Silent(ds[j])
  }

  /** It says nothing of whether the program runs. */
  predicate Silent(d: Delivery) {
    match d
    case Frame(EventMessage(Stopped(Some(_)))) => false
    case Frame(EventMessage(Continued)) => false
    case Frame(EventMessage(Terminated)) => false
    case _ => true
  }

  /** A debuggee that was not at rest and is, in fields. */
  lemma {:induction false} RestInFields(o: Observed, ds: seq<Delivery>) returns (k: nat)
    requires !AtRest(o) && AtRest(Fold(o, ds))
    ensures Fold(o, ds).stop.Some? && SaidBy(ds, k, Fold(o, ds).stop.value)
  {
    hide Fold;
    k := RestComesFromAStop(o, ds);
    forall j | k < j < |ds|
      ensures Silent(ds[j])
    {
      assert ds[k + 1..][j - k - 1] == ds[j];
    }
  }

  /** The target output never holds more than 256 entries, and they are the newest. */
  lemma NewestEntries(target: seq<OutputEntry>, entry: OutputEntry)
    requires |target| <= 256 && TrimSpace(entry.text) != ""
    ensures var now := AppendTarget(target, entry);
            && |now| == (if |target| < 256 then |target| + 1 else 256)
            && now[|now| - 1] == entry && now[..|now| - 1] == target[|target| + 1 - |now|..]
  {
    BlankIffTrimsToNothing(entry.text);
  }
}
