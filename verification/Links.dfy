/** What the client's operations do to one connection, and when they succeed, as functions of what the
    connection will deliver and which writes it refuses. */
module Links {
  import opened Dap
  import opened Protocol

  /** The deliveries to come, the writes to be refused, the last request number, and what was observed. */
  datatype Link = Link(inbox: seq<Delivery>, faults: seq<bool>, number: int, seen: Observed)

  /** The connection takes the next write. */
  predicate Writable(faults: seq<bool>) {
    faults == [] || !faults[0]
  }

  function Rest(faults: seq<bool>): seq<bool> {
    if faults == [] then [] else faults[1..]
  }

  /** After one request: a new number, and when it could be written everything up to its answer was read. */
  function Ask(w: Link): Link {
    var n := w.number + 1;
    if !Writable(w.faults) then Link(w.inbox, Rest(w.faults), n, w.seen)
    else
      var k := ReadsOf(w.inbox, n);
      Link(w.inbox[k..], Rest(w.faults), n, Fold(w.seen, w.inbox[..k]))
  }

  lemma AskedBy(before: Tape, n: nat, after: Tape, faults: seq<bool>, number: int)
    requires Consumed(before, n, after) && Writable(faults) && n == ReadsOf(before.inbox, number)
    ensures Link(after.inbox, Rest(faults), number, after.seen)
              == Ask(Link(before.inbox, faults, number - 1, before.seen))
  {
    hide Fold;
  }

  lemma NotAsked(w: Link)
    requires !Writable(w.faults)
    ensures Ask(w) == Link(w.inbox, Rest(w.faults), w.number + 1, w.seen)
  {
  }

  /** The next request is written, and answered with success before any read fails. */
  predicate Granted(w: Link) {
    var n := w.number + 1;
    var k := EndOf(w.inbox, n);
    Writable(w.faults) && k < |w.inbox| && Answers(w.inbox[k], n) && w.inbox[k].message.success
  }

  lemma GrantedIsAnswered(w: Link, command: string)
    ensures Granted(w) <==> Writable(w.faults) && AnswerOf(w.inbox, w.number + 1, command).Ok?
  {
    hide EndOf;
  }

  /** After waiting for a stop. */
  function Await(w: Link): Link {
    var k := WaitReads(w.seen, w.inbox);
    Link(w.inbox[k..], w.faults, w.number, Fold(w.seen, w.inbox[..k]))
  }

  /** A session opens exactly when its three requests are granted, one after the other, and the wait that
      follows ends at rest. */
  predicate Opens(w: Link) {
    Granted(w) && Granted(Ask(w)) && Granted(Ask(Ask(w))) && AtRest(Opened(w).seen)
  }

  function Opened(w: Link): Link {
    Await(Ask(Ask(Ask(w))))
  }

  /** What opening a session writes: its three requests, up to the first that the connection does not take or
      that is not granted. */
  function Written(w: Link, command: string): seq<Request> {
    var first, second := Request(w.number + 1, "initialize", OtherArguments),
                         Request(w.number + 2, command, OtherArguments);
    if !Writable(w.faults) then []
    else if !Granted(w) || !Writable(Ask(w).faults) then [first]
    else if !Granted(Ask(w)) || !Writable(Ask(Ask(w)).faults) then [first, second]
    else [first, second, Request(w.number + 3, "configurationDone", NoArguments)]
  }

  /** Where that leaves the connection. */
  function Negotiated(w: Link): Link {
    if !Granted(w) then Ask(w)
    else if !Granted(Ask(w)) then Ask(Ask(w))
    else if !Granted(Ask(Ask(w))) then Ask(Ask(Ask(w)))
    else Opened(w)
  }

  lemma WrittenByThen(before: seq<Request>, w: Link, command: string)
    ensures var first, second := Request(w.number + 1, "initialize", OtherArguments),
                                 Request(w.number + 2, command, OtherArguments);
            var third := Request(w.number + 3, "configurationDone", NoArguments);
            before + Written(w, command) ==
            if !Granted(w) then (if Writable(w.faults) then before + [first] else before)
            else if !Granted(Ask(w)) then
              if Writable(Ask(w).faults) then before + [first] + [second] else before + [first]
            else if Writable(Ask(Ask(w)).faults) then before + [first] + [second] + [third]
            else before + [first] + [second]
  {
    hide Ask;
  }

  lemma OpensWritesAll(w: Link, command: string)
    requires Opens(w)
    ensures Written(w, command) == [Request(w.number + 1, "initialize", OtherArguments),
                                    Request(w.number + 2, command, OtherArguments),
                                    Request(w.number + 3, "configurationDone", NoArguments)]
    ensures Negotiated(w) == Opened(w)
  {
    hide Ask, Await;
  }

  /** A thread action succeeds exactly when, with the debuggee marked running, its request is granted and
      the wait that follows ends at rest. */
  predicate Acts(w: Link) {
    Granted(Started(w)) && AtRest(Acted(w).seen)
  }

  function Started(w: Link): Link {
    w.(seen := MarkRunning(w.seen))
  }

  function Acted(w: Link): Link {
    Await(Ask(Started(w)))
  }

  lemma AskIsOneRequest(w: Link)
    ensures Ask(w).number == w.number + 1 && Ask(w).faults == if w.faults == [] then [] else w.faults[1..]
  {
  }

  lemma ActedIsOneRequest(w: Link)
    ensures Acts(w) ==> Writable(w.faults)
    ensures Acted(w).number == w.number + 1 && Acted(w).faults == if w.faults == [] then [] else w.faults[1..]
  {
  }

  /** After an action, however it ends. */
  function Tried(w: Link): Link {
    if Granted(Started(w)) then Acted(w) else Ask(Started(w))
  }

  /** Success of an action is completion: after exactly the messages of its request and of the wait, and
      at no other count. */
  lemma {:induction false} ActsIsCompletion(w: Link, m: nat)
    ensures var n := w.number + 1;
            var total := ReadsOf(w.inbox, n) + WaitReads(Ask(Started(w)).seen, Ask(Started(w)).inbox);
            Acts(w) && m == total <==> Writable(w.faults) && Completes(Started(w).seen, w.inbox, n, m)
  {
    hide EndOf, Fold, WaitReads;
    var n := w.number + 1;
    var s := Started(w);
    var k := ReadsOf(w.inbox, n);
    if Granted(s) {
      var a := Ask(s);
      var j := WaitReads(a.seen, a.inbox);
      FoldShift(s.seen, w.inbox, k, j);
      if Acts(w) {
        WaitCompletes(s.seen, w.inbox, n, j);
      }
      if Completes(s.seen, w.inbox, n, m) {
        CompletionIsFound(s.seen, w.inbox, n, m);
      }
    }
  }
}
