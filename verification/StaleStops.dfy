/** Whose stop an action returns. What the connection delivers after a request was written is first what the
    server had said before it got that request, and then the rest; a stop in the first part belongs to an earlier
    action, one that failed before its stop was read. */
module StaleStops {
  import opened GoStrings
  import opened Dap
  import opened Protocol
  import opened Links

  /** The event that decides the state after `m` messages is the stop at `k`. */
  ghost predicate Decided(inbox: seq<Delivery>, m: nat, k: nat) {
    k < m <= |inbox| && IsStop(inbox[k]) && NoneDecides(inbox[k + 1..m])
  }

  /** Nothing answers a request before it is written. */
  ghost predicate Unanswered(leftover: seq<Delivery>, n: int) {
    forall i :: 0 <= i < |leftover| ==> !Answers(leftover[i], n)
  }

  /** An earlier action's stop is still unread: what is left over leaves the debuggee at rest, and nothing the
      server says before its answer decides otherwise. */
  ghost predicate Stale(o: Observed, leftover: seq<Delivery>, own: seq<Delivery>, n: int) {
    AtRest(Fold(MarkRunning(o), leftover)) && NoneDecides(own[..EndOf(own, n)])
  }

  lemma AnswerIsOwn(leftover: seq<Delivery>, own: seq<Delivery>, n: int)
    requires var a := EndOf(leftover + own, n); a < |leftover + own| && Answers((leftover + own)[a], n)
    requires Unanswered(leftover, n)
    ensures EndOf(leftover + own, n) == |leftover| + EndOf(own, n)
  {
    hide EndOf, EndsRequest, Answers;
    var inbox := leftover + own;
    var a := EndOf(inbox, n);
    assert a >= |leftover|;
    forall i | 0 <= i < a - |leftover|
      ensures !EndsRequest(own[i], n)
    {
      NothingEndsBefore(inbox, n, |leftover| + i);
      assert own[i] == inbox[|leftover| + i];
    }
    assert EndsRequest(own[a - |leftover|], n);
    EndOfIsFirst(own, n, a - |leftover|);
  }

  /** With a stale stop the action returns it at once, with its answer. */
  lemma StaleStopIsReturned(o: Observed, leftover: seq<Delivery>, own: seq<Delivery>, n: int, m: nat)
    requires Completes(MarkRunning(o), leftover + own, n, m) && Unanswered(leftover, n)
    requires Stale(o, leftover, own, n)
    ensures m == |leftover| + EndOf(own, n) + 1
    ensures Fold(MarkRunning(o), (leftover + own)[..m]).stop == Fold(MarkRunning(o), leftover).stop
  {
    hide EndOf, Fold;
    AnswerIsOwn(leftover, own, n);
    var a := EndOf(own, n);
    var inbox := leftover + own;
    assert inbox[..|leftover| + a + 1] == leftover + own[..a + 1];
    assert own[..a + 1] == own[..a] + [own[a]];
    assert own[a] == inbox[|leftover| + a];
    FoldSplit(MarkRunning(o), leftover, own[..a + 1]);
    FoldWithoutDecision(Fold(MarkRunning(o), leftover), own[..a + 1]);
    assert AtRest(Fold(MarkRunning(o), inbox[..|leftover| + a + 1]));
  }

  /** A completed action returns the stop of its own exactly when no stale stop was left: the event that decides
      the returned state was sent after the server got the action's request. */
  lemma OwnStopExactlyWhen(o: Observed, leftover: seq<Delivery>, own: seq<Delivery>, n: int, m: nat) returns (k: nat)
    requires Completes(MarkRunning(o), leftover + own, n, m) && Unanswered(leftover, n)
    ensures Decided(leftover + own, m, k)
    ensures Fold(MarkRunning(o), (leftover + own)[..m]).stop == Some(AnnouncedStop((leftover + own)[k]))
    ensures |leftover| <= k <==> !Stale(o, leftover, own, n)
  {
    hide EndOf, Fold, Answers;
    var inbox := leftover + own;
    k := CompletedByAFreshStop(o, inbox, n, m);
    AnswerIsOwn(leftover, own, n);
    var a := EndOf(own, n);
    if Stale(o, leftover, own, n) {
      StaleStopIsReturned(o, leftover, own, n, m);
      forall i | |leftover| <= i < m
        ensures !DecidesStop(inbox[i])
      {
        if i == |leftover| + a {
          AnswerIsNoStop(inbox[i], n);
        } else {
          assert own[..a][i - |leftover|] == inbox[i];
        }
      }
    } else if k < |leftover| {
      LeftoverDecides(o, leftover, own, n, m, k);
    }
  }

  lemma AnswerIsNoStop(d: Delivery, n: int)
    requires Answers(d, n)
    ensures !DecidesStop(d)
  {
  }

  lemma LeftoverDecides(o: Observed, leftover: seq<Delivery>, own: seq<Delivery>, n: int, m: nat, k: nat)
    requires k < |leftover| && Decided(leftover + own, m, k) && |leftover| + EndOf(own, n) < m
    ensures Stale(o, leftover, own, n)
  {
    hide EndOf, Fold;
    var inbox := leftover + own;
    forall i | 0 <= i < EndOf(own, n)
      ensures !DecidesStop(own[..EndOf(own, n)][i])
    {
      assert own[i] == inbox[k + 1..m][|leftover| + i - k - 1];
    }
    var tail := leftover[k + 1..];
    forall i | 0 <= i < |tail|
      ensures !DecidesStop(tail[i])
    {
      assert tail[i] == inbox[k + 1..m][i];
    }
    LastDecisionWins(MarkRunning(o), leftover, k);
  }

  // ---------- a run ----------

  function Stop(reason: StopReason): Delivery {
    Frame(EventMessage(Stopped(Some((reason, 1)))))
  }

  function Yes(number: int): Delivery {
    Frame(Response(number, true, "", NoBody))
  }

  /** At rest on a connection that will answer a first action, let its wait time out, and then deliver its stop
      before the answer to a second action. */
  function LateStop(): Link {
    Link([Yes(1), ReadError, Stop(ReasonBreakpoint), Yes(2), Stop(ReasonStep)], [], 0,
         NOTHING.(stop := Some(StoppedState(ReasonEntry, 1))))
  }

  /** After the first action. */
  function Waited(): Link {
    Link([Stop(ReasonBreakpoint), Yes(2), Stop(ReasonStep)], [], 1,
         NOTHING.(stop := Some(StopState(true, false, NoReason, 1, 1))))
  }

  lemma FirstActionFails()
    ensures !Acts(LateStop()) && Tried(LateStop()) == Waited()
  {
    hide Fold;
    var w := LateStop();
    var s := Started(w);
    OneRead(s.seen, w.inbox);
    var asked := Ask(s);
    assert asked.inbox == [ReadError, Stop(ReasonBreakpoint), Yes(2), Stop(ReasonStep)] && asked.seen == s.seen;
    OneRead(asked.seen, asked.inbox);
  }

  lemma SecondActionSucceeds()
    ensures var after := Acted(Waited());
            && Acts(Waited()) && after.inbox == [Stop(ReasonStep)]
            && after.seen.stop == Some(StoppedState(ReasonBreakpoint, 1))
  {
    hide Fold, EndOf;
    var s := Started(Waited());
    SecondAnswer();
    OneRead(s.seen, s.inbox);
    assert s.inbox[..2] == s.inbox[..1] + [s.inbox[1]];
    FoldOne(s.seen, s.inbox[..1], s.inbox[1]);
    var asked := Ask(s);
    assert asked.seen.stop == Some(StoppedState(ReasonBreakpoint, 1));
    NoRead(asked.seen, asked.inbox);
  }

  /** The first action fails; the second returns the first one's stop, and its own is left unread. */
  lemma SecondActionReturnsTheFirstStop()
    ensures var after := Tried(LateStop());
            && !Acts(LateStop()) && Acts(after)
            && Acted(after).seen.stop == Some(StoppedState(ReasonBreakpoint, 1))
            && Acted(after).inbox == [Stop(ReasonStep)]
  {
    hide Acts, Acted, Tried;
    FirstActionFails();
    SecondActionSucceeds();
  }

  lemma NoRead(o: Observed, inbox: seq<Delivery>)
    ensures Fold(o, inbox[..0]) == o && inbox[0..] == inbox
  {
  }

  lemma SecondAnswer()
    ensures EndOf([Stop(ReasonBreakpoint), Yes(2), Stop(ReasonStep)], 2) == 1
  {
    var inbox := [Stop(ReasonBreakpoint), Yes(2), Stop(ReasonStep)];
    EndOfIsFirst(inbox, 2, 1);
  }

  lemma OneRead(o: Observed, inbox: seq<Delivery>)
    requires inbox != []
    ensures Fold(o, inbox[..1]) == OnDelivery(o, inbox[0])
  {
    assert inbox[..1] == [] + [inbox[0]];
    FoldOne(o, [], inbox[0]);
  }
}
