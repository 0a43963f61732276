/** What a sender gets at the end of its wait, told by what happened while it waited. */
module AnswerDelivery {
  import opened Wrappers
  import opened Bytes
  import opened MatchingSpec

  /** The run ends in the wait for the request that was sent at `i`. */
  ghost predicate WaitsSince(es: seq<Event>, i: nat) {
    i < |es| && es[i].Send? && es[i].device.Written? && forall q :: i < q < |es| ==> !es[q].Send? && !es[q].Wake?
  }

  /** The reader ended between `i` and `p`. */
  ghost predicate QuitBetween(es: seq<Event>, i: nat, p: nat)
    requires p <= |es|
  {
    exists q :: i < q < p && es[q] == Quit
  }

  /** The answer came after `i`, to a reader that had not ended. */
  ghost predicate CameAt(es: seq<Event>, i: nat, p: nat, answer: Header) {
    i < p < |es| && es[p] == Receive(answer) && !QuitBetween(es, i, p)
  }

  ghost predicate Came(es: seq<Event>, i: nat, answer: Header) {
    exists p: nat :: CameAt(es, i, p, answer)
  }

  lemma CameOneMore(es: seq<Event>, i: nat, e: Event, answer: Header)
    requires i < |es|
    ensures Came(es + [e], i, answer) <==>
            Came(es, i, answer) || (e == Receive(answer) && !QuitBetween(es, i, |es|))
    ensures QuitBetween(es + [e], i, |es| + 1) <==> QuitBetween(es, i, |es|) || e == Quit
  {
    var more := es + [e];
    forall p: nat | p <= |es| ensures QuitBetween(more, i, p) <==> QuitBetween(es, i, p) {
      assert forall q :: 0 <= q < p ==> more[q] == es[q];
    }
    if Came(more, i, answer) {
      var p: nat :| CameAt(more, i, p, answer);
      assert p < |es| ==> CameAt(es, i, p, answer);
    }
    if Came(es, i, answer) {
      var p: nat :| CameAt(es, i, p, answer);
      assert CameAt(more, i, p, answer);
    }
    if e == Receive(answer) && !QuitBetween(es, i, |es|) {
      assert CameAt(more, i, |es|, answer);
    }
    assert more[|es|] == e;
  }

  /** The outcome of the wait so far: answered, let go without an answer, or still open. */
  ghost predicate Outcome(s: State, answered: bool, quit: bool) {
    && s.waiting && s.asked != [] && |s.objects| == |s.asked|
    && var j := |s.asked| - 1;
       && s.objects[j].held == OnWire(s.asked[j])
       && s.objects[j].frees == (if answered || quit then 1 else 0)
       && s.outstanding == (if answered || quit then None else Some(j))
       && s.response == if answered then Some(OnWire(s.asked[j])) else None
  }

  lemma SendOpens(s: State, e: Event)
    requires Inv(s) && e.Send? && e.device.Written?
    ensures Outcome(Step(s, e), false, false)
  {
  }

  lemma WaitStep(s: State, e: Event, answered: bool, quit: bool)
    requires Outcome(s, answered, quit) && (e.Receive? || e.Quit?)
    ensures var after, answer := Step(s, e), OnWire(s.asked[|s.asked| - 1]);
            && after.asked == s.asked && after.handed == s.handed
            && Outcome(after, answered || (e == Receive(answer) && !quit), quit || e.Quit?)
  {
  }

  /** Where a wait stands. */
  lemma {:induction false} WaitSoFar(es: seq<Event>, i: nat)
    requires Possible(es) && WaitsSince(es, i)
    ensures var s := Run(es);
            && s.asked != [] && s.asked[|s.asked| - 1].service == es[i].service
            && s.asked[|s.asked| - 1].client == es[i].client
            && Outcome(s, Came(es, i, OnWire(s.asked[|s.asked| - 1])), QuitBetween(es, i, |es|))
    decreases |es|
  {
    var front, e := es[..|es| - 1], es[|es| - 1];
    assert es == front + [e];
    if |es| == i + 1 {
      RunKeepsInv(front);
      SendOpens(Run(front), e);
      assert forall answer :: !Came(es, i, answer);
    } else {
      assert WaitsSince(front, i) by {
        assert forall q :: 0 <= q < |front| ==> front[q] == es[q];
      }
      WaitSoFar(front, i);
      var s := Run(front);
      var answer := OnWire(s.asked[|s.asked| - 1]);
      WaitStep(s, e, Came(front, i, answer), QuitBetween(front, i, |front|));
      CameOneMore(front, i, e, answer);
    }
  }

  /**
   * In every run: whoever waits for a request is handed its own answer, service, client and transaction
   * as they went out, if that came to the reader before the wait ended; and nothing exactly when the
   * wait timed out, no answer was wanted, or none came before the reader ended. Either way the request
   * is freed exactly once as soon as it is answered or the reader ends.
   */
  lemma AnswerHandedIff(es: seq<Event>, i: nat, timedOut: bool, wanted: bool, after: State)
    requires Possible(es) && WaitsSince(es, i) && after == Step(Run(es), Wake(timedOut, wanted))
    ensures Possible(es + [Wake(timedOut, wanted)])
    ensures var s := Run(es);
            && s.asked != [] && |s.objects| == |s.asked|
            && var j := |s.asked| - 1;
               var answer := Header(if es[i].service == WdsIpv6 then Wds else es[i].service, es[i].client,
                                    s.asked[j].tid);
               var came := Came(es, i, answer);
               && after.handed == s.handed + [Handed(j, if !timedOut && wanted && came then Some(answer) else None)]
               && s.objects[j].frees == if came || QuitBetween(es, i, |es|) then 1 else 0
  {
    WaitSoFar(es, i);
    assert (es + [Wake(timedOut, wanted)])[..|es|] == es;
  }
}
