/** What becomes of an MBIM command, told by the messages that came while it was waited for. */
module MbimReplies {
  import opened Wrappers
  import opened MbimCommands

  /** The run ends in the wait for the command that was sent at `i`. */
  ghost predicate WaitsSince(es: seq<Event>, i: nat) {
    i < |es| && es[i] == Send(true) && forall q :: i < q < |es| ==> es[q].Receive?
  }

  /** The last message after `i` that carries transaction id `tid`. */
  function LastWith(es: seq<Event>, i: nat, tid: nat, commands: seq<Command>): Option<Message>
    decreases |es|
  {
    if |es| <= i + 1 || !es[|es| - 1].Receive? then None
    else
      var m := es[|es| - 1].m;
      if (m.Reply? && m.command < |commands| && commands[m.command].tid == tid) || (m.Indication? && tid == 0)
      then Some(m) else LastWith(es[..|es| - 1], i, tid, commands)
  }

  ghost predicate Waiting(s: State, last: Option<Message>) {
    && s.commands != [] && s.request == Some(|s.commands| - 1) && s.response == last
  }

  lemma {:induction false} WaitSoFar(es: seq<Event>, i: nat)
    requires Possible(es) && WaitsSince(es, i)
    ensures var s := Run(es);
            s.commands != [] && Waiting(s, LastWith(es, i, s.commands[|s.commands| - 1].tid, s.commands))
    decreases |es|
  {
    if |es| > i + 1 {
      var front := es[..|es| - 1];
      assert WaitsSince(front, i);
      WaitSoFar(front, i);
    }
  }

  /**
   * In every run: a command that is waited for is completed exactly if the wait does not time out and a
   * message with its transaction id came, and by the last such message; its own reply has its id.
   */
  lemma CommandCompletedIff(es: seq<Event>, i: nat, timedOut: bool, after: State)
    requires Possible(es) && WaitsSince(es, i) && after == Step(Run(es), Wake(timedOut))
    ensures var s := Run(es);
            && s.commands != []
            && var j := |s.commands| - 1;
               var last := LastWith(es, i, s.commands[j].tid, s.commands);
               && after.completed ==
                    s.completed + (if !timedOut && last.Some? then [Completion(j, last.value)] else [])
               && (Receive(Reply(j)) in es[i + 1..] ==> last.Some?)
    ensures Possible(es + [Wake(timedOut)])
  {
    WaitSoFar(es, i);
    assert (es + [Wake(timedOut)])[..|es|] == es;
    var s := Run(es);
    OwnReplyCounts(es, i, |s.commands| - 1, s.commands);
    assert s.completed + [] == s.completed;
  }

  lemma {:induction false} OwnReplyCounts(es: seq<Event>, i: nat, j: nat, commands: seq<Command>)
    requires WaitsSince(es, i) && j < |commands|
    ensures Receive(Reply(j)) in es[i + 1..] ==> LastWith(es, i, commands[j].tid, commands).Some?
    decreases |es|
  {
    if |es| > i + 1 {
      var front := es[..|es| - 1];
      assert WaitsSince(front, i);
      OwnReplyCounts(front, i, j, commands);
      assert es[i + 1..] == front[i + 1..] + [es[|es| - 1]];
    }
  }
}
