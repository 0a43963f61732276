/** What the two events do that the proxy's queue does not survive. */
module ProxyFaults {
  import opened Bytes
  import opened ProxySpec

  /** The request that follows the head to the modem when the head is answered: none if its client is gone. */
  function NextOut(w: World): seq<Queued> {
    if |w.t.ctl| > 1 && w.t.ctl[1].fd in Fds(w.t.conns) then [w.t.ctl[1]] else []
  }

  ghost predicate HeadIsLive(w: World) {
    && DistinctFds(w.t.conns) && (forall m :: m in w.t.ctl ==> m.qmi.Control?)
    && w.t.ctl != [] && w.t.ctl[0].fd in Fds(w.t.conns)
  }

  /** Any answer goes to the client of the queue's head, whoever's request it answers. */
  lemma AnswerGoesToHead(w: World, a: Qmi)
    requires HeadIsLive(w) && a.Control? && a.isResponse && w.atModem != []
    ensures var after := Step(w, FromModem(a));
            && after.delivered == w.delivered + [Queued(w.t.ctl[0].fd, a)] && after.t.ctl == w.t.ctl[1..]
            && DistinctFds(after.t.conns) && Fds(after.t.conns) == Fds(w.t.conns)
            && after.atModem == w.atModem[1..] + NextOut(w) && after.sent == w.sent + NextOut(w)
  {
    AnswerEmits(w.t, a);
  }

  lemma HangupStep(w: World, fd: byte)
    requires DistinctFds(w.t.conns) && fd in Fds(w.t.conns)
    ensures var after := Step(w, Hangup(fd));
            && after.t.ctl == RemoveFirstQueued(w.t.ctl, fd)
            && DistinctFds(after.t.conns) && Fds(after.t.conns) == Fds(w.t.conns) - {fd}
            && after.atModem == w.atModem && after.delivered == w.delivered && after.sent == w.sent
  {
    RemoveFirstConnDistinct(w.t.conns, fd);
    assert Fds(Step(w, Hangup(fd)).t.conns) == Fds(w.t.conns) - {fd};
  }

  lemma DropFirst(x: Queued, y: Queued, fd: byte)
    requires x.fd == fd
    ensures RemoveFirstQueued([x, y], fd) == [y]
  {
  }

  lemma DropSecond(x: Queued, y: Queued, z: Queued, fd: byte)
    requires x.fd != fd && y.fd == fd
    ensures RemoveFirstQueued([x, y, z], fd) == [x, z]
  {
    assert [x, y, z][1..] == [y, z] && [y, z][1..] == [z];
    assert RemoveFirstQueued([y, z], fd) == [z];
  }

  lemma ReachableQueue(w: World)
    requires Reachable(w)
    ensures DistinctFds(w.t.conns) && w.atModem == if w.t.ctl == [] then [] else [w.t.ctl[0]]
    ensures forall m :: m in w.t.ctl ==> m.qmi.Control? && m.fd in Fds(w.t.conns)
  {
    ReachableInv(w);
    assert forall m :: m in w.t.ctl ==> m in w.kept;
  }

  /**
   * A client hangs up while its request is out at the modem, and another client's request is queued
   * behind it: the answer to the first client's request is delivered to the other client, and the
   * other client's own request is dropped without having been sent.
   */
  lemma HangupOfHeadMisdelivers(w: World, fd: byte, a: Qmi)
    requires Reachable(w) && |w.t.ctl| == 2 && w.t.ctl[0].fd == fd && w.t.ctl[1].fd != fd
    requires a.Control? && a.isResponse
    ensures var gone := Step(w, Hangup(fd));
            var answered := Step(gone, FromModem(a));
            && gone.atModem == [w.t.ctl[0]]
            && answered.delivered == w.delivered + [Queued(w.t.ctl[1].fd, a)]
            && answered.t.ctl == [] && answered.atModem == [] && answered.sent == w.sent
  {
    ReachableQueue(w);
    var gone, next := Step(w, Hangup(fd)), w.t.ctl[1];
    assert w.t.ctl == [w.t.ctl[0], next] && w.t.ctl[0] in w.t.ctl && next in w.t.ctl;
    DropFirst(w.t.ctl[0], next, fd);
    HangupStep(w, fd);
    AnswerGoesToHead(gone, a);
  }

  /**
   * A client hangs up with two requests queued behind another's: once that one is answered the queue
   * stalls. Its head belongs to nobody, nothing is out at the modem, and whatever control request
   * arrives is queued and not sent.
   */
  lemma HangupWithTwoStalls(w: World, fd: byte, a: Qmi, from: byte, q: Qmi)
    requires Reachable(w) && |w.t.ctl| == 3
    requires w.t.ctl[0].fd != fd && w.t.ctl[1].fd == fd && w.t.ctl[2].fd == fd
    requires a.Control? && a.isResponse && q.Control?
    ensures var stalled := Step(Step(w, Hangup(fd)), FromModem(a));
            && stalled.t.ctl == [w.t.ctl[2]] && fd !in Fds(stalled.t.conns) && stalled.atModem == []
            && Step(stalled, FromClient(from, q)).atModem == []
            && Step(stalled, FromClient(from, q)).sent == stalled.sent
  {
    ReachableQueue(w);
    var gone, head, last := Step(w, Hangup(fd)), w.t.ctl[0], w.t.ctl[2];
    assert w.t.ctl == [head, w.t.ctl[1], last] && head in w.t.ctl && w.t.ctl[1] in w.t.ctl && last in w.t.ctl;
    DropSecond(head, w.t.ctl[1], last, fd);
    HangupStep(w, fd);
    AnswerGoesToHead(gone, a);
    ClientStep(Step(gone, FromModem(a)), from, q);
  }

  /**
   * A control indication with two clients' requests queued: the head is sent again, the modem answers
   * it twice, and the second answer to the first client's request is delivered to the second client.
   */
  lemma IndicationMisdelivers(w: World, i: Qmi, a1: Qmi, a2: Qmi)
    requires Reachable(w) && |w.t.ctl| == 2 && w.t.ctl[0].fd != w.t.ctl[1].fd
    requires i.Control? && !i.isResponse && a1.Control? && a1.isResponse && a2.Control? && a2.isResponse
    ensures var resent := Step(w, FromModem(i));
            var once := Step(resent, FromModem(a1));
            && resent.atModem == [w.t.ctl[0], w.t.ctl[0]]
            && once.atModem == [w.t.ctl[0], w.t.ctl[1]]
            && Step(once, FromModem(a2)).delivered
               == w.delivered + [Queued(w.t.ctl[0].fd, a1)] + [Queued(w.t.ctl[1].fd, a2)]
  {
    ReachableQueue(w);
    assert w.t.ctl[0] in w.t.ctl && w.t.ctl[1] in w.t.ctl;
    TwiceAnswered(w, i, a1, a2);
  }

  lemma TwiceAnswered(w: World, i: Qmi, a1: Qmi, a2: Qmi)
    requires HeadIsLive(w) && |w.t.ctl| == 2 && w.t.ctl[1].fd in Fds(w.t.conns) && w.atModem == [w.t.ctl[0]]
    requires i.Control? && !i.isResponse && a1.Control? && a1.isResponse && a2.Control? && a2.isResponse
    ensures var resent := Step(w, FromModem(i));
            var once := Step(resent, FromModem(a1));
            && resent.atModem == [w.t.ctl[0], w.t.ctl[0]]
            && once.atModem == [w.t.ctl[0], w.t.ctl[1]]
            && Step(once, FromModem(a2)).delivered
               == w.delivered + [Queued(w.t.ctl[0].fd, a1)] + [Queued(w.t.ctl[1].fd, a2)]
  {
    var resent := Step(w, FromModem(i));
    ResendOnly(w, i);
    AnswerGoesToHead(resent, a1);
    AnswerGoesToHead(Step(resent, FromModem(a1)), a2);
  }

  lemma ResendOnly(w: World, i: Qmi)
    requires i.Control? && !i.isResponse && DistinctFds(w.t.conns) && w.t.ctl != []
    requires w.t.ctl[0].qmi.Control? && w.t.ctl[0].fd in Fds(w.t.conns)
    ensures var after := Step(w, FromModem(i));
            after.t == w.t && after.delivered == w.delivered && after.atModem == w.atModem + [w.t.ctl[0]]
  {
    var head := w.t.ctl[0];
    CopiesOfDistinct(w.t.conns, head.fd, ToModem(head.fd, head.qmi));
    RequestsOfOne(ToModem(head.fd, head.qmi));
    assert RecvWrites(w.t, i) == [] + [ToModem(head.fd, head.qmi)] == [ToModem(head.fd, head.qmi)];
  }

  lemma ReachableStep(w: World, e: Event)
    requires Reachable(w) && Allowed(w, e)
    ensures Reachable(Step(w, e))
  {
    var es :| Legal(Start(), es) && w == Run(Start(), es);
    assert (es + [e])[..|es + [e]| - 1] == es;
    assert Legal(Start(), es + [e]);
  }

  lemma RequestReaches(w: World, fd: byte, q: Qmi)
    requires Reachable(w) && fd in Fds(w.t.conns) && q.Control?
    ensures var after := Step(w, FromClient(fd, q));
            Reachable(after) && after.t.conns == w.t.conns && after.t.ctl == w.t.ctl + [Queued(fd, q)]
  {
    ReachableStep(w, FromClient(fd, q));
    ClientStep(w, fd, q);
  }

  /** Such worlds are reached: two clients connect and each sends a control request. */
  lemma TwoClientsQueue(q1: Qmi, q2: Qmi) returns (w: World)
    requires q1.Control? && q2.Control?
    ensures Reachable(w) && w.t.ctl == [Queued(1, q1), Queued(2, q2)]
  {
    w := TwoClientsConnect();
    RequestReaches(w, 1, q1);
    w := Step(w, FromClient(1, q1));
    RequestReaches(w, 2, q2);
    w := Step(w, FromClient(2, q2));
  }

  /** And the second client may send one more. */
  lemma TwoClientsQueueThree(q1: Qmi, q2: Qmi, q3: Qmi) returns (w: World)
    requires q1.Control? && q2.Control? && q3.Control?
    ensures Reachable(w) && w.t.ctl == [Queued(1, q1), Queued(2, q2), Queued(2, q3)]
  {
    w := TwoClientsQueue(q1, q2);
    ReachableQueue(w);
    assert w.t.ctl[1] in w.t.ctl;
    RequestReaches(w, 2, q3);
    w := Step(w, FromClient(2, q3));
  }

  lemma TwoClientsConnect() returns (w: World)
    ensures Reachable(w) && w.t.conns == [Conn(1, []), Conn(2, [])] && w.t.ctl == []
    ensures 1 in Fds(w.t.conns) && 2 in Fds(w.t.conns)
  {
    assert Reachable(Start()) by {
      assert Run(Start(), []) == Start();
    }
    ReachableStep(Start(), Connect(1));
    var w1 := Step(Start(), Connect(1));
    ReachableStep(w1, Connect(2));
    w := Step(w1, Connect(2));
    assert w.t.conns[0] in w.t.conns && w.t.conns[1] in w.t.conns;
  }
}
