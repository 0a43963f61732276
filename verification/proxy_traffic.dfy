/** Everything the proxy writes in a run: service messages reach the modem, and then their clients. */
module ProxyTraffic {
  import opened Wrappers
  import opened Bytes
  import opened ProxySpec

  /** All writes of a run, oldest first. */
  function Log(events: seq<Event>): seq<Write> {
    if events == [] then []
    else Log(events[..|events| - 1]) + Writes(Run(Start(), events[..|events| - 1]).t, events[|events| - 1])
  }

  /** The service messages among the writes to the modem. */
  function Upward(ws: seq<Write>): seq<Write> {
    if ws == [] then []
    else Upward(ws[..|ws| - 1]) + if ws[|ws| - 1].ToModem? && ws[|ws| - 1].qmi.Service? then [ws[|ws| - 1]] else []
  }

  /** The service messages clients sent, each with its sender. */
  function SentUp(events: seq<Event>): seq<Write> {
    if events == [] then []
    else SentUp(events[..|events| - 1]) + Brought(events[|events| - 1])
  }

  function Brought(e: Event): seq<Write> {
    if e.FromClient? && e.qmi.Service? then [ToModem(e.fd, e.qmi)] else []
  }

  lemma {:induction false} UpwardConcat(a: seq<Write>, b: seq<Write>)
    ensures Upward(a + b) == Upward(a) + Upward(b)
    decreases |b|
  {
    if b == [] {
      assert a + b == a;
    } else {
      assert (a + b)[..|a + b| - 1] == a + b[..|b| - 1];
      UpwardConcat(a, b[..|b| - 1]);
    }
  }

  /** Nothing goes up but control messages. */
  ghost predicate NoService(ws: seq<Write>) {
    forall w :: w in ws && w.ToModem? ==> w.qmi.Control?
  }

  lemma {:induction false} NothingUpward(ws: seq<Write>)
    requires NoService(ws)
    ensures Upward(ws) == []
    decreases |ws|
  {
    if ws != [] {
      assert ws[|ws| - 1] in ws && forall w :: w in ws[..|ws| - 1] ==> w in ws;
      NothingUpward(ws[..|ws| - 1]);
    }
  }

  lemma {:induction false} CopiesAre(conns: seq<Conn>, fd: byte, w: Write)
    ensures forall x :: x in Copies(conns, fd, w) ==> x == w
    decreases |conns|
  {
    if conns != [] {
      CopiesAre(conns[..|conns| - 1], fd, w);
    }
  }

  lemma {:induction false} RouteToAre(fd: byte, clients: seq<ClientId>, q: Qmi)
    requires q.Service?
    ensures forall x :: x in RouteTo(fd, clients, q) ==> x == ToClient(fd, q)
    decreases |clients|
  {
    if clients != [] {
      RouteToAre(fd, clients[..|clients| - 1], q);
    }
  }

  lemma {:induction false} RoutesAre(conns: seq<Conn>, q: Qmi)
    requires q.Service?
    ensures forall x :: x in Route(conns, q) ==> x.ToClient? && x.qmi == q && x.fd in Fds(conns)
    decreases |conns|
  {
    if conns != [] {
      var front, last := conns[..|conns| - 1], conns[|conns| - 1];
      assert last in conns && forall c :: c in front ==> c in conns;
      RoutesAre(front, q);
      RouteToAre(last.fd, last.clients, q);
    }
  }

  /** The queue holds control requests only, in any run. */
  ghost predicate ControlQueue(ctl: seq<Queued>) {
    forall m :: m in ctl ==> m.qmi.Control?
  }

  lemma {:induction false} RemovedQueued(ctl: seq<Queued>, fd: byte)
    ensures forall m :: m in RemoveFirstQueued(ctl, fd) ==> m in ctl
  {
    if ctl != [] {
      RemovedQueued(ctl[1..], fd);
      assert forall m :: m in ctl[1..] ==> m in ctl;
    }
  }

  lemma StepControlQueue(w: World, e: Event)
    requires ControlQueue(w.t.ctl)
    ensures ControlQueue(Step(w, e).t.ctl)
  {
    match e
    case Hangup(fd) => RemovedQueued(w.t.ctl, fd);
    case FromModem(q) =>
      if w.t.ctl != [] {
        assert forall m :: m in w.t.ctl[1..] ==> m in w.t.ctl;
      }
    case _ =>
  }

  lemma {:induction false} RunControlQueue(events: seq<Event>)
    ensures ControlQueue(Run(Start(), events).t.ctl)
    decreases |events|
  {
    if events != [] {
      RunControlQueue(events[..|events| - 1]);
      StepControlQueue(Run(Start(), events[..|events| - 1]), events[|events| - 1]);
    }
  }

  /** One event makes the proxy write exactly the service message it brought from a client. */
  lemma StepUpward(t: Tables, e: Event)
    requires ControlQueue(t.ctl)
    ensures Upward(Writes(t, e)) == Brought(e)
  {
    match e
    case FromClient(fd, q) =>
      assert [ToModem(fd, q)][..0] == [];
    case FromModem(q) =>
      if q.Service? {
        RoutesAre(t.conns, q);
      } else {
        HeadIsControl(Answer(t, q));
        if t.ctl != [] {
          CopiesAre(t.conns, t.ctl[0].fd, ToClient(t.ctl[0].fd, q));
        }
      }
      NothingUpward(Writes(t, e));
    case _ =>
  }

  lemma HeadIsControl(t: Tables)
    requires ControlQueue(t.ctl)
    ensures NoService(HeadWrites(t))
  {
    if t.ctl != [] {
      assert t.ctl[0] in t.ctl;
      CopiesAre(t.conns, t.ctl[0].fd, ToModem(t.ctl[0].fd, t.ctl[0].qmi));
    }
  }

  lemma {:induction false} LogUpward(events: seq<Event>)
    ensures Upward(Log(events)) == SentUp(events)
    decreases |events|
  {
    if events != [] {
      var front := events[..|events| - 1];
      LogUpward(front);
      EventUpward(front, events[|events| - 1]);
      UpwardConcat(Log(front), Writes(Run(Start(), front).t, events[|events| - 1]));
    }
  }

  lemma EventUpward(before: seq<Event>, e: Event)
    ensures Upward(Writes(Run(Start(), before).t, e)) == Brought(e)
  {
    RunControlQueue(before);
    StepUpward(Run(Start(), before).t, e);
  }

  /**
   * In every run whatsoever the service messages written to the modem are exactly those the clients
   * sent: unchanged, in order, each on its sender's behalf and as soon as it came.
   */
  lemma ServiceReachesModem(events: seq<Event>)
    ensures Upward(Log(events)) == SentUp(events)
    ensures forall k :: 0 <= k < |events| ==>
              Upward(Writes(Run(Start(), events[..k]).t, events[k])) == Brought(events[k])
  {
    LogUpward(events);
    forall k | 0 <= k < |events| ensures Upward(Writes(Run(Start(), events[..k]).t, events[k])) == Brought(events[k]) {
      EventUpward(events[..k], events[k]);
    }
  }

  /** The control requests and deliveries that the run's history speaks of are those of the log. */
  lemma {:induction false} LogIsTheHistory(events: seq<Event>)
    ensures Requests(Log(events)) == Run(Start(), events).sent
    ensures Deliveries(Log(events)) == Run(Start(), events).delivered
    decreases |events|
  {
    if events != [] {
      var front, e := events[..|events| - 1], events[|events| - 1];
      var w := Run(Start(), front);
      LogIsTheHistory(front);
      WritesConcat(Log(front), Writes(w.t, e));
      StepEmits(w, e);
    }
  }

  lemma StepEmits(w: World, e: Event)
    ensures Step(w, e).sent == w.sent + Requests(Writes(w.t, e))
    ensures Step(w, e).delivered == w.delivered + Deliveries(Writes(w.t, e))
  {
  }

  // ---- Down to the clients ----------------------------------------------------------------------

  /** Which of the ids a client holds a service message is for: all of its type, if it names none. */
  function MeantFor(held: set<ClientId>, q: Qmi): set<ClientId>
    requires q.Service?
  {
    set c | c in held && c.qmiType == q.qmiType && (q.id != 0 ==> c.id == q.id)
  }

  function IdsIn(clients: seq<ClientId>): set<ClientId> { set c | c in clients }

  lemma MeantForMore(held: set<ClientId>, c: ClientId, q: Qmi)
    requires q.Service? && c !in held
    ensures |MeantFor(held + {c}, q)| ==
            |MeantFor(held, q)| + if c.qmiType == q.qmiType && (q.id == 0 || c.id == q.id) then 1 else 0
  {
    var more := if c.qmiType == q.qmiType && (q.id == 0 || c.id == q.id) then {c} else {};
    assert MeantFor(held + {c}, q) == MeantFor(held, q) + more;
  }

  lemma {:induction false} RouteToCounts(fd: byte, clients: seq<ClientId>, q: Qmi)
    requires q.Service? && NoDuplicates(clients)
    ensures multiset(RouteTo(fd, clients, q))[ToClient(fd, q)] == |MeantFor(IdsIn(clients), q)|
    decreases |clients|
  {
    if clients != [] {
      var front, last := clients[..|clients| - 1], clients[|clients| - 1];
      RouteToCounts(fd, front, q);
      LastId(clients);
      MeantForMore(IdsIn(front), last, q);
    }
  }

  lemma LastId(clients: seq<ClientId>)
    requires clients != [] && NoDuplicates(clients)
    ensures var front, last := clients[..|clients| - 1], clients[|clients| - 1];
            NoDuplicates(front) && last !in IdsIn(front) && IdsIn(clients) == IdsIn(front) + {last}
  {
    assert clients == clients[..|clients| - 1] + [clients[|clients| - 1]];
  }

  lemma {:induction false} RouteCounts(conns: seq<Conn>, q: Qmi, k: nat)
    requires q.Service? && k < |conns| && DistinctFds(conns) && NoDuplicates(conns[k].clients)
    ensures multiset(Route(conns, q))[ToClient(conns[k].fd, q)] == |MeantFor(IdsIn(conns[k].clients), q)|
    decreases |conns|
  {
    var front, last := conns[..|conns| - 1], conns[|conns| - 1];
    if k == |conns| - 1 {
      RoutesAre(front, q);
      assert ToClient(last.fd, q) !in Route(front, q) by {
        assert forall c :: c in front ==> c.fd != last.fd;
      }
      RouteToCounts(last.fd, last.clients, q);
    } else {
      RouteCounts(front, q, k);
      RouteToAre(last.fd, last.clients, q);
      assert ToClient(conns[k].fd, q) !in RouteTo(last.fd, last.clients, q);
    }
  }

  /**
   * After every legal run a service message of the modem is written to the clients alone, unchanged,
   * and to each one copy for every id it holds that the message is for; a message that names no id is
   * for every id of its type.
   */
  lemma {:induction false} ServiceReachesClients(w: World, q: Qmi, fd: byte)
    requires Reachable(w) && q.Service?
    ensures var ws := Writes(w.t, FromModem(q));
            && (forall x :: x in ws ==> x.ToClient? && x.qmi == q && x.fd in w.ledger)
            && multiset(ws)[ToClient(fd, q)] == if fd in w.ledger then |MeantFor(w.ledger[fd], q)| else 0
  {
    ClientIdTable(w);
    ReachableInv(w);
    RoutesAre(w.t.conns, q);
    if fd in w.ledger {
      var k :| 0 <= k < |w.t.conns| && w.t.conns[k].fd == fd;
      RouteCounts(w.t.conns, q, k);
      assert IdsIn(w.t.conns[k].clients) == w.ledger[fd];
    }
  }

  /** After every legal run the proxy asks to be started anew exactly by a revocation that answers a request. */
  lemma {:induction false} ResetIff(w: World, q: Qmi)
    requires Reachable(w)
    ensures Resets(w.t, q) <==> q.Control? && q.isResponse && q.body.RevokeClientId? && w.atModem != []
  {
    ReachableInv(w);
    if w.t.ctl != [] {
      assert w.t.ctl[0] in w.t.ctl;
      UsedIff(w.t.conns, w.t.ctl[0].fd);
    }
  }

  lemma {:induction false} UsedIff(conns: seq<Conn>, fd: byte)
    ensures Uses(conns, fd) <==> fd in Fds(conns)
    decreases |conns|
  {
    if conns != [] {
      UsedIff(conns[..|conns| - 1], fd);
      assert conns == conns[..|conns| - 1] + [conns[|conns| - 1]];
    }
  }
}
