/** What the QMI proxy does to its tables, on values, and what that gives over whole runs. */
module ProxySpec {
  import opened Wrappers
  import opened Bytes
  import opened QList

  datatype ClientId = ClientId(qmiType: byte, id: byte)

  /** The parts of a control body the proxy looks at; `ok` is a zero result and a zero error. */
  datatype Body =
    | GetClientId(ok: bool, client: ClientId)
    | ReleaseClientId(ok: bool, client: ClientId)
    | RevokeClientId(ok: bool, client: ClientId)
    | OtherBody

  /** `rest` stands for the bytes the proxy only copies. */
  datatype Qmi =
    | Control(isResponse: bool, body: Body, rest: nat)
    | Service(qmiType: byte, id: byte, rest: nat)

  datatype Conn = Conn(fd: byte, clients: seq<ClientId>)

  datatype Queued = Queued(fd: byte, qmi: Qmi)

  /** A write to the modem remembers on whose behalf it happens; the modem does not see that. */
  datatype Write = ToModem(from: byte, qmi: Qmi) | ToClient(fd: byte, qmi: Qmi)

  datatype Tables = Tables(conns: seq<Conn>, ctl: seq<Queued>)

  // ---- The proxy's operations --------------------------------------------------------------

  function Accept(t: Tables, fd: byte): Tables {
    t.(conns := t.conns + [Conn(fd, [])])
  }

  function RemoveFirstClient(clients: seq<ClientId>, c: ClientId): seq<ClientId> {
    if clients == [] then []
    else if clients[0] == c then clients[1..]
    else [clients[0]] + RemoveFirstClient(clients[1..], c)
  }

  function RemoveFirstQueued(ctl: seq<Queued>, fd: byte): seq<Queued> {
    if ctl == [] then []
    else if ctl[0].fd == fd then ctl[1..]
    else [ctl[0]] + RemoveFirstQueued(ctl[1..], fd)
  }

  function RemoveFirstConn(conns: seq<Conn>, fd: byte): seq<Conn> {
    if conns == [] then []
    else if conns[0].fd == fd then conns[1..]
    else [conns[0]] + RemoveFirstConn(conns[1..], fd)
  }

  function Fds(conns: seq<Conn>): set<byte> {
    set c | c in conns :: c.fd
  }

  function Cleanup(t: Tables, fd: byte): Tables {
    if fd in Fds(t.conns)
    then Tables(RemoveFirstConn(t.conns, fd), RemoveFirstQueued(t.ctl, fd))
    else t
  }

  function Record(c: Conn, body: Body): Conn {
    match body
    case GetClientId(ok, id) => if ok then c.(clients := c.clients + [id]) else c
    case ReleaseClientId(ok, id) => if ok then c.(clients := RemoveFirstClient(c.clients, id)) else c
    case RevokeClientId(ok, id) => if ok then c.(clients := RemoveFirstClient(c.clients, id)) else c
    case OtherBody => c
  }

  function RecordFor(conns: seq<Conn>, fd: byte, body: Body): seq<Conn> {
    seq(|conns|, i requires 0 <= i < |conns| => if conns[i].fd == fd then Record(conns[i], body) else conns[i])
  }

  /** `RecordFor` as far as the first `i` connections. */
  function RecordUpTo(conns: seq<Conn>, i: nat, fd: byte, body: Body): (after: seq<Conn>)
    requires i <= |conns|
    ensures |after| == |conns| && forall j :: i <= j < |conns| ==> after[j] == conns[j]
  {
    if i == 0 then conns
    else
      var before := RecordUpTo(conns, i - 1, fd, body);
      if conns[i - 1].fd == fd then before[i - 1 := Record(conns[i - 1], body)] else before
  }

  /** One copy of `w` for every connection that uses `fd`. */
  function Copies(conns: seq<Conn>, fd: byte, w: Write): seq<Write> {
    if conns == [] then []
    else Copies(conns[..|conns| - 1], fd, w) + (if conns[|conns| - 1].fd == fd then [w] else [])
  }

  predicate Addressed(c: ClientId, q: Qmi)
    requires q.Service?
  {
    q.qmiType == c.qmiType && (q.id == 0 || q.id == c.id)
  }

  function RouteTo(fd: byte, clients: seq<ClientId>, q: Qmi): seq<Write>
    requires q.Service?
  {
    if clients == [] then []
    else RouteTo(fd, clients[..|clients| - 1], q) +
         (if Addressed(clients[|clients| - 1], q) then [ToClient(fd, q)] else [])
  }

  function Route(conns: seq<Conn>, q: Qmi): seq<Write>
    requires q.Service?
  {
    if conns == [] then []
    else Route(conns[..|conns| - 1], q) + RouteTo(conns[|conns| - 1].fd, conns[|conns| - 1].clients, q)
  }

  /** The answer half of a control message: it goes to the queue's head, which is then dropped. */
  function Answer(t: Tables, q: Qmi): Tables
    requires q.Control?
  {
    if q.isResponse && t.ctl != [] then Tables(RecordFor(t.conns, t.ctl[0].fd, q.body), t.ctl[1..]) else t
  }

  function AnswerWrites(t: Tables, q: Qmi): seq<Write>
    requires q.Control?
  {
    if q.isResponse && t.ctl != [] then Copies(t.conns, t.ctl[0].fd, ToClient(t.ctl[0].fd, q)) else []
  }

  /** The other half: whatever heads the queue now is written to the modem. */
  function HeadWrites(t: Tables): seq<Write> {
    if t.ctl != [] then Copies(t.conns, t.ctl[0].fd, ToModem(t.ctl[0].fd, t.ctl[0].qmi)) else []
  }

  function Recv(t: Tables, q: Qmi): Tables {
    if q.Control? then Answer(t, q) else t
  }

  function RecvWrites(t: Tables, q: Qmi): seq<Write> {
    if q.Control? then AnswerWrites(t, q) + HeadWrites(Answer(t, q)) else Route(t.conns, q)
  }

  predicate Resets(t: Tables, q: Qmi) {
    q.Control? && q.isResponse && t.ctl != [] && q.body.RevokeClientId? && Uses(t.conns, t.ctl[0].fd)
  }

  predicate Uses(conns: seq<Conn>, fd: byte) {
    conns != [] && (Uses(conns[..|conns| - 1], fd) || conns[|conns| - 1].fd == fd)
  }

  function Send(t: Tables, q: Qmi, fd: byte): Tables {
    if q.Control? then t.(ctl := t.ctl + [Queued(fd, q)]) else t
  }

  function SendWrites(t: Tables, q: Qmi, fd: byte): seq<Write> {
    if q.Control? && t.ctl != [] then [] else [ToModem(fd, q)]
  }

  // ---- Runs --------------------------------------------------------------------------------

  datatype Event =
    | Connect(fd: byte)
    | Hangup(fd: byte)
    | FromClient(fd: byte, qmi: Qmi)
    | FromModem(qmi: Qmi)

  /**
   * The proxy, the control requests outstanding at the modem, and the history of the run. `kept` is
   * `arrived` without the requests that were unanswered when their client hung up. `ledger` is kept from
   * the requests and answers alone: who was granted which ids and still has them.
   */
  datatype World = World(
    t: Tables,
    atModem: seq<Queued>,
    arrived: seq<Queued>,
    kept: seq<Queued>,
    sent: seq<Queued>,
    answers: seq<Qmi>,
    delivered: seq<Queued>,
    ledger: map<byte, set<ClientId>>)

  function Start(): World {
    World(Tables([], []), [], [], [], [], [], [], map[])
  }

  /** The control requests among `ws`. */
  function Requests(ws: seq<Write>): seq<Queued> {
    if ws == [] then []
    else Requests(ws[..|ws| - 1]) +
         (var w := ws[|ws| - 1]; if w.ToModem? && w.qmi.Control? then [Queued(w.from, w.qmi)] else [])
  }

  /** The control messages handed to clients among `ws`. */
  function Deliveries(ws: seq<Write>): seq<Queued> {
    if ws == [] then []
    else Deliveries(ws[..|ws| - 1]) +
         (var w := ws[|ws| - 1]; if w.ToClient? && w.qmi.Control? then [Queued(w.fd, w.qmi)] else [])
  }

  function Emit(w: World, ws: seq<Write>): World {
    w.(atModem := w.atModem + Requests(ws), sent := w.sent + Requests(ws), delivered := w.delivered + Deliveries(ws))
  }

  function Granted(ledger: map<byte, set<ClientId>>, fd: byte, body: Body): map<byte, set<ClientId>>
    requires fd in ledger
  {
    match body
    case GetClientId(ok, id) => if ok then ledger[fd := ledger[fd] + {id}] else ledger
    case ReleaseClientId(ok, id) => if ok then ledger[fd := ledger[fd] - {id}] else ledger
    case RevokeClientId(ok, id) => if ok then ledger[fd := ledger[fd] - {id}] else ledger
    case OtherBody => ledger
  }

  /**
   * What the environment does in the runs considered: distinct descriptors, a modem that answers
   * requests in the order it got them, never grants an id that is still held, and is not reset; and of
   * the two events that can break the queue, exactly those that do not: a client hangs up with at most
   * one request queued that is not the head, and control indications come only to an empty queue.
   */
  ghost predicate Allowed(w: World, e: Event) {
    match e
    case Connect(fd) => fd !in Fds(w.t.conns)
    case Hangup(fd) => fd in Fds(w.t.conns) && HarmlessHangup(w.t.ctl, fd)
    case FromClient(fd, q) => fd in Fds(w.t.conns)
    case FromModem(q) =>
      q.Control? ==>
        if q.isResponse then w.atModem != [] && !q.body.RevokeClientId? && Ungranted(w.ledger, q.body)
        else w.t.ctl == []
  }

  predicate HarmlessHangup(ctl: seq<Queued>, fd: byte) {
    CountFor(ctl, fd) <= 1 && (ctl == [] || ctl[0].fd != fd)
  }

  function CountFor(ctl: seq<Queued>, fd: byte): nat {
    if ctl == [] then 0 else (if ctl[0].fd == fd then 1 else 0) + CountFor(ctl[1..], fd)
  }

  /** The messages of all other clients. */
  function Others(ms: seq<Queued>, fd: byte): seq<Queued> {
    if ms == [] then []
    else Others(ms[..|ms| - 1], fd) + if ms[|ms| - 1].fd == fd then [] else [ms[|ms| - 1]]
  }

  /** What is kept of the arrivals when a client hangs up after `n` answers: its unanswered requests are not. */
  function KeptAfterHangup(kept: seq<Queued>, n: nat, fd: byte): seq<Queued> {
    if n <= |kept| then kept[..n] + Others(kept[n..], fd) else kept
  }

  /** `a` is `b` with some elements left out. */
  predicate Within(a: seq<Queued>, b: seq<Queued>)
    decreases |b|
  {
    a == [] ||
    (b != [] &&
     ((a[|a| - 1] == b[|b| - 1] && Within(a[..|a| - 1], b[..|b| - 1])) || Within(a, b[..|b| - 1])))
  }

  /** The modem's oldest request is answered: the tables and the ledger change, nothing is written yet. */
  function TakeAnswer(w: World, q: Qmi): World
    requires q.Control? && w.atModem != []
  {
    var from := w.atModem[0].fd;
    w.(t := Recv(w.t, q), atModem := w.atModem[1..], answers := w.answers + [q],
       ledger := if from in w.ledger then Granted(w.ledger, from, q.body) else w.ledger)
  }

  /** What the proxy writes when the event finds it with these tables. */
  function Writes(t: Tables, e: Event): seq<Write> {
    match e
    case FromClient(fd, q) => SendWrites(t, q, fd)
    case FromModem(q) => RecvWrites(t, q)
    case _ => []
  }

  function Step(w: World, e: Event): World {
    match e
    case Connect(fd) => w.(t := Accept(w.t, fd), ledger := w.ledger[fd := {}])
    case Hangup(fd) =>
      w.(t := Cleanup(w.t, fd), ledger := w.ledger - {fd}, kept := KeptAfterHangup(w.kept, |w.answers|, fd))
    case FromClient(fd, q) =>
      var request := if q.Control? then [Queued(fd, q)] else [];
      Emit(w.(t := Send(w.t, q, fd), arrived := w.arrived + request, kept := w.kept + request), Writes(w.t, e))
    case FromModem(q) =>
      if q.Control? && q.isResponse && w.atModem != [] then
        Emit(TakeAnswer(w, q), Writes(w.t, e))
      else Emit(w.(t := Recv(w.t, q)), Writes(w.t, e))
  }

  ghost predicate Legal(w: World, events: seq<Event>) {
    events != [] ==> Legal(w, events[..|events| - 1]) && Allowed(Run(w, events[..|events| - 1]), events[|events| - 1])
  }

  function Run(w: World, events: seq<Event>): World {
    if events == [] then w else Step(Run(w, events[..|events| - 1]), events[|events| - 1])
  }

  ghost predicate DistinctFds(conns: seq<Conn>) {
    forall i, j :: 0 <= i < j < |conns| ==> conns[i].fd != conns[j].fd
  }

  /** Only the head of the queue is out at the modem, and every queued request has a live client. */
  ghost predicate QueueInv(fds: set<byte>, ctl: seq<Queued>, atModem: seq<Queued>) {
    && atModem == (if ctl == [] then [] else [ctl[0]])
    && forall m :: m in ctl ==> m.fd in fds
  }

  /** Requests reach the modem, and answers reach the clients, in the order the requests arrived. */
  ghost predicate HistoryInv(ctl: seq<Queued>, pending: nat, arrived: seq<Queued>, sent: seq<Queued>,
                             answers: seq<Qmi>, delivered: seq<Queued>)
  {
    && |answers| + pending <= |arrived|
    && ctl == arrived[|answers|..]
    && sent == arrived[..|answers| + pending]
    && delivered == Matched(arrived, answers)
    && OnlyRequests(arrived)
  }

  ghost predicate OnlyRequests(arrived: seq<Queued>) {
    forall m :: m in arrived ==> m.qmi.Control?
  }

  /** The j-th answer, addressed to the client whose request was the j-th to arrive. */
  function Matched(arrived: seq<Queued>, answers: seq<Qmi>): seq<Queued>
    requires |answers| <= |arrived|
  {
    seq(|answers|, j requires 0 <= j < |answers| => Queued(arrived[j].fd, answers[j]))
  }

  ghost predicate LedgerInv(conns: seq<Conn>, ledger: map<byte, set<ClientId>>) {
    && ledger.Keys == Fds(conns)
    && (forall i :: 0 <= i < |conns| ==> Recorded(conns[i], ledger))
    && Apart(ledger)
  }

  ghost predicate Recorded(c: Conn, ledger: map<byte, set<ClientId>>) {
    c.fd in ledger && Agrees(c.clients, ledger[c.fd])
  }

  ghost predicate Apart(ledger: map<byte, set<ClientId>>) {
    forall f, g :: f in ledger && g in ledger && f != g ==> ledger[f] !! ledger[g]
  }

  ghost predicate Ungranted(ledger: map<byte, set<ClientId>>, body: Body) {
    body.GetClientId? && body.ok ==> forall fd :: fd in ledger ==> body.client !in ledger[fd]
  }

  ghost predicate Agrees(clients: seq<ClientId>, held: set<ClientId>) {
    NoDuplicates(clients) && forall id :: id in clients <==> id in held
  }

  ghost predicate Inv(w: World) {
    && DistinctFds(w.t.conns)
    && QueueInv(Fds(w.t.conns), w.t.ctl, w.atModem)
    && HistoryInv(w.t.ctl, |w.atModem|, w.kept, w.sent, w.answers, w.delivered)
    && Within(w.kept, w.arrived)
    && LedgerInv(w.t.conns, w.ledger)
  }

  // ---- Small facts about the operations ----------------------------------------------------

  lemma {:induction false} CopiesOfDistinct(conns: seq<Conn>, fd: byte, w: Write)
    requires DistinctFds(conns)
    ensures Copies(conns, fd, w) == if fd in Fds(conns) then [w] else []
    decreases |conns|
  {
    if conns != [] {
      var front, last := conns[..|conns| - 1], conns[|conns| - 1];
      CopiesOfDistinct(front, fd, w);
      assert conns == front + [last];
      assert Fds(conns) == Fds(front) + {last.fd};
    }
  }

  lemma CopiesOneMore(conns: seq<Conn>, i: nat, fd: byte, w: Write)
    requires i < |conns|
    ensures Copies(conns[..i + 1], fd, w) == Copies(conns[..i], fd, w) + (if conns[i].fd == fd then [w] else [])
    ensures Uses(conns[..i + 1], fd) == (Uses(conns[..i], fd) || conns[i].fd == fd)
  {
    assert conns[..i + 1][..i] == conns[..i];
  }

  lemma RouteOneMore(conns: seq<Conn>, i: nat, q: Qmi)
    requires i < |conns| && q.Service?
    ensures Route(conns[..i + 1], q) == Route(conns[..i], q) + RouteTo(conns[i].fd, conns[i].clients, q)
  {
    assert conns[..i + 1][..i] == conns[..i];
  }

  lemma {:induction false} RecordUpToIsRecordFor(conns: seq<Conn>, i: nat, fd: byte, body: Body)
    requires i <= |conns|
    ensures RecordUpTo(conns, i, fd, body) == RecordFor(conns[..i], fd, body) + conns[i..]
  {
    if i > 0 {
      RecordUpToIsRecordFor(conns, i - 1, fd, body);
    }
  }

  lemma RecordForKeepsFds(conns: seq<Conn>, fd: byte, body: Body)
    ensures DistinctFds(conns) ==> DistinctFds(RecordFor(conns, fd, body))
    ensures Fds(RecordFor(conns, fd, body)) == Fds(conns)
  {
    var after := RecordFor(conns, fd, body);
    forall f ensures f in Fds(after) <==> f in Fds(conns) {
      if f in Fds(conns) {
        var i :| 0 <= i < |conns| && conns[i].fd == f;
        assert after[i] in after && after[i].fd == f;
      }
      if f in Fds(after) {
        var i :| 0 <= i < |after| && after[i].fd == f;
        assert conns[i] in conns && conns[i].fd == f;
      }
    }
  }

  lemma {:induction false} RemoveFirstConnDistinct(conns: seq<Conn>, fd: byte)
    requires DistinctFds(conns)
    ensures DistinctFds(RemoveFirstConn(conns, fd))
    ensures forall c :: c in RemoveFirstConn(conns, fd) <==> c in conns && c.fd != fd
  {
    if conns != [] {
      var first, rest := conns[0], conns[1..];
      assert forall i :: 0 <= i < |rest| ==> rest[i] == conns[i + 1];
      assert forall c :: c in rest ==> c.fd != first.fd;
      RemoveFirstConnDistinct(rest, fd);
      assert forall c :: c in conns <==> c == first || c in rest by {
        assert conns == [first] + rest;
      }
      if first.fd != fd {
        PrependDistinct(first, RemoveFirstConn(rest, fd));
      }
    }
  }

  lemma PrependDistinct(first: Conn, rest: seq<Conn>)
    requires DistinctFds(rest) && forall c :: c in rest ==> c.fd != first.fd
    ensures DistinctFds([first] + rest)
  {
  }

  lemma {:induction false} RemoveFirstQueuedSame(ctl: seq<Queued>, fd: byte)
    requires forall m :: m in ctl ==> m.fd != fd
    ensures RemoveFirstQueued(ctl, fd) == ctl
  {
    if ctl != [] {
      assert ctl == [ctl[0]] + ctl[1..];
      RemoveFirstQueuedSame(ctl[1..], fd);
    }
  }

  lemma {:induction false} RemoveFirstClientDistinct(clients: seq<ClientId>, held: set<ClientId>, c: ClientId)
    requires Agrees(clients, held)
    ensures Agrees(RemoveFirstClient(clients, c), held - {c})
  {
    if clients != [] {
      var rest := clients[1..];
      assert clients == [clients[0]] + rest;
      assert forall i :: 0 <= i < |rest| ==> rest[i] == clients[i + 1];
      assert Agrees(rest, held - {clients[0]});
      RemoveFirstClientDistinct(rest, held - {clients[0]}, c);
      if clients[0] != c {
        assert clients[0] !in RemoveFirstClient(rest, c);
      }
    }
  }

  lemma RequestsOfOne(w: Write)
    ensures Requests([w]) == if w.ToModem? && w.qmi.Control? then [Queued(w.from, w.qmi)] else []
    ensures Deliveries([w]) == if w.ToClient? && w.qmi.Control? then [Queued(w.fd, w.qmi)] else []
  {
    assert [w][..0] == [];
  }

  lemma {:induction false} WritesConcat(a: seq<Write>, b: seq<Write>)
    ensures Requests(a + b) == Requests(a) + Requests(b)
    ensures Deliveries(a + b) == Deliveries(a) + Deliveries(b)
    decreases |b|
  {
    if b == [] {
      assert a + b == a;
    } else {
      assert (a + b)[..|a + b| - 1] == a + b[..|b| - 1];
      WritesConcat(a, b[..|b| - 1]);
    }
  }

  lemma {:induction false} RouteHasNoControl(conns: seq<Conn>, q: Qmi)
    requires q.Service?
    ensures Requests(Route(conns, q)) == [] && Deliveries(Route(conns, q)) == []
    decreases |conns|
  {
    if conns != [] {
      RouteHasNoControl(conns[..|conns| - 1], q);
      RouteToHasNoControl(conns[|conns| - 1].fd, conns[|conns| - 1].clients, q);
      WritesConcat(Route(conns[..|conns| - 1], q), RouteTo(conns[|conns| - 1].fd, conns[|conns| - 1].clients, q));
    }
  }

  lemma {:induction false} RouteToHasNoControl(fd: byte, clients: seq<ClientId>, q: Qmi)
    requires q.Service?
    ensures Requests(RouteTo(fd, clients, q)) == [] && Deliveries(RouteTo(fd, clients, q)) == []
    decreases |clients|
  {
    if clients != [] {
      RouteToHasNoControl(fd, clients[..|clients| - 1], q);
      WritesConcat(RouteTo(fd, clients[..|clients| - 1], q), [ToClient(fd, q)]);
      RequestsOfOne(ToClient(fd, q));
      assert RouteTo(fd, clients[..|clients| - 1], q) + [] == RouteTo(fd, clients[..|clients| - 1], q);
    }
  }

  // ---- One step ----------------------------------------------------------------------------

  lemma ConnectKeepsTable(conns: seq<Conn>, fd: byte, ledger: map<byte, set<ClientId>>)
    requires DistinctFds(conns) && LedgerInv(conns, ledger) && fd !in Fds(conns)
    ensures var after := conns + [Conn(fd, [])];
            DistinctFds(after) && Fds(after) == Fds(conns) + {fd} && LedgerInv(after, ledger[fd := {}])
  {
    var after := conns + [Conn(fd, [])];
    assert Fds(after) == Fds(conns) + {fd} by {
      assert Conn(fd, []) in after;
    }
    forall i | 0 <= i < |conns| ensures conns[i].fd != fd && Recorded(conns[i], ledger) {
      assert conns[i] in conns;
    }
  }

  lemma ConnectKeepsInv(w: World, fd: byte)
    requires Inv(w) && Allowed(w, Connect(fd))
    ensures Inv(Step(w, Connect(fd)))
  {
    ConnectKeepsTable(w.t.conns, fd, w.ledger);
  }

  lemma {:induction false} OthersCons(x: Queued, rest: seq<Queued>, fd: byte)
    ensures Others([x] + rest, fd) == (if x.fd == fd then [] else [x]) + Others(rest, fd)
    decreases |rest|
  {
    var ms := [x] + rest;
    if rest == [] {
      assert ms[..0] == [] && ms == [x];
    } else {
      assert ms[..|ms| - 1] == [x] + rest[..|rest| - 1];
      OthersCons(x, rest[..|rest| - 1], fd);
    }
  }

  /** Of a client with at most one message queued, cleanup drops all. */
  lemma {:induction false} RemoveFirstIsOthers(ctl: seq<Queued>, fd: byte)
    requires CountFor(ctl, fd) <= 1
    ensures RemoveFirstQueued(ctl, fd) == Others(ctl, fd)
  {
    if ctl != [] {
      assert ctl == [ctl[0]] + ctl[1..];
      OthersCons(ctl[0], ctl[1..], fd);
      RemoveFirstIsOthers(ctl[1..], fd);
      if ctl[0].fd == fd {
        CountZero(ctl[1..], fd);
        RemoveFirstQueuedSame(ctl[1..], fd);
      }
    }
  }

  lemma {:induction false} WithinSelf(a: seq<Queued>)
    ensures Within(a, a)
  {
    if a != [] {
      WithinSelf(a[..|a| - 1]);
    }
  }

  lemma {:induction false} WithinTransitive(a: seq<Queued>, b: seq<Queued>, c: seq<Queued>)
    requires Within(a, b) && Within(b, c)
    ensures Within(a, c)
    decreases |c|
  {
    if a != [] && b != [] {
      var c' := c[..|c| - 1];
      if Within(b, c') {
        WithinTransitive(a, b, c');
      } else if Within(a, b[..|b| - 1]) {
        WithinTransitive(a, b[..|b| - 1], c');
      } else {
        WithinTransitive(a[..|a| - 1], b[..|b| - 1], c');
      }
    }
  }

  lemma {:induction false} OthersWithin(a: seq<Queued>, b: seq<Queued>, fd: byte)
    ensures Within(a + Others(b, fd), a + b)
    decreases |b|
  {
    if b == [] {
      WithinSelf(a + b);
    } else {
      var front, last := b[..|b| - 1], b[|b| - 1];
      OthersWithin(a, front, fd);
      assert (a + b)[..|a + b| - 1] == a + front;
      if last.fd == fd {
        assert a + Others(b, fd) == a + Others(front, fd);
      } else {
        var kept := a + Others(b, fd);
        assert kept[..|kept| - 1] == a + Others(front, fd);
      }
    }
  }

  lemma WithinAppend(a: seq<Queued>, b: seq<Queued>, m: Queued)
    requires Within(a, b)
    ensures Within(a + [m], b + [m])
  {
    assert (a + [m])[..|a + [m]| - 1] == a && (b + [m])[..|b + [m]| - 1] == b;
  }

  /** A harmless hang-up leaves the history of what is kept as it was, but for what the client had queued. */
  lemma HangupKeepsHistory(fd: byte, ctl: seq<Queued>, kept: seq<Queued>, sent: seq<Queued>,
                           answers: seq<Qmi>, delivered: seq<Queued>)
    requires HarmlessHangup(ctl, fd)
    requires HistoryInv(ctl, if ctl == [] then 0 else 1, kept, sent, answers, delivered)
    ensures var after := KeptAfterHangup(kept, |answers|, fd);
            && RemoveFirstQueued(ctl, fd) == Others(ctl, fd)
            && (ctl == [] <==> Others(ctl, fd) == []) && (ctl != [] ==> Others(ctl, fd)[0] == ctl[0])
            && HistoryInv(Others(ctl, fd), if ctl == [] then 0 else 1, after, sent, answers, delivered)
            && Within(after, kept)
  {
    var n := |answers|;
    RemoveFirstIsOthers(ctl, fd);
    OthersWithin(kept[..n], ctl, fd);
    assert kept == kept[..n] + ctl;
    var after := KeptAfterHangup(kept, n, fd);
    if ctl != [] {
      assert ctl == [ctl[0]] + ctl[1..];
      OthersCons(ctl[0], ctl[1..], fd);
      assert sent == kept[..n] + [ctl[0]] == after[..n + 1];
    } else {
      assert after == kept;
    }
    assert Matched(after, answers) == Matched(kept, answers);
    WithinKeepsRequests(after, kept);
  }

  lemma {:induction false} WithinKeepsRequests(a: seq<Queued>, b: seq<Queued>)
    requires Within(a, b) && OnlyRequests(b)
    ensures OnlyRequests(a)
    decreases |b|
  {
    if a != [] {
      var front := b[..|b| - 1];
      assert OnlyRequests(front) by {
        assert forall m :: m in front ==> m in b;
      }
      if Within(a, front) {
        WithinKeepsRequests(a, front);
      } else {
        WithinKeepsRequests(a[..|a| - 1], front);
        assert a == a[..|a| - 1] + [a[|a| - 1]] && b[|b| - 1] in b;
      }
    }
  }

  lemma HangupKeepsInv(w: World, fd: byte)
    requires Inv(w) && Allowed(w, Hangup(fd))
    ensures Inv(Step(w, Hangup(fd)))
  {
    RemoveFirstConnDistinct(w.t.conns, fd);
    HangupKeepsQueueIff(w.t, w.atModem, fd);
    HangupKeepsHistory(fd, w.t.ctl, w.kept, w.sent, w.answers, w.delivered);
    WithinTransitive(KeptAfterHangup(w.kept, |w.answers|, fd), w.kept, w.arrived);
    HangupKeepsLedger(w.t.conns, w.ledger, fd);
  }

  lemma HangupKeepsLedger(conns: seq<Conn>, ledger: map<byte, set<ClientId>>, fd: byte)
    requires DistinctFds(conns) && LedgerInv(conns, ledger)
    ensures LedgerInv(RemoveFirstConn(conns, fd), ledger - {fd})
  {
    var after := RemoveFirstConn(conns, fd);
    RemoveFirstConnDistinct(conns, fd);
    assert Fds(after) == Fds(conns) - {fd};
    forall i | 0 <= i < |after| ensures Recorded(after[i], ledger) && after[i].fd != fd {
      assert after[i] in conns;
    }
  }

  lemma MatchedIgnoresNewArrivals(arrived: seq<Queued>, m: Queued, answers: seq<Qmi>)
    requires |answers| <= |arrived|
    ensures Matched(arrived + [m], answers) == Matched(arrived, answers)
  {
  }

  lemma ArrivalKeepsHistory(m: Queued, ctl: seq<Queued>, arrived: seq<Queued>, sent: seq<Queued>,
                            answers: seq<Qmi>, delivered: seq<Queued>)
    requires m.qmi.Control?
    requires HistoryInv(ctl, if ctl == [] then 0 else 1, arrived, sent, answers, delivered)
    ensures HistoryInv(ctl + [m], 1, arrived + [m], if ctl == [] then sent + [m] else sent, answers, delivered)
  {
    MatchedIgnoresNewArrivals(arrived, m, answers);
    var n := |answers|;
    assert (arrived + [m])[n..] == arrived[n..] + [m];
    if ctl == [] {
      assert n == |arrived|;
    }
  }

  /** The world after a client's message, spelled out. */
  lemma ClientStep(w: World, fd: byte, q: Qmi)
    ensures var after := Step(w, FromClient(fd, q));
            var m := Queued(fd, q);
            && after.t.conns == w.t.conns && after.ledger == w.ledger
            && after.answers == w.answers && after.delivered == w.delivered
            && (q.Service? ==> after == w)
            && (q.Control? ==>
                  && after.t.ctl == w.t.ctl + [m] && after.arrived == w.arrived + [m] && after.kept == w.kept + [m]
                  && after.sent == (if w.t.ctl == [] then w.sent + [m] else w.sent)
                  && after.atModem == if w.t.ctl == [] then w.atModem + [m] else w.atModem)
  {
    RequestsOfOne(ToModem(fd, q));
    var ws := SendWrites(w.t, q, fd);
    assert Requests(ws) == (if q.Control? && w.t.ctl == [] then [Queued(fd, q)] else []) && Deliveries(ws) == [];
  }

  lemma ClientKeepsInv(w: World, fd: byte, q: Qmi)
    requires Inv(w) && Allowed(w, FromClient(fd, q))
    ensures Inv(Step(w, FromClient(fd, q)))
  {
    ClientStep(w, fd, q);
    if q.Control? {
      ArrivalKeepsHistory(Queued(fd, q), w.t.ctl, w.kept, w.sent, w.answers, w.delivered);
      WithinAppend(w.kept, w.arrived, Queued(fd, q));
    }
  }

  lemma GrantKeepsApart(ledger: map<byte, set<ClientId>>, from: byte, body: Body)
    requires from in ledger && Apart(ledger) && Ungranted(ledger, body)
    ensures Apart(Granted(ledger, from, body)) && Granted(ledger, from, body).Keys == ledger.Keys
  {
    var after := Granted(ledger, from, body);
    forall f, g | f in after && g in after && f != g ensures after[f] !! after[g] {
      assert ledger[f] !! ledger[g];
    }
  }

  lemma RecordAgrees(c: Conn, ledger: map<byte, set<ClientId>>, body: Body)
    requires Recorded(c, ledger) && Ungranted(ledger, body)
    ensures Recorded(Record(c, body), Granted(ledger, c.fd, body))
  {
    if !body.OtherBody? && !body.GetClientId? {
      RemoveFirstClientDistinct(c.clients, ledger[c.fd], body.client);
    }
  }

  /** The granted or released id lands with the client that asked, and only there. */
  lemma AnswerKeepsLedger(conns: seq<Conn>, ledger: map<byte, set<ClientId>>, from: byte, body: Body)
    requires LedgerInv(conns, ledger) && from in ledger && Ungranted(ledger, body)
    ensures LedgerInv(RecordFor(conns, from, body), Granted(ledger, from, body))
  {
    RecordForKeepsFds(conns, from, body);
    GrantKeepsApart(ledger, from, body);
    forall i | 0 <= i < |conns| ensures Recorded(RecordFor(conns, from, body)[i], Granted(ledger, from, body)) {
      assert Recorded(conns[i], ledger);
      if conns[i].fd == from {
        RecordAgrees(conns[i], ledger, body);
      } else {
        assert Granted(ledger, from, body)[conns[i].fd] == ledger[conns[i].fd];
      }
    }
  }

  lemma AnswerKeepsHistory(q: Qmi, ctl: seq<Queued>, arrived: seq<Queued>, sent: seq<Queued>,
                           answers: seq<Qmi>, delivered: seq<Queued>)
    requires ctl != [] && HistoryInv(ctl, 1, arrived, sent, answers, delivered)
    ensures var rest := ctl[1..];
            HistoryInv(rest, if rest == [] then 0 else 1, arrived, if rest == [] then sent else sent + [rest[0]],
                       answers + [q], delivered + [Queued(ctl[0].fd, q)])
  {
    var n := |answers|;
    assert ctl[0] == arrived[n] && ctl[1..] == arrived[n + 1..];
    assert Matched(arrived, answers + [q]) == Matched(arrived, answers) + [Queued(arrived[n].fd, q)];
    if ctl[1..] != [] {
      assert ctl[1] == arrived[n + 1];
    }
  }

  /** The queue's head goes to the modem if its client is still there. */
  lemma HeadWritten(t: Tables)
    requires DistinctFds(t.conns) && forall m :: m in t.ctl ==> m.qmi.Control?
    ensures Requests(HeadWrites(t)) == if t.ctl != [] && t.ctl[0].fd in Fds(t.conns) then [t.ctl[0]] else []
    ensures Deliveries(HeadWrites(t)) == []
  {
    if t.ctl != [] {
      var head := t.ctl[0];
      assert head in t.ctl;
      CopiesOfDistinct(t.conns, head.fd, ToModem(head.fd, head.qmi));
      RequestsOfOne(ToModem(head.fd, head.qmi));
    }
  }

  /** What an answer makes the proxy write: the answer to the head's client, then the next request. */
  lemma AnswerEmits(t: Tables, q: Qmi)
    requires DistinctFds(t.conns) && (forall m :: m in t.ctl ==> m.qmi.Control?)
    requires q.Control? && q.isResponse && t.ctl != [] && t.ctl[0].fd in Fds(t.conns)
    ensures Recv(t, q).ctl == t.ctl[1..] && DistinctFds(Recv(t, q).conns) && Fds(Recv(t, q).conns) == Fds(t.conns)
    ensures Deliveries(RecvWrites(t, q)) == [Queued(t.ctl[0].fd, q)]
    ensures Requests(RecvWrites(t, q)) == if |t.ctl| > 1 && t.ctl[1].fd in Fds(t.conns) then [t.ctl[1]] else []
  {
    var head, mid := t.ctl[0], Answer(t, q);
    RecordForKeepsFds(t.conns, head.fd, q.body);
    CopiesOfDistinct(t.conns, head.fd, ToClient(head.fd, q));
    RequestsOfOne(ToClient(head.fd, q));
    WritesConcat([ToClient(head.fd, q)], HeadWrites(mid));
    HeadWritten(mid);
  }

  /** The world after an answer, spelled out. */
  lemma AnswerStep(w: World, q: Qmi)
    requires DistinctFds(w.t.conns) && (forall m :: m in w.t.ctl ==> m.fd in Fds(w.t.conns) && m.qmi.Control?)
    requires q.Control? && q.isResponse && w.t.ctl != [] && w.atModem == [w.t.ctl[0]]
    requires w.t.ctl[0].fd in w.ledger
    ensures var head, rest := w.t.ctl[0], w.t.ctl[1..];
            var next := if rest == [] then [] else [rest[0]];
            Step(w, FromModem(q)) == World(
              Tables(RecordFor(w.t.conns, head.fd, q.body), rest), next, w.arrived, w.kept, w.sent + next,
              w.answers + [q], w.delivered + [Queued(head.fd, q)], Granted(w.ledger, head.fd, q.body))
  {
    var rest := w.t.ctl[1..];
    var next := if rest == [] then [] else [rest[0]];
    assert w.t.ctl[0] in w.t.ctl && (rest != [] ==> rest[0] in w.t.ctl);
    AnswerEmits(w.t, q);
    AnswerTaken(w, q);
    EmitOf(TakeAnswer(w, q), RecvWrites(w.t, q), next, [Queued(w.t.ctl[0].fd, q)]);
  }

  lemma AnswerTaken(w: World, q: Qmi)
    requires q.Control? && q.isResponse && w.t.ctl != [] && w.atModem == [w.t.ctl[0]] && w.t.ctl[0].fd in w.ledger
    ensures Step(w, FromModem(q)) == Emit(TakeAnswer(w, q), RecvWrites(w.t, q))
    ensures TakeAnswer(w, q) == World(
              Tables(RecordFor(w.t.conns, w.t.ctl[0].fd, q.body), w.t.ctl[1..]), [], w.arrived, w.kept, w.sent,
              w.answers + [q], w.delivered, Granted(w.ledger, w.t.ctl[0].fd, q.body))
  {
  }

  lemma EmitOf(w: World, ws: seq<Write>, requests: seq<Queued>, deliveries: seq<Queued>)
    requires Requests(ws) == requests && Deliveries(ws) == deliveries && w.atModem == []
    ensures Emit(w, ws) == w.(atModem := requests, sent := w.sent + requests, delivered := w.delivered + deliveries)
  {
    assert [] + requests == requests;
  }

  lemma AnswerKeepsInv(w: World, q: Qmi)
    requires Inv(w) && Allowed(w, FromModem(q)) && q.Control? && q.isResponse
    ensures Inv(Step(w, FromModem(q)))
  {
    var head, rest := w.t.ctl[0], w.t.ctl[1..];
    var fds := Fds(w.t.conns);
    assert head in w.t.ctl && head.fd in w.ledger;
    forall m | m in w.t.ctl ensures m.fd in fds && m.qmi.Control? {
      assert m in w.kept;
    }
    AnswerStep(w, q);
    RecordForKeepsFds(w.t.conns, head.fd, q.body);
    AnswerKeepsHistory(q, w.t.ctl, w.kept, w.sent, w.answers, w.delivered);
    AnswerKeepsLedger(w.t.conns, w.ledger, head.fd, q.body);
    assert QueueInv(fds, rest, if rest == [] then [] else [rest[0]]) by {
      assert forall m :: m in rest ==> m in w.t.ctl;
    }
  }

  lemma IdleIndicationChangesNothing(w: World, q: Qmi)
    requires q.Control? && !q.isResponse && w.t.ctl == []
    ensures Step(w, FromModem(q)) == w
  {
    assert w.atModem + [] == w.atModem && w.sent + [] == w.sent && w.delivered + [] == w.delivered;
  }

  lemma ServiceChangesNothing(w: World, q: Qmi)
    requires q.Service?
    ensures Step(w, FromModem(q)) == w
  {
    RouteHasNoControl(w.t.conns, q);
    assert w.atModem + [] == w.atModem && w.sent + [] == w.sent && w.delivered + [] == w.delivered;
  }

  lemma StepKeepsInv(w: World, e: Event)
    requires Inv(w) && Allowed(w, e)
    ensures Inv(Step(w, e))
  {
    match e
    case Connect(fd) => ConnectKeepsInv(w, fd);
    case Hangup(fd) => HangupKeepsInv(w, fd);
    case FromClient(fd, q) => ClientKeepsInv(w, fd, q);
    case FromModem(q) =>
      if q.Service? {
        ServiceChangesNothing(w, q);
      } else if q.isResponse {
        AnswerKeepsInv(w, q);
      } else {
        IdleIndicationChangesNothing(w, q);
      }
  }

  lemma {:induction false} RunKeepsInv(events: seq<Event>)
    requires Legal(Start(), events)
    ensures Inv(Run(Start(), events))
    decreases |events|
  {
    if events != [] {
      RunKeepsInv(events[..|events| - 1]);
      StepKeepsInv(Run(Start(), events[..|events| - 1]), events[|events| - 1]);
    }
  }

  // ---- Main results ------------------------------------------------------------------------

  /** The proxy's world after some legal run. */
  ghost predicate Reachable(w: World) {
    exists events :: Legal(Start(), events) && w == Run(Start(), events)
  }

  lemma ReachableInv(w: World)
    requires Reachable(w)
    ensures Inv(w)
  {
    var events :| Legal(Start(), events) && w == Run(Start(), events);
    RunKeepsInv(events);
  }

  /**
   * Control multiplexing: after every legal run at most one request is out at the modem, it is the head
   * of the queue and there is one exactly when the queue is not empty; the requests kept, which are the
   * arrivals but for what clients that hung up had unanswered, have reached the modem in arrival order;
   * and the j-th answer went to the client of the j-th of them, once, and to nobody else.
   */
  lemma {:induction false} ControlMultiplexing(w: World)
    requires Reachable(w)
    ensures w.atModem == (if w.t.ctl == [] then [] else [w.t.ctl[0]])
    ensures Within(w.kept, w.arrived) && w.sent <= w.kept
    ensures |w.answers| <= |w.kept| && w.delivered == Matched(w.kept, w.answers)
    ensures w.t.ctl == w.kept[|w.answers|..]
  {
    ReachableInv(w);
  }

  /**
   * Client ids: after every legal run the list of each connection holds, without repetition, exactly the
   * ids granted to it and not yet released, and no id is held by two connections.
   */
  lemma {:induction false} ClientIdTable(w: World)
    requires Reachable(w)
    ensures w.ledger.Keys == Fds(w.t.conns)
    ensures forall i :: 0 <= i < |w.t.conns| ==>
              && NoDuplicates(w.t.conns[i].clients)
              && forall id :: id in w.t.conns[i].clients <==> id in w.ledger[w.t.conns[i].fd]
    ensures forall i, j :: 0 <= i < j < |w.t.conns| ==>
              && w.t.conns[i].fd != w.t.conns[j].fd
              && forall id :: !(id in w.t.conns[i].clients && id in w.t.conns[j].clients)
  {
    ReachableInv(w);
    forall i | 0 <= i < |w.t.conns|
      ensures NoDuplicates(w.t.conns[i].clients)
      ensures forall id :: id in w.t.conns[i].clients <==> id in w.ledger[w.t.conns[i].fd]
    {
      assert Agrees(w.t.conns[i].clients, w.ledger[w.t.conns[i].fd]);
    }
    forall i, j, id | 0 <= i < j < |w.t.conns|
      ensures !(id in w.t.conns[i].clients && id in w.t.conns[j].clients)
    {
      assert w.ledger[w.t.conns[i].fd] !! w.ledger[w.t.conns[j].fd];
    }
  }

  lemma {:induction false} RouteToHolder(fd: byte, clients: seq<ClientId>, q: Qmi)
    requires q.Service? && q.id != 0 && NoDuplicates(clients)
    ensures RouteTo(fd, clients, q) == if ClientId(q.qmiType, q.id) in clients then [ToClient(fd, q)] else []
    decreases |clients|
  {
    if clients != [] {
      var front, last := clients[..|clients| - 1], clients[|clients| - 1];
      RouteToHolder(fd, front, q);
      assert clients == front + [last];
      assert last !in front;
    }
  }

  lemma {:induction false} RouteFromOthers(conns: seq<Conn>, q: Qmi)
    requires q.Service? && q.id != 0
    requires forall c :: c in conns ==> NoDuplicates(c.clients) && ClientId(q.qmiType, q.id) !in c.clients
    ensures Route(conns, q) == []
    decreases |conns|
  {
    if conns != [] {
      var front, last := conns[..|conns| - 1], conns[|conns| - 1];
      assert last in conns;
      RouteFromOthers(front, q);
      RouteToHolder(last.fd, last.clients, q);
    }
  }

  lemma {:induction false} RouteToOneHolder(conns: seq<Conn>, q: Qmi, k: nat)
    requires q.Service? && q.id != 0 && k < |conns|
    requires forall c :: c in conns ==> NoDuplicates(c.clients)
    requires forall i :: 0 <= i < |conns| ==> (ClientId(q.qmiType, q.id) in conns[i].clients <==> i == k)
    ensures Route(conns, q) == [ToClient(conns[k].fd, q)]
    decreases |conns|
  {
    var front, last := conns[..|conns| - 1], conns[|conns| - 1];
    assert last in conns;
    RouteToHolder(last.fd, last.clients, q);
    if k == |conns| - 1 {
      forall c | c in front ensures NoDuplicates(c.clients) && ClientId(q.qmiType, q.id) !in c.clients {
        var i :| 0 <= i < |front| && front[i] == c;
        assert conns[i] == c;
      }
      RouteFromOthers(front, q);
    } else {
      RouteToOneHolder(front, q, k);
    }
  }

  /**
   * Routing: after every legal run a service message with a non-zero id is written exactly once to the
   * client that holds the id, and to nobody when no client holds it.
   */
  lemma {:induction false} ServiceRouting(w: World, q: Qmi)
    requires Reachable(w) && q.Service? && q.id != 0
    ensures forall fd :: fd in w.ledger && ClientId(q.qmiType, q.id) in w.ledger[fd] ==>
            RecvWrites(w.t, q) == [ToClient(fd, q)]
    ensures (forall fd :: fd in w.ledger ==> ClientId(q.qmiType, q.id) !in w.ledger[fd]) ==> RecvWrites(w.t, q) == []
  {
    ClientIdTable(w);
    var id := ClientId(q.qmiType, q.id);
    forall fd | fd in w.ledger && id in w.ledger[fd] ensures RecvWrites(w.t, q) == [ToClient(fd, q)] {
      var k :| 0 <= k < |w.t.conns| && w.t.conns[k].fd == fd;
      RouteToOneHolder(w.t.conns, q, k);
    }
    if forall fd :: fd in w.ledger ==> id !in w.ledger[fd] {
      forall c | c in w.t.conns ensures NoDuplicates(c.clients) && id !in c.clients {
        var i :| 0 <= i < |w.t.conns| && w.t.conns[i] == c;
      }
      RouteFromOthers(w.t.conns, q);
    }
  }

  // ---- The two events that break the queue, and exactly when -------------------------------

  lemma {:induction false} CountZero(ctl: seq<Queued>, fd: byte)
    ensures CountFor(ctl, fd) == 0 <==> forall m :: m in ctl ==> m.fd != fd
  {
    if ctl != [] {
      CountZero(ctl[1..], fd);
      assert ctl == [ctl[0]] + ctl[1..];
    }
  }

  lemma {:induction false} RemoveFirstQueuedCounts(ctl: seq<Queued>, fd: byte)
    ensures CountFor(RemoveFirstQueued(ctl, fd), fd) == if CountFor(ctl, fd) == 0 then 0 else CountFor(ctl, fd) - 1
    ensures forall m: Queued :: m.fd != fd ==> (m in RemoveFirstQueued(ctl, fd) <==> m in ctl)
    ensures ctl != [] && ctl[0].fd != fd ==> RemoveFirstQueued(ctl, fd) != [] && RemoveFirstQueued(ctl, fd)[0] == ctl[0]
  {
    if ctl != [] {
      RemoveFirstQueuedCounts(ctl[1..], fd);
      assert ctl == [ctl[0]] + ctl[1..];
      var after := RemoveFirstQueued(ctl, fd);
      if ctl[0].fd != fd {
        assert after[1..] == RemoveFirstQueued(ctl[1..], fd);
      }
    }
  }

  /**
   * A client that hangs up keeps the queue in step with the modem exactly when its request is not the
   * one outstanding and it has at most one request queued: cleanup drops only the first of them.
   */
  lemma HangupKeepsQueueIff(t: Tables, atModem: seq<Queued>, fd: byte)
    requires DistinctFds(t.conns) && QueueInv(Fds(t.conns), t.ctl, atModem) && fd in Fds(t.conns)
    ensures QueueInv(Fds(Cleanup(t, fd).conns), Cleanup(t, fd).ctl, atModem)
        <==> HarmlessHangup(t.ctl, fd)
  {
    var after := Cleanup(t, fd);
    RemoveFirstConnDistinct(t.conns, fd);
    assert Fds(after.conns) == Fds(t.conns) - {fd};
    RemoveFirstQueuedCounts(t.ctl, fd);
    CountZero(after.ctl, fd);
    if t.ctl != [] && t.ctl[0].fd == fd {
      if after.ctl != [] && after.ctl[0] == t.ctl[0] {
        assert after.ctl[0].fd !in Fds(after.conns);
      }
    } else if CountFor(t.ctl, fd) <= 1 {
      forall m | m in after.ctl ensures m.fd in Fds(after.conns) {
        assert m in t.ctl;
      }
    } else {
      var m :| m in after.ctl && m.fd == fd;
    }
  }

  /** A control message that is no response keeps them in step exactly when nothing is queued: it re-sends the head. */
  lemma IndicationKeepsQueueIff(t: Tables, atModem: seq<Queued>, q: Qmi)
    requires DistinctFds(t.conns) && QueueInv(Fds(t.conns), t.ctl, atModem)
    requires q.Control? && !q.isResponse && forall m :: m in t.ctl ==> m.qmi.Control?
    ensures var resent := Requests(RecvWrites(t, q));
            && resent == atModem
            && (QueueInv(Fds(Recv(t, q).conns), Recv(t, q).ctl, atModem + resent) <==> t.ctl == [])
  {
    assert [] + HeadWrites(t) == HeadWrites(t);
    if t.ctl != [] {
      var head := t.ctl[0];
      assert head in t.ctl;
      CopiesOfDistinct(t.conns, head.fd, ToModem(head.fd, head.qmi));
      RequestsOfOne(ToModem(head.fd, head.qmi));
      assert |atModem + [head]| == 2;
    }
  }
}
