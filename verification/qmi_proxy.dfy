/** The QMI proxy on its linked lists; every operation is tied to its counterpart in ProxySpec. */
module QmiProxy {
  import opened Wrappers
  import opened Bytes
  import opened QList
  import Spec = ProxySpec

  /** A connection record; `clients` is the list whose head is embedded in it. */
  datatype Connection = Connection(fd: byte, clients: Ring<Spec.ClientId>)

  /** `c` stands for `value`, and its client-id list lives within `area`. */
  ghost predicate Stored(c: Connection, value: Spec.Conn, area: set<object>)
    reads area
  {
    && c.clients in area && c.clients.Repr <= area && c.clients.Valid()
    && value == Spec.Conn(c.fd, c.clients.items)
  }

  /** What a list of connections stands for, and the area each of them keeps its client ids in. */
  datatype Shape = Shape(conns: seq<Spec.Conn>, areas: seq<set<object>>, all: set<object>)

  /** The areas are within `all` and apart from each other. */
  ghost predicate Apart(areas: seq<set<object>>, all: set<object>) {
    && (forall i :: 0 <= i < |areas| ==> areas[i] <= all)
    && (forall i, j :: 0 <= i < j < |areas| ==> areas[i] !! areas[j])
  }

  ghost predicate AllStored(items: seq<Connection>, s: Shape)
    reads s.all
  {
    && |s.conns| == |items| == |s.areas|
    && Apart(s.areas, s.all)
    && (forall i :: 0 <= i < |items| ==> Stored(items[i], s.conns[i], s.areas[i]))
  }

  lemma GrowArea(areas: seq<set<object>>, all: set<object>, k: nat, added: set<object>)
    requires Apart(areas, all) && k < |areas| && added !! all
    ensures Apart(areas[k := areas[k] + added], all + added)
  {
  }

  lemma StoreOneMore(items: seq<Connection>, s: Shape, c: Connection, area: set<object>)
    requires AllStored(items, s) && Stored(c, Spec.Conn(c.fd, []), area) && area !! s.all
    ensures AllStored(items + [c], Shape(s.conns + [Spec.Conn(c.fd, [])], s.areas + [area], s.all + area))
  {
  }

  lemma StoreOneLess(items: seq<Connection>, s: Shape, k: nat)
    requires AllStored(items, s) && k < |items|
    ensures AllStored(RemoveAt(items, k), Shape(RemoveAt(s.conns, k), RemoveAt(s.areas, k), s.all))
  {
    var items', conns', areas' := RemoveAt(items, k), RemoveAt(s.conns, k), RemoveAt(s.areas, k);
    forall i | 0 <= i < |items'| ensures Stored(items'[i], conns'[i], areas'[i]) {
      var j := if i < k then i else i + 1;
      assert Stored(items[j], s.conns[j], s.areas[j]);
    }
  }

  // ---- One list at a time -----------------------------------------------------------------

  lemma {:induction false} RemoveFirstClientAt(before: seq<Spec.ClientId>, x: Spec.ClientId,
      after: seq<Spec.ClientId>, id: Spec.ClientId)
    requires id !in before && x == id
    ensures Spec.RemoveFirstClient(before + [x] + after, id) == before + after
  {
    if before == [] {
      assert [] + [x] + after == [x] + after;
    } else {
      RemoveFirstClientAt(before[1..], x, after, id);
      assert before + [x] + after == [before[0]] + (before[1..] + [x] + after);
    }
  }

  lemma {:induction false} RemoveFirstClientNone(all: seq<Spec.ClientId>, id: Spec.ClientId)
    requires id !in all
    ensures Spec.RemoveFirstClient(all, id) == all
  {
    if all != [] {
      RemoveFirstClientNone(all[1..], id);
      assert all == [all[0]] + all[1..];
    }
  }

  lemma {:induction false} RemoveFirstQueuedAt(before: seq<Spec.Queued>, x: Spec.Queued, after: seq<Spec.Queued>,
      fd: byte)
    requires (forall y :: y in before ==> y.fd != fd) && x.fd == fd
    ensures Spec.RemoveFirstQueued(before + [x] + after, fd) == before + after
  {
    if before == [] {
      assert [] + [x] + after == [x] + after;
    } else {
      RemoveFirstQueuedAt(before[1..], x, after, fd);
      assert before + [x] + after == [before[0]] + (before[1..] + [x] + after);
    }
  }

  /** Drops the first node that carries `id`, if there is one. */
  method RemoveClient(clients: Ring<Spec.ClientId>, id: Spec.ClientId)
    requires clients.Valid()
    modifies clients.Repr
    ensures clients.Valid() && clients.Repr == old(clients.Repr)
    ensures clients.items == Spec.RemoveFirstClient(old(clients.items), id)
  {
    var node := clients.First();
    ghost var i := 0;
    while node != clients.head
      invariant clients.Valid() && clients.At(node, i)
      invariant clients.items == old(clients.items) && clients.Repr == old(clients.Repr)
      invariant forall j :: 0 <= j < i ==> clients.items[j] != id
      decreases |clients.items| - i
    {
      var current := clients.Current(node, i);
      if current == id {
        RemoveFirstClientAt(clients.items[..i], id, clients.items[i + 1..], id);
        assert clients.items == clients.items[..i] + [id] + clients.items[i + 1..];
        clients.Remove(node, i);
        return;
      }
      node := clients.Next(node, i);
      i := i + 1;
    }
    RemoveFirstClientNone(clients.items, id);
  }

  /** Drops the first queued message of `fd`, if there is one. */
  method RemoveQueued(ctl: Ring<Spec.Queued>, fd: byte)
    requires ctl.Valid()
    modifies ctl.Repr
    ensures ctl.Valid() && ctl.Repr == old(ctl.Repr)
    ensures ctl.items == Spec.RemoveFirstQueued(old(ctl.items), fd)
  {
    var node := ctl.First();
    ghost var i := 0;
    while node != ctl.head
      invariant ctl.Valid() && ctl.At(node, i)
      invariant ctl.items == old(ctl.items) && ctl.Repr == old(ctl.Repr)
      invariant forall j :: 0 <= j < i ==> ctl.items[j].fd != fd
      decreases |ctl.items| - i
    {
      var m := ctl.Current(node, i);
      if m.fd == fd {
        RemoveFirstQueuedAt(ctl.items[..i], m, ctl.items[i + 1..], fd);
        assert ctl.items == ctl.items[..i] + [m] + ctl.items[i + 1..];
        ctl.Remove(node, i);
        return;
      }
      node := ctl.Next(node, i);
      i := i + 1;
    }
    Spec.RemoveFirstQueuedSame(ctl.items, fd);
  }

  /** Frees all client ids of a connection, head first. */
  method ClearClients(clients: Ring<Spec.ClientId>)
    requires clients.Valid()
    modifies clients.Repr
    ensures clients.Valid() && clients.Repr == old(clients.Repr) && clients.items == []
  {
    while !clients.Empty()
      invariant clients.Valid() && clients.Repr == old(clients.Repr)
      decreases |clients.items|
    {
      var node := clients.First();
      clients.Remove(node, 0);
    }
  }

  method AppendClient(clients: Ring<Spec.ClientId>, id: Spec.ClientId) returns (node: QNode<Spec.ClientId>)
    requires clients.Valid()
    modifies clients.Repr
    ensures clients.Valid() && fresh(node) && clients.Repr == old(clients.Repr) + {node}
    ensures clients.items == old(clients.items) + [id]
  {
    node := new QNode(Some(id));
    clients.AddTail(node);
  }

  /** `get_client_id` and `release_client_id`. */
  method UpdateClients(c: Connection, body: Spec.Body) returns (ghost added: set<object>)
    requires c.clients.Valid()
    modifies c.clients.Repr
    ensures c.clients.Valid() && c.clients.Repr == old(c.clients.Repr) + added && fresh(added)
    ensures Spec.Conn(c.fd, c.clients.items) == Spec.Record(Spec.Conn(c.fd, old(c.clients.items)), body)
  {
    added := {};
    match body {
      case GetClientId(ok, id) =>
        if ok {
          var node := AppendClient(c.clients, id);
          added := {node};
        }
      case ReleaseClientId(ok, id) =>
        if ok {
          RemoveClient(c.clients, id);
        }
      case RevokeClientId(ok, id) =>
        if ok {
          RemoveClient(c.clients, id);
        }
      case OtherBody =>
    }
  }

  // ---- One connection of many --------------------------------------------------------------

  method RecordAnswer(ghost items: seq<Connection>, ghost s: Shape, c: Connection, ghost k: nat, body: Spec.Body)
    returns (ghost s': Shape)
    requires AllStored(items, s) && k < |items| && items[k] == c
    modifies s.all
    ensures AllStored(items, s') && s.all <= s'.all && fresh(s'.all - s.all)
    ensures s'.conns == s.conns[k := Spec.Record(s.conns[k], body)]
  {
    assert Stored(c, s.conns[k], s.areas[k]);
    ghost var added := UpdateClients(c, body);
    forall i | 0 <= i < |items| && i != k ensures Stored(items[i], s.conns[i], s.areas[i]) {
      assert old(Stored(items[i], s.conns[i], s.areas[i]));
    }
    GrowArea(s.areas, s.all, k, added);
    s' := Shape(s.conns[k := Spec.Record(s.conns[k], body)], s.areas[k := s.areas[k] + added], s.all + added);
  }

  /** Frees the client ids of the connection at position `k`. */
  method DropClients(ghost items: seq<Connection>, ghost s: Shape, c: Connection, ghost k: nat)
    requires AllStored(items, s) && k < |items| && items[k] == c
    modifies s.all
    ensures AllStored(items, s.(conns := s.conns[k := Spec.Conn(c.fd, [])]))
  {
    assert Stored(c, s.conns[k], s.areas[k]);
    ClearClients(c.clients);
    forall i | 0 <= i < |items| && i != k ensures Stored(items[i], s.conns[i], s.areas[i]) {
      assert old(Stored(items[i], s.conns[i], s.areas[i]));
    }
  }

  lemma {:induction false} RemoveFirstConnAt(before: seq<Spec.Conn>, x: Spec.Conn, after: seq<Spec.Conn>, fd: byte)
    requires (forall y :: y in before ==> y.fd != fd) && x.fd == fd
    ensures Spec.RemoveFirstConn(before + [x] + after, fd) == before + after
  {
    if before == [] {
      assert [] + [x] + after == [x] + after;
    } else {
      RemoveFirstConnAt(before[1..], x, after, fd);
      assert before + [x] + after == [before[0]] + (before[1..] + [x] + after);
    }
  }

  lemma CleanupAt(t: Spec.Tables, fd: byte, k: nat)
    requires k <= |t.conns| && (forall i :: 0 <= i < k ==> t.conns[i].fd != fd) &&
             (k < |t.conns| ==> t.conns[k].fd == fd)
    ensures Spec.Cleanup(t, fd) ==
            if k < |t.conns| then Spec.Tables(RemoveAt(t.conns, k), Spec.RemoveFirstQueued(t.ctl, fd)) else t
  {
    if k < |t.conns| {
      assert t.conns[k] in t.conns;
      RemoveFirstConnAt(t.conns[..k], t.conns[k], t.conns[k + 1..], fd);
      assert t.conns == t.conns[..k] + [t.conns[k]] + t.conns[k + 1..];
    }
  }

  /** The second walk of `recv_qmi`: the queue's head `m` goes to the modem on behalf of its client. */
  method WriteRequest(connections: Ring<Connection>, ghost s: Shape, m: Spec.Queued) returns (writes: seq<Spec.Write>)
    requires connections.Valid() && AllStored(connections.items, s)
    ensures writes == Spec.Copies(s.conns, m.fd, Spec.ToModem(m.fd, m.qmi))
  {
    writes := [];
    var node := connections.First();
    ghost var i := 0;
    while node != connections.head
      invariant connections.At(node, i) && (node == connections.head <==> i == |connections.items|)
      invariant writes == Spec.Copies(s.conns[..i], m.fd, Spec.ToModem(m.fd, m.qmi))
      decreases |connections.items| - i
    {
      var c := connections.Current(node, i);
      assert Stored(c, s.conns[i], s.areas[i]);
      Spec.CopiesOneMore(s.conns, i, m.fd, Spec.ToModem(m.fd, m.qmi));
      if c.fd == m.fd {
        writes := writes + [Spec.ToModem(m.fd, m.qmi)];
      }
      node := connections.Next(node, i);
      i := i + 1;
    }
    assert s.conns[..i] == s.conns;
  }

  /** The inner loop of the service branch: one connection's client ids. */
  method RouteToClients(c: Connection, q: Spec.Qmi) returns (writes: seq<Spec.Write>)
    requires c.clients.Valid() && q.Service?
    ensures writes == Spec.RouteTo(c.fd, c.clients.items, q)
  {
    writes := [];
    var node := c.clients.First();
    ghost var i := 0;
    while node != c.clients.head
      invariant c.clients.At(node, i) && (node == c.clients.head <==> i == |c.clients.items|)
      invariant writes == Spec.RouteTo(c.fd, c.clients.items[..i], q)
      decreases |c.clients.items| - i
    {
      var id := c.clients.Current(node, i);
      assert c.clients.items[..i + 1][..i] == c.clients.items[..i];
      if q.qmiType == id.qmiType {
        if q.id == 0 || q.id == id.id {
          writes := writes + [Spec.ToClient(c.fd, q)];
        }
      }
      node := c.clients.Next(node, i);
      i := i + 1;
    }
    assert c.clients.items[..i] == c.clients.items;
  }

  /** The service branch of `recv_qmi`. */
  method RouteService(connections: Ring<Connection>, ghost s: Shape, q: Spec.Qmi) returns (writes: seq<Spec.Write>)
    requires connections.Valid() && AllStored(connections.items, s) && q.Service?
    ensures writes == Spec.Route(s.conns, q)
  {
    writes := [];
    var node := connections.First();
    ghost var i := 0;
    while node != connections.head
      invariant connections.At(node, i) && (node == connections.head <==> i == |connections.items|)
      invariant writes == Spec.Route(s.conns[..i], q)
      decreases |connections.items| - i
    {
      var c := connections.Current(node, i);
      assert Stored(c, s.conns[i], s.areas[i]);
      Spec.RouteOneMore(s.conns, i, q);
      var ws := RouteToClients(c, q);
      writes := writes + ws;
      node := connections.Next(node, i);
      i := i + 1;
    }
    assert s.conns[..i] == s.conns;
  }

  /** The walk that answers `q` has passed the first `i` connections of `before`. */
  ghost predicate Answered(before: seq<Spec.Conn>, now: seq<Spec.Conn>, i: nat, fd: byte, q: Spec.Qmi,
                           writes: seq<Spec.Write>, reset: bool)
    requires q.Control? && i <= |before|
  {
    && now == Spec.RecordUpTo(before, i, fd, q.body)
    && writes == Spec.Copies(before[..i], fd, Spec.ToClient(fd, q))
    && reset == (q.body.RevokeClientId? && Spec.Uses(before[..i], fd))
  }

  /** The walk of `recv_qmi` that answers the client of the head request. */
  method AnswerClient(connections: Ring<Connection>, ghost s: Shape, fd: byte, q: Spec.Qmi)
    returns (ghost s': Shape, writes: seq<Spec.Write>, reset: bool)
    requires connections.Valid() && AllStored(connections.items, s) && connections.Repr !! s.all && q.Control?
    modifies s.all
    ensures AllStored(connections.items, s') && s.all <= s'.all && fresh(s'.all - s.all)
    ensures Answered(s.conns, s'.conns, |s.conns|, fd, q, writes, reset)
  {
    var node := connections.First();
    ghost var i := 0;
    s', writes, reset := s, [], false;
    while node != connections.head
      invariant connections.Valid() && AllStored(connections.items, s') && s.all <= s'.all && fresh(s'.all - s.all)
      invariant connections.At(node, i) && (node == connections.head <==> i == |connections.items|)
      invariant Answered(s.conns, s'.conns, i, fd, q, writes, reset)
      decreases |connections.items| - i
    {
      s', writes, reset, node := AnswerOne(connections, s.conns, s', i, node, fd, q, writes, reset);
      i := i + 1;
    }
    assert s.conns[..i] == s.conns;
  }

  /** The body of that walk, at position `i`. */
  method AnswerOne(connections: Ring<Connection>, ghost before: seq<Spec.Conn>, ghost s: Shape, ghost i: nat,
      node: QNode<Connection>,
                   fd: byte, q: Spec.Qmi, writesBefore: seq<Spec.Write>, resetBefore: bool)
    returns (ghost s': Shape, writes: seq<Spec.Write>, reset: bool, after: QNode<Connection>)
    requires connections.Valid() && AllStored(connections.items, s) && connections.Repr !! s.all
    requires connections.At(node, i) && node != connections.head && q.Control? && |connections.items| == |before|
    requires i < |before| && Answered(before, s.conns, i, fd, q, writesBefore, resetBefore)
    modifies s.all
    ensures AllStored(connections.items, s') && s.all <= s'.all && fresh(s'.all - s.all)
    ensures Answered(before, s'.conns, i + 1, fd, q, writes, reset)
    ensures connections.At(after, i + 1) && (after == connections.head <==> i + 1 == |before|)
  {
    var c := connections.Current(node, i);
    assert Stored(c, s.conns[i], s.areas[i]);
    s', writes, reset := s, writesBefore, resetBefore;
    if c.fd == fd {
      writes := writes + [Spec.ToClient(fd, q)];
      s' := RecordAnswer(connections.items, s, c, i, q.body);
      if q.body.RevokeClientId? {
        reset := true;
      }
    }
    Spec.CopiesOneMore(before, i, fd, Spec.ToClient(fd, q));
    after := connections.Next(node, i);
  }

  /** Walks the connection list to the first connection that uses `fd`. */
  method FindConnection(connections: Ring<Connection>, ghost s: Shape, fd: byte)
    returns (node: QNode<Connection>, ghost k: nat)
    requires connections.Valid() && AllStored(connections.items, s)
    ensures k <= |s.conns| && (forall j :: 0 <= j < k ==> s.conns[j].fd != fd)
    ensures connections.At(node, k) && (node == connections.head <==> k == |s.conns|)
    ensures k < |s.conns| ==> s.conns[k].fd == fd
  {
    node := connections.First();
    k := 0;
    while node != connections.head
      invariant connections.At(node, k) && (node == connections.head <==> k == |connections.items|)
      invariant forall j :: 0 <= j < k ==> s.conns[j].fd != fd
      decreases |connections.items| - k
    {
      var c := connections.Current(node, k);
      assert Stored(c, s.conns[k], s.areas[k]);
      if c.fd == fd {
        return;
      }
      node := connections.Next(node, k);
      k := k + 1;
    }
  }

  // ---- The proxy ---------------------------------------------------------------------------

  class Proxy {
    const connections: Ring<Connection>
    const ctl: Ring<Spec.Queued>
    ghost var shape: Shape

    ghost function Repr(): set<object>
      reads this, connections, ctl
    {
      {this} + connections.Repr + ctl.Repr + shape.all
    }

    ghost predicate Valid()
      reads this, connections, ctl, Repr()
    {
      && connections in connections.Repr && ctl in ctl.Repr
      && this !in connections.Repr && this !in ctl.Repr && this !in shape.all
      && connections.Repr !! ctl.Repr && connections.Repr !! shape.all && ctl.Repr !! shape.all
      && connections.Valid() && ctl.Valid()
      && AllStored(connections.items, shape)
    }

    /** The tables the lists stand for. */
    ghost function Tables(): Spec.Tables
      reads this, ctl
    {
      Spec.Tables(shape.conns, ctl.items)
    }

    constructor ()
      ensures Valid() && fresh(Repr()) && Tables() == Spec.Tables([], [])
    {
      connections := new Ring();
      ctl := new Ring();
      shape := Shape([], [], {});
    }

    /** Links a new record whose own list lives in `area`, apart from everything else. */
    method LinkConnection(node: QNode<Connection>, ghost c: Connection, ghost area: set<object>)
      requires Valid() && node.item == Some(c) && node !in Repr() && node !in area
      requires Stored(c, Spec.Conn(c.fd, []), area) && area !! Repr()
      modifies this, connections.Repr, node
      ensures Valid() && Repr() == old(Repr()) + {node} + area
      ensures Tables() == Spec.Accept(old(Tables()), c.fd)
    {
      connections.AddTail(node);
      StoreOneMore(old(connections.items), shape, c, area);
      shape := Shape(shape.conns + [Spec.Conn(c.fd, [])], shape.areas + [area], shape.all + area);
    }

    method AcceptConnection(clientfd: byte)
      requires Valid()
      modifies Repr()
      ensures Valid() && fresh(Repr() - old(Repr()))
      ensures Tables() == Spec.Accept(old(Tables()), clientfd)
    {
      var clients := new Ring<Spec.ClientId>();
      var node := new QNode(Some(Connection(clientfd, clients)));
      LinkConnection(node, Connection(clientfd, clients), clients.Repr);
    }

    /** Drops the connection at position `k`, its client ids, and the first message it has queued. */
    method DropConnection(node: QNode<Connection>, ghost k: nat)
      requires Valid() && connections.At(node, k) && node != connections.head
      modifies Repr()
      ensures Valid() && Repr() == old(Repr()) && k < |old(shape.conns)|
      ensures Tables() == Spec.Tables(RemoveAt(old(shape.conns), k),
              Spec.RemoveFirstQueued(old(ctl.items), old(shape.conns)[k].fd))
    {
      var c := connections.Current(node, k);
      assert Stored(c, shape.conns[k], shape.areas[k]);
      DropClients(connections.items, shape, c, k);
      shape := shape.(conns := shape.conns[k := Spec.Conn(c.fd, [])]);
      DropQueued(c.fd);
      UnlinkConnection(node, k);
    }

    method DropQueued(fd: byte)
      requires Valid()
      modifies ctl.Repr
      ensures Valid() && Repr() == old(Repr()) && ctl.items == Spec.RemoveFirstQueued(old(ctl.items), fd)
    {
      RemoveQueued(ctl, fd);
    }

    method UnlinkConnection(node: QNode<Connection>, ghost k: nat)
      requires Valid() && connections.At(node, k) && node != connections.head
      modifies this, connections.Repr
      ensures Valid() && connections.Repr == old(connections.Repr) && shape.all == old(shape.all)
      ensures k < |old(shape.conns)| && shape.conns == RemoveAt(old(shape.conns), k)
    {
      StoreOneLess(connections.items, shape, k);
      connections.Remove(node, k);
      shape := Shape(RemoveAt(shape.conns, k), RemoveAt(shape.areas, k), shape.all);
    }

    method CleanupConnection(clientfd: byte)
      requires Valid()
      modifies Repr()
      ensures Valid() && Repr() == old(Repr())
      ensures Tables() == Spec.Cleanup(old(Tables()), clientfd)
    {
      ghost var before := Tables();
      var node, k := FindConnection(connections, shape, clientfd);
      if node != connections.head {
        DropConnection(node, k);
        assert Tables() == Spec.Tables(RemoveAt(before.conns, k), Spec.RemoveFirstQueued(before.ctl, clientfd));
      }
      CleanupAt(before, clientfd, k);
    }

    /** The exit of the event loop: it ends, with no connection left. */
    method CloseAll()
      requires Valid()
      modifies Repr()
      ensures Valid() && shape.conns == []
    {
      while !connections.Empty()
        invariant Valid() && Repr() == old(Repr())
        decreases |shape.conns|
      {
        var node := connections.First();
        var c := connections.Current(node, 0);
        assert Stored(c, shape.conns[0], shape.areas[0]);
        assert shape.conns[0] in shape.conns;
        CleanupConnection(c.fd);
      }
    }

    /** `recv_qmi` once the server is up; `reset` is the modem reset flag, on which the event loop exits. */
    method RecvQmi(q: Spec.Qmi) returns (writes: seq<Spec.Write>, reset: bool)
      requires Valid()
      modifies Repr()
      ensures Valid() && fresh(Repr() - old(Repr()))
      ensures Tables() == Spec.Recv(old(Tables()), q)
      ensures writes == Spec.RecvWrites(old(Tables()), q)
      ensures reset == Spec.Resets(old(Tables()), q)
    {
      if q.Control? {
        writes, reset := AnswerHead(q);
        var ws := WriteHead();
        writes := writes + ws;
      } else {
        writes := RouteService(connections, shape, q);
        reset := false;
      }
    }

    method WriteHead() returns (writes: seq<Spec.Write>)
      requires Valid()
      ensures writes == Spec.HeadWrites(Tables())
    {
      writes := [];
      if !ctl.Empty() {
        var head := ctl.First();
        var m := ctl.Current(head, 0);
        writes := WriteRequest(connections, shape, m);
      }
    }

    /** The part of `recv_qmi` that is about the answered request. */
    method AnswerHead(q: Spec.Qmi) returns (writes: seq<Spec.Write>, reset: bool)
      requires Valid() && q.Control?
      modifies Repr()
      ensures Valid() && fresh(Repr() - old(Repr()))
      ensures Tables() == Spec.Answer(old(Tables()), q)
      ensures writes == Spec.AnswerWrites(old(Tables()), q)
      ensures reset == Spec.Resets(old(Tables()), q)
    {
      writes, reset := [], false;
      if q.isResponse && !ctl.Empty() {
        var head := ctl.First();
        var m := ctl.Current(head, 0);
        writes, reset := AnswerConnections(m.fd, q);
        ghost var grown := Repr();
        PopHead(head);
        assert Repr() == grown;
      }
    }

    method AnswerConnections(fd: byte, q: Spec.Qmi) returns (writes: seq<Spec.Write>, reset: bool)
      requires Valid() && q.Control?
      modifies this, shape.all
      ensures Valid() && fresh(Repr() - old(Repr())) && connections.Repr == old(connections.Repr) &&
              ctl.Repr == old(ctl.Repr)
      ensures shape.conns == Spec.RecordFor(old(shape.conns), fd, q.body)
      ensures writes == Spec.Copies(old(shape.conns), fd, Spec.ToClient(fd, q))
      ensures reset == (q.body.RevokeClientId? && Spec.Uses(old(shape.conns), fd))
    {
      ghost var conns := shape.conns;
      shape, writes, reset := AnswerClient(connections, shape, fd, q);
      Spec.RecordUpToIsRecordFor(conns, |conns|, fd, q.body);
      assert conns[..|conns|] == conns;
    }

    method PopHead(head: QNode<Spec.Queued>)
      requires Valid() && ctl.At(head, 0) && head != ctl.head
      modifies ctl.Repr
      ensures Valid() && Repr() == old(Repr()) && |old(ctl.items)| > 0 && ctl.items == old(ctl.items)[1..]
    {
      ctl.Remove(head, 0);
    }

    /** `send_qmi` once the server is up. */
    method SendQmi(q: Spec.Qmi, clientfd: byte) returns (writes: seq<Spec.Write>)
      requires Valid()
      modifies Repr()
      ensures Valid() && fresh(Repr() - old(Repr()))
      ensures Tables() == Spec.Send(old(Tables()), q, clientfd)
      ensures writes == Spec.SendWrites(old(Tables()), q, clientfd)
    {
      writes := [];
      if q.Control? {
        if ctl.Empty() {
          writes := [Spec.ToModem(clientfd, q)];
        }
        var node := new QNode(Some(Spec.Queued(clientfd, q)));
        ctl.AddTail(node);
      } else {
        writes := [Spec.ToModem(clientfd, q)];
      }
    }
  }
}
