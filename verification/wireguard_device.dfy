/** The kernel state behind `wg set`, and the desired changes the agent applies to it. */
module WireGuardDevice {
  type PeerId = (string, string)   // interface, public key
  type RouteId = (string, string)  // interface, allowed IP

  datatype PeerConfig = PeerConfig(endpoint: string, keepalive: int)

  /** Every allowed IP of an interface has at most one owning peer, as in the kernel's routing table. */
  datatype Device = Device(
    peers: map<PeerId, PeerConfig>,
    owners: map<RouteId, string>,
    ports: map<string, int>)

  datatype Op =
    | AddPeer(iface: string, key: string, allowedIps: set<string>, endpoint: string, keepalive: int)
    | RemovePeer(iface: string, key: string)
    | UpdateInterface(iface: string, listenPort: int)
    | BadPayload   // a known type whose payload does not parse
    | UnknownType

  function NoPeer(): PeerConfig {
    PeerConfig("", 0)
  }

  /** `wg set <iface> peer <key> allowed-ips ... [endpoint ...] [persistent-keepalive ...]`. */
  function SetPeer(d: Device, op: Op): Device
    requires op.AddPeer?
  {
    var id := (op.iface, op.key);
    var was := if id in d.peers then d.peers[id] else NoPeer();
    var now := PeerConfig(
      if op.endpoint != "" then op.endpoint else was.endpoint,
      if op.keepalive > 0 then op.keepalive else was.keepalive);
    d.(peers := d.peers[id := now],
       owners := (map ip | ip in op.allowedIps :: (op.iface, ip) := op.key)
           + WithoutOwner(d.owners, op.iface, op.key, op.allowedIps))
  }

  /** The routes of `owners` that survive `key` giving up its own and taking over `taken`. */
  function WithoutOwner(owners: map<RouteId, string>, iface: string, key: string, taken: set<string>): map<RouteId,
      string> {
    map r | r in owners && !(r.0 == iface && (owners[r] == key || r.1 in taken)) :: owners[r]
  }

  /** What one `execute*` function of the agent does to the device. */
  function Apply(d: Device, op: Op): Device {
    match op
    case AddPeer(_, _, _, _, _) => SetPeer(d, op)
    case RemovePeer(iface, key) =>
      d.(peers := d.peers - {(iface, key)}, owners := WithoutOwner(d.owners, iface, key, {}))
    case UpdateInterface(iface, port) => if port > 0 then d.(ports := d.ports[iface := port]) else d
    case BadPayload => d
    case UnknownType => d
  }

  predicate Succeeds(op: Op) {
    !op.BadPayload? && !op.UnknownType?
  }

  function ApplyAll(d: Device, ops: seq<Op>): Device {
    if ops == [] then d else Apply(ApplyAll(d, ops[..|ops| - 1]), ops[|ops| - 1])
  }

  lemma {:induction false} ApplyAllConcat(d: Device, a: seq<Op>, b: seq<Op>)
    ensures ApplyAll(d, a + b) == ApplyAll(ApplyAll(d, a), b)
    decreases |b|
  {
    if b == [] {
      assert a + b == a;
    } else {
      var front := b[..|b| - 1];
      assert (a + b)[..|a + b| - 1] == a + front;
      ApplyAllConcat(d, a, front);
    }
  }

  /** The allowed IPs of a peer on an interface. */
  function OwnedIps(d: Device, id: PeerId): set<string> {
    set r | r in d.owners && r.0 == id.0 && d.owners[r] == id.1 :: r.1
  }

  /**
   * Adding a peer, again or for the first time: it is there, with exactly the given allowed IPs, which
   * all other peers of the interface lose; an endpoint or keepalive that is not given stays as it was.
   */
  lemma AddPeerEffect(d: Device, op: Op, other: PeerId)
    requires op.AddPeer? && other != (op.iface, op.key)
    ensures var after, id := Apply(d, op), (op.iface, op.key);
            && id in after.peers && OwnedIps(after, id) == op.allowedIps && after.ports == d.ports
            && (op.endpoint != "" ==> after.peers[id].endpoint == op.endpoint)
            && (op.keepalive > 0 ==> after.peers[id].keepalive == op.keepalive)
            && (op.endpoint == "" ==> after.peers[id].endpoint == if id in d.peers then d.peers[id].endpoint else "")
            && (op.keepalive <= 0 ==> after.peers[id].keepalive == if id in d.peers then d.peers[id].keepalive else 0)
            && (other in after.peers <==> other in d.peers)
            && (other in d.peers ==> after.peers[other] == d.peers[other])
            && OwnedIps(after, other) == OwnedIps(d, other) - if other.0 == op.iface then op.allowedIps else {}
  {
    var after := Apply(d, op);
    forall ip | ip in op.allowedIps ensures ip in OwnedIps(after, (op.iface, op.key)) {
      assert (op.iface, ip) in after.owners;
    }
    forall ip ensures ip in OwnedIps(after, other) <==>
                      ip in OwnedIps(d, other) - if other.0 == op.iface then op.allowedIps else {}
    {
      var r := (other.0, ip);
      assert ip in OwnedIps(d, other) <==> r in d.owners && d.owners[r] == other.1;
      assert ip in OwnedIps(after, other) <==> r in after.owners && after.owners[r] == other.1;
    }
  }

  /** Removing a peer takes it and its allowed IPs away and touches nothing else. */
  lemma RemovePeerEffect(d: Device, id: PeerId, other: PeerId)
    requires other != id
    ensures var after := Apply(d, RemovePeer(id.0, id.1));
            && id !in after.peers && OwnedIps(after, id) == {} && after.ports == d.ports
            && (other in after.peers <==> other in d.peers)
            && (other in d.peers ==> after.peers[other] == d.peers[other])
            && OwnedIps(after, other) == OwnedIps(d, other)
  {
    var after := Apply(d, RemovePeer(id.0, id.1));
    forall ip ensures ip in OwnedIps(after, other) <==> ip in OwnedIps(d, other) {
      var r := (other.0, ip);
      assert ip in OwnedIps(d, other) <==> r in d.owners && d.owners[r] == other.1;
      assert ip in OwnedIps(after, other) <==> r in after.owners && after.owners[r] == other.1;
    }
  }

  // ---- A device seen as independent cells --------------------------------------------------

  datatype Cell =
    | Present(peer: PeerId)
    | Endpoint(peer: PeerId)
    | Keepalive(peer: PeerId)
    | Owner(route: RouteId)
    | Port(iface: string)

  datatype Value = Blank | Flag | Text(s: string) | Number(n: int)

  function Read(d: Device, c: Cell): Value {
    match c
    case Present(p) => if p in d.peers then Flag else Blank
    case Endpoint(p) => if p in d.peers && d.peers[p].endpoint != "" then Text(d.peers[p].endpoint) else Blank
    case Keepalive(p) => if p in d.peers && d.peers[p].keepalive != 0 then Number(d.peers[p].keepalive) else Blank
    case Owner(r) => if r in d.owners then Text(d.owners[r]) else Blank
    case Port(i) => if i in d.ports then Number(d.ports[i]) else Blank
  }

  lemma CellsDetermineDevice(d: Device, e: Device)
    requires forall c :: Read(d, c) == Read(e, c)
    ensures d == e
  {
    forall p: PeerId
      ensures p in d.peers <==> p in e.peers
      ensures p in d.peers ==> d.peers[p] == e.peers[p]
    {
      assert Read(d, Present(p)) == Read(e, Present(p));
      assert Read(d, Endpoint(p)) == Read(e, Endpoint(p));
      assert Read(d, Keepalive(p)) == Read(e, Keepalive(p));
    }
    forall r: RouteId
      ensures r in d.owners <==> r in e.owners
      ensures r in d.owners ==> d.owners[r] == e.owners[r]
    {
      assert Read(d, Owner(r)) == Read(e, Owner(r));
    }
    forall i: string
      ensures i in d.ports <==> i in e.ports
      ensures i in d.ports ==> d.ports[i] == e.ports[i]
    {
      assert Read(d, Port(i)) == Read(e, Port(i));
    }
    assert d.peers == e.peers && d.owners == e.owners && d.ports == e.ports;
  }

  /** The only thing `op` does to a cell that holds `v`. */
  function Touch(op: Op, c: Cell, v: Value): Value {
    match op
    case AddPeer(iface, key, ips, endpoint, keepalive) => (
      match c
      case Present(p) => if p == (iface, key) then Flag else v
      case Endpoint(p) => if p == (iface, key) && endpoint != "" then Text(endpoint) else v
      case Keepalive(p) => if p == (iface, key) && keepalive > 0 then Number(keepalive) else v
      case Owner(r) =>
        if r.0 != iface then v
        else if r.1 in ips then Text(key)
        else if v == Text(key) then Blank
        else v
      case Port(_) => v)
    case RemovePeer(iface, key) => (
      match c
      case Present(p) => if p == (iface, key) then Blank else v
      case Endpoint(p) => if p == (iface, key) then Blank else v
      case Keepalive(p) => if p == (iface, key) then Blank else v
      case Owner(r) => if r.0 == iface && v == Text(key) then Blank else v
      case Port(_) => v)
    case UpdateInterface(iface, port) => if c == Port(iface) && port > 0 then Number(port) else v
    case BadPayload => v
    case UnknownType => v
  }

  function TouchAll(ops: seq<Op>, c: Cell, v: Value): Value {
    if ops == [] then v else Touch(ops[|ops| - 1], c, TouchAll(ops[..|ops| - 1], c, v))
  }

  lemma ApplyTouchesCells(d: Device, op: Op, c: Cell)
    ensures Read(Apply(d, op), c) == Touch(op, c, Read(d, c))
  {
    if op.AddPeer? && c.Owner? {
      var r := c.route;
      var taken := map ip | ip in op.allowedIps :: (op.iface, ip) := op.key;
      var kept := WithoutOwner(d.owners, op.iface, op.key, op.allowedIps);
      assert r in taken <==> r.0 == op.iface && r.1 in op.allowedIps by {
        if r.0 == op.iface && r.1 in op.allowedIps {
          assert r == (op.iface, r.1);
        }
      }
    }
  }

  lemma {:induction false} ApplyAllTouchesCells(d: Device, ops: seq<Op>, c: Cell)
    ensures Read(ApplyAll(d, ops), c) == TouchAll(ops, c, Read(d, c))
    decreases |ops|
  {
    if ops != [] {
      ApplyAllTouchesCells(d, ops[..|ops| - 1], c);
      ApplyTouchesCells(ApplyAll(d, ops[..|ops| - 1]), ops[|ops| - 1], c);
    }
  }

  /** On one cell a batch either always leaves the same value, or leaves every value alone or blanks it. */
  ghost predicate Constant(ops: seq<Op>, c: Cell) {
    forall v, w :: TouchAll(ops, c, v) == TouchAll(ops, c, w)
  }

  ghost predicate KeepsOrBlanks(ops: seq<Op>, c: Cell) {
    forall v :: TouchAll(ops, c, v) == v || TouchAll(ops, c, v) == Blank
  }

  lemma {:induction false} BatchOnCell(ops: seq<Op>, c: Cell)
    ensures Constant(ops, c) || KeepsOrBlanks(ops, c)
    decreases |ops|
  {
    if ops != [] {
      var front, last := ops[..|ops| - 1], ops[|ops| - 1];
      BatchOnCell(front, c);
      if Constant(front, c) {
        forall v, w ensures TouchAll(ops, c, v) == TouchAll(ops, c, w) {
          assert TouchAll(front, c, v) == TouchAll(front, c, w);
        }
      } else if forall v :: Touch(last, c, v) == v || Touch(last, c, v) == Blank {
        forall v ensures TouchAll(ops, c, v) == v || TouchAll(ops, c, v) == Blank {
          assert TouchAll(front, c, v) == v || TouchAll(front, c, v) == Blank;
        }
      } else {
        var x :| !(Touch(last, c, x) == x || Touch(last, c, x) == Blank);
        forall v, w ensures TouchAll(ops, c, v) == TouchAll(ops, c, w) {
          assert Touch(last, c, TouchAll(front, c, v)) == Touch(last, c, x);
          assert Touch(last, c, TouchAll(front, c, w)) == Touch(last, c, x);
        }
      }
    }
  }

  lemma {:induction false} TouchAllConcat(a: seq<Op>, b: seq<Op>, c: Cell, v: Value)
    ensures TouchAll(a + b, c, v) == TouchAll(b, c, TouchAll(a, c, v))
    decreases |b|
  {
    if b == [] {
      assert a + b == a;
    } else {
      assert (a + b)[..|a + b| - 1] == a + b[..|b| - 1];
      TouchAllConcat(a, b[..|b| - 1], c, v);
    }
  }

  lemma PrefixOnCell(a: seq<Op>, b: seq<Op>, c: Cell, v: Value)
    ensures TouchAll(a + b, c, TouchAll(a, c, v)) == TouchAll(a + b, c, v)
  {
    var w := TouchAll(a, c, v);
    TouchAllConcat(a, b, c, v);
    TouchAllConcat(a, b, c, w);
    BatchOnCell(a, c);
    BatchOnCell(b, c);
  }

  /** Executing any first part of a batch before the whole of it changes nothing. */
  lemma PrefixAbsorbed(d: Device, a: seq<Op>, b: seq<Op>)
    ensures ApplyAll(ApplyAll(d, a), a + b) == ApplyAll(d, a + b)
  {
    var first, whole := ApplyAll(d, a), ApplyAll(d, a + b);
    forall c ensures Read(ApplyAll(first, a + b), c) == Read(whole, c) {
      ApplyAllTouchesCells(d, a, c);
      ApplyAllTouchesCells(d, a + b, c);
      ApplyAllTouchesCells(first, a + b, c);
      PrefixOnCell(a, b, c, Read(d, c));
    }
    CellsDetermineDevice(ApplyAll(first, a + b), whole);
  }

  /** Replaying a whole batch right after itself changes nothing, whatever the batch. */
  lemma ReplayIdempotent(d: Device, ops: seq<Op>)
    ensures ApplyAll(ApplyAll(d, ops), ops) == ApplyAll(d, ops)
  {
    var once := ApplyAll(d, ops);
    forall c ensures Read(ApplyAll(once, ops), c) == Read(once, c) {
      ApplyAllTouchesCells(d, ops, c);
      ApplyAllTouchesCells(once, ops, c);
      BatchOnCell(ops, c);
    }
    CellsDetermineDevice(ApplyAll(once, ops), once);
  }

  /** Replaying only the first part of a batch is not harmless: the peer removed last would come back. */
  lemma PartialReplayDiverges()
    ensures var add := AddPeer("wg0", "K", {"10.0.0.2/32"}, "", 0);
            var batch := [add, RemovePeer("wg0", "K")];
            var d := Device(map[], map[], map[]);
            ApplyAll(ApplyAll(d, batch), [add]) != ApplyAll(d, batch)
  {
    var add := AddPeer("wg0", "K", {"10.0.0.2/32"}, "", 0);
    var batch := [add, RemovePeer("wg0", "K")];
    var d := Device(map[], map[], map[]);
    var c := Present(("wg0", "K"));
    ApplyAllTouchesCells(d, batch, c);
    ApplyAllTouchesCells(ApplyAll(d, batch), [add], c);
    assert Read(ApplyAll(ApplyAll(d, batch), [add]), c) == Flag;
    assert Read(ApplyAll(d, batch), c) == Blank;
  }
}
