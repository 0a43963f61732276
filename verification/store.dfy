/** The API's tables as values, and the SQL statements a ping runs on them. */
module Store {
  import opened Wrappers
  import opened Table

  datatype PeerKey = PeerKey(org: Id, publicKey: string)
  datatype IfaceKey = IfaceKey(host: Id, name: string)
  datatype EndpointKey = EndpointKey(iface: Id, peer: Id)

  datatype IfaceConfig = IfaceConfig(listenPort: int, fwmark: int, up: bool, address: string, dns: string, mtu: int)

  datatype IfaceData = IfaceData(peer: Id, config: IfaceConfig)

  datatype Stats = Stats(ip: string, port: int, allowedIps: string, keepalive: int, available: bool,
                         lastHandshake: Option<int>, rx: int, tx: int)

  /** A `remove_peer` row of the desired changes. */
  datatype Removal = Removal(host: Id, iface: string, publicKey: string, pending: bool)

  datatype Db = Db(
    hosts: map<Id, Id>,                          // host -> organisation
    peers: Table<PeerKey, string>,               // the value is the display name
    ifaces: Table<IfaceKey, IfaceData>,
    endpoints: Table<EndpointKey, Stats>,
    removals: seq<Removal>,
    next: Id)

  /** UNIQUE constraints and foreign keys. */
  ghost predicate Ok(db: Db) {
    && Consistent(db.peers, db.next) && Consistent(db.ifaces, db.next) && Consistent(db.endpoints, db.next)
    && (forall i :: i in db.ifaces.rows ==> db.ifaces.rows[i].value.peer in db.peers.rows)
    && (forall e :: e in db.endpoints.rows ==>
          db.endpoints.rows[e].key.iface in db.ifaces.rows && db.endpoints.rows[e].key.peer in db.peers.rows)
  }

  // ---- Reading the tables without their ids -------------------------------------------------

  datatype Label = Label(iface: IfaceKey, peer: PeerKey)

  /** The endpoint stored for a label, found the way a join would find it. */
  function StoredAt(db: Db, l: Label): Option<Stats>
    requires Ok(db)
  {
    if l.iface in db.ifaces.index && l.peer in db.peers.index &&
       EndpointKey(db.ifaces.index[l.iface], db.peers.index[l.peer]) in db.endpoints.index
    then Some(db.endpoints.rows[db.endpoints.index[EndpointKey(db.ifaces.index[l.iface],
        db.peers.index[l.peer])]].value)
    else None
  }

  /** An interface's own key and its configuration. */
  function IfaceAt(db: Db, k: IfaceKey): Option<(PeerKey, IfaceConfig)>
    requires Ok(db)
  {
    if k in db.ifaces.index
    then
      var data := db.ifaces.rows[db.ifaces.index[k]].value;
      Some((db.peers.rows[data.peer].key, data.config))
    else None
  }

  /** The peers some endpoint or some interface refers to. */
  function ReferencedPeers(db: Db): set<Id> {
    (set e | e in db.endpoints.rows :: db.endpoints.rows[e].key.peer)
        + (set i | i in db.ifaces.rows :: db.ifaces.rows[i].value.peer)
  }

  ghost predicate NoOrphans(db: Db) {
    db.peers.rows.Keys <= ReferencedPeers(db)
  }

  // ---- Statements --------------------------------------------------------------------------

  function FindOrCreatePeer(db: Db, key: PeerKey, name: string): (Db, Id) {
    if key in db.peers.index then (db, db.peers.index[key])
    else (db.(peers := Insert(db.peers, db.next, key, name), next := db.next + 1), db.next)
  }

  function FindOrCreateIface(db: Db, key: IfaceKey, data: IfaceData): (Db, Id) {
    if key in db.ifaces.index then
      var i := db.ifaces.index[key];
      (db.(ifaces := Update(db.ifaces, i, data)), i)
    else (db.(ifaces := Insert(db.ifaces, db.next, key, data), next := db.next + 1), db.next)
  }

  function UpsertEndpoint(db: Db, key: EndpointKey, stats: Stats): Db {
    if key in db.endpoints.index then db.(endpoints := Update(db.endpoints, db.endpoints.index[key], stats))
    else db.(endpoints := Insert(db.endpoints, db.next, key, stats), next := db.next + 1)
  }

  /** The endpoint rows that survive: those of other interfaces, and those of active peers. */
  function Surviving(db: Db, iface: Id, active: set<Id>): set<Id> {
    set e | e in db.endpoints.rows &&
        (db.endpoints.rows[e].key.iface != iface || db.endpoints.rows[e].key.peer in active)
  }

  function SyncInterfacePeers(db: Db, iface: Id, active: set<Id>): Db {
    DeleteOrphans(db.(endpoints := Keep(db.endpoints, Surviving(db, iface, active))))
  }

  function DeleteOrphans(db: Db): Db {
    db.(peers := Keep(db.peers, ReferencedPeers(db)))
  }

  predicate HasPendingRemovePeer(db: Db, host: Id, publicKey: string) {
    exists r :: r in db.removals && r.host == host && r.publicKey == publicKey && r.pending
  }

  // ---- What each statement does to what is stored --------------------------------------------

  lemma FindOrCreatePeerKeeps(db: Db, key: PeerKey, name: string)
    requires Ok(db)
    ensures var (after, p) := FindOrCreatePeer(db, key, name);
            && Ok(after) && key in after.peers.index && after.peers.index[key] == p
            && after.ifaces == db.ifaces && after.removals == db.removals && after.hosts == db.hosts
            && (forall k :: k in db.peers.index ==> k in after.peers.index && after.peers.index[k] == db.peers.index[k])
  {
    if key !in db.peers.index {
      InsertConsistent(db.peers, db.next, key, name);
    }
  }

  lemma FindOrCreatePeerView(db: Db, key: PeerKey, name: string, l: Label)
    requires Ok(db) && Ok(FindOrCreatePeer(db, key, name).0)
    ensures StoredAt(FindOrCreatePeer(db, key, name).0, l) == StoredAt(db, l)
    ensures IfaceAt(FindOrCreatePeer(db, key, name).0, l.iface) == IfaceAt(db, l.iface)
  {
  }

  lemma FindOrCreateIfaceKeeps(db: Db, key: IfaceKey, data: IfaceData)
    requires Ok(db) && data.peer in db.peers.rows
    ensures var (after, i) := FindOrCreateIface(db, key, data);
            && Ok(after) && key in after.ifaces.index && after.ifaces.index[key] == i
            && after.peers == db.peers && after.removals == db.removals && after.hosts == db.hosts
  {
    if key in db.ifaces.index {
      UpdateConsistent(db.ifaces, db.next, db.ifaces.index[key], data);
    } else {
      InsertConsistent(db.ifaces, db.next, key, data);
    }
  }

  lemma FindOrCreateIfaceView(db: Db, key: IfaceKey, data: IfaceData, l: Label)
    requires Ok(db) && data.peer in db.peers.rows && Ok(FindOrCreateIface(db, key, data).0)
    ensures StoredAt(FindOrCreateIface(db, key, data).0, l) == StoredAt(db, l)
    ensures IfaceAt(FindOrCreateIface(db, key, data).0, l.iface) ==
            if l.iface == key then Some((db.peers.rows[data.peer].key, data.config)) else IfaceAt(db, l.iface)
  {
  }

  lemma UpsertEndpointKeeps(db: Db, key: EndpointKey, stats: Stats)
    requires Ok(db) && key.iface in db.ifaces.rows && key.peer in db.peers.rows
    ensures var after := UpsertEndpoint(db, key, stats);
            Ok(after) && after.peers == db.peers && after.ifaces == db.ifaces && after.removals == db.removals &&
                after.hosts == db.hosts
  {
    if key in db.endpoints.index {
      UpdateConsistent(db.endpoints, db.next, db.endpoints.index[key], stats);
    } else {
      InsertConsistent(db.endpoints, db.next, key, stats);
    }
  }

  lemma UpsertEndpointView(db: Db, key: EndpointKey, stats: Stats, l: Label)
    requires Ok(db) && key.iface in db.ifaces.rows && key.peer in db.peers.rows && Ok(UpsertEndpoint(db, key, stats))
    ensures StoredAt(UpsertEndpoint(db, key, stats), l) ==
            if l == Label(db.ifaces.rows[key.iface].key, db.peers.rows[key.peer].key) then Some(stats)
                else StoredAt(db, l)
    ensures IfaceAt(UpsertEndpoint(db, key, stats), l.iface) == IfaceAt(db, l.iface)
  {
  }

  lemma SyncKeeps(db: Db, iface: Id, active: set<Id>)
    requires Ok(db)
    ensures var after := SyncInterfacePeers(db, iface, active);
            Ok(after) && NoOrphans(after) && after.ifaces == db.ifaces && after.removals == db.removals &&
                after.hosts == db.hosts
  {
    var mid := db.(endpoints := Keep(db.endpoints, Surviving(db, iface, active)));
    KeepConsistent(db.endpoints, db.next, Surviving(db, iface, active));
    KeepConsistent(mid.peers, mid.next, ReferencedPeers(mid));
    var after := SyncInterfacePeers(db, iface, active);
    assert ReferencedPeers(after) == ReferencedPeers(mid);
  }

  /** Only the synchronised interface loses endpoints, and only those of inactive peers. */
  lemma {:induction false} SyncView(db: Db, iface: Id, active: set<Id>, l: Label)
    requires Ok(db) && Ok(SyncInterfacePeers(db, iface, active)) && iface in db.ifaces.rows
    ensures StoredAt(SyncInterfacePeers(db, iface, active), l) ==
            if l.iface == db.ifaces.rows[iface].key && l.peer in db.peers.index && db.peers.index[l.peer] !in active
            then None else StoredAt(db, l)
    ensures IfaceAt(SyncInterfacePeers(db, iface, active), l.iface) == IfaceAt(db, l.iface)
  {
    var mid := db.(endpoints := Keep(db.endpoints, Surviving(db, iface, active)));
    if l.iface in db.ifaces.index && l.peer in db.peers.index {
      var k := EndpointKey(db.ifaces.index[l.iface], db.peers.index[l.peer]);
      if k in mid.endpoints.index {
        assert mid.endpoints.rows[mid.endpoints.index[k]].key.peer in ReferencedPeers(mid);
      }
    }
    if l.iface in db.ifaces.index {
      assert db.ifaces.rows[db.ifaces.index[l.iface]].value.peer in ReferencedPeers(mid);
    }
  }

  // ---- Deleting a peer ---------------------------------------------------------------------

  /** One pending removal for every endpoint of `p` among the first `n` ids. */
  function RemovalsFor(db: Db, p: Id, n: Id): seq<Removal> {
    if n == 0 then []
    else RemovalsFor(db, p, n - 1) + RemovalOf(db, p, n - 1)
  }

  function RemovalOf(db: Db, p: Id, e: Id): seq<Removal> {
    if e in db.endpoints.rows && db.endpoints.rows[e].key.peer == p &&
        db.endpoints.rows[e].key.iface in db.ifaces.rows && p in db.peers.rows then
      var k := db.ifaces.rows[db.endpoints.rows[e].key.iface].key;
      [Removal(k.host, k.name, db.peers.rows[p].key.publicKey, true)]
    else []
  }

  function IfacesNotOf(db: Db, p: Id): set<Id> {
    set i | i in db.ifaces.rows && db.ifaces.rows[i].value.peer != p
  }

  function EndpointsNotOf(db: Db, p: Id): set<Id> {
    set e | e in db.endpoints.rows && db.endpoints.rows[e].key.peer != p &&
        db.endpoints.rows[e].key.iface in IfacesNotOf(db, p)
  }

  /** Deleting the peer cascades to the interfaces it owns and to every endpoint of either. */
  function DeletePeer(db: Db, p: Id): Db {
    db.(removals := db.removals + RemovalsFor(db, p, db.next),
        peers := Keep(db.peers, db.peers.rows.Keys - {p}),
        ifaces := Keep(db.ifaces, IfacesNotOf(db, p)),
        endpoints := Keep(db.endpoints, EndpointsNotOf(db, p)))
  }

  lemma {:induction false} RemovalsForCovers(db: Db, p: Id, n: Id, e: Id)
    requires e < n && RemovalOf(db, p, e) != []
    ensures RemovalOf(db, p, e)[0] in RemovalsFor(db, p, n)
  {
    if e < n - 1 {
      RemovalsForCovers(db, p, n - 1, e);
    }
  }

  /** Each endpoint of the peer has its removal among them. */
  lemma RemovalWritten(db: Db, p: Id, l: Label) returns (j: nat)
    requires Ok(db) && p in db.peers.rows && l.peer == db.peers.rows[p].key && StoredAt(db, l).Some?
    ensures j < |RemovalsFor(db, p, db.next)|
    ensures RemovalsFor(db, p, db.next)[j] == Removal(l.iface.host, l.iface.name, l.peer.publicKey, true)
  {
    var rows := RemovalsFor(db, p, db.next);
    var e := db.endpoints.index[EndpointKey(db.ifaces.index[l.iface], p)];
    RemovalsForCovers(db, p, db.next, e);
    j :| 0 <= j < |rows| && rows[j] == RemovalOf(db, p, e)[0];
  }

  lemma DeletePeerKeeps(db: Db, p: Id)
    requires Ok(db)
    ensures Ok(DeletePeer(db, p))
  {
    KeepConsistent(db.ifaces, db.next, IfacesNotOf(db, p));
    KeepConsistent(db.peers, db.next, db.peers.rows.Keys - {p});
    KeepConsistent(db.endpoints, db.next, EndpointsNotOf(db, p));
    DeletePeerReferences(db, p);
  }

  lemma DeletePeerReferences(db: Db, p: Id)
    requires Ok(db)
    ensures var after := DeletePeer(db, p);
            && (forall i :: i in after.ifaces.rows ==> after.ifaces.rows[i].value.peer in after.peers.rows)
            && (forall e :: e in after.endpoints.rows ==>
                  after.endpoints.rows[e].key.iface in after.ifaces.rows &&
                      after.endpoints.rows[e].key.peer in after.peers.rows)
  {
    var after := DeletePeer(db, p);
    forall e | e in after.endpoints.rows
      ensures after.endpoints.rows[e].key.iface in after.ifaces.rows &&
              after.endpoints.rows[e].key.peer in after.peers.rows
    {
      assert e in EndpointsNotOf(db, p);
    }
  }

  /** The peer is gone from every host, and every host that had it is asked to remove it. */
  lemma DeletePeerView(db: Db, p: Id, l: Label)
    requires Ok(db) && Ok(DeletePeer(db, p)) && p in db.peers.rows
    ensures l.peer == db.peers.rows[p].key ==> StoredAt(DeletePeer(db, p), l) == None
    ensures l.peer == db.peers.rows[p].key && StoredAt(db, l).Some? ==>
              HasPendingRemovePeer(DeletePeer(db, p), l.iface.host, l.peer.publicKey)
  {
    if l.peer == db.peers.rows[p].key && StoredAt(db, l).Some? {
      var j := RemovalWritten(db, p, l);
      assert RemovalsFor(db, p, db.next)[j] in DeletePeer(db, p).removals;
    }
  }

  /** Deleting a peer never brings an endpoint into being. */
  lemma DeletePeerOnlyRemoves(db: Db, p: Id, l: Label)
    requires Ok(db) && Ok(DeletePeer(db, p)) && StoredAt(db, l) == None
    ensures StoredAt(DeletePeer(db, p), l) == None
  {
  }
}
