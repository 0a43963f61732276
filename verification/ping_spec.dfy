/** What one agent ping does to the tables, and what that gives over runs of pings. */
module PingSpec {
  import opened Wrappers
  import opened Strings
  import opened Table
  import opened Store

  /** `ip` and `port` are what the handler extracts from the reported endpoint text. */
  datatype ReportedPeer = ReportedPeer(publicKey: string, ip: string, port: int, allowedIps: seq<string>,
                                       latestHandshake: int, rx: int, tx: int, keepalive: int, available: bool)

  datatype ReportedIface = ReportedIface(publicKey: string, name: string, config: IfaceConfig, peers: seq<ReportedPeer>)

  /** `executed` names the removals whose execution the agent reports. */
  datatype Request = Request(executed: seq<nat>, ifaces: seq<ReportedIface>)

  function StatsOf(p: ReportedPeer): Stats {
    Stats(p.ip, p.port, Join(p.allowedIps, ','), p.keepalive, p.available,
          if p.latestHandshake > 0 then Some(p.latestHandshake) else None, p.rx, p.tx)
  }

  function PeerName(publicKey: string): string {
    if |publicKey| <= 8 then "peer-" + publicKey else "peer-" + publicKey[..8]
  }

  function MarkRemoval(removals: seq<Removal>, id: nat): seq<Removal> {
    if id < |removals| then removals[id := removals[id].(pending := false)] else removals
  }

  function MarkRemovals(removals: seq<Removal>, executed: seq<nat>): seq<Removal> {
    if executed == [] then removals
    else MarkRemoval(MarkRemovals(removals, executed[..|executed| - 1]), executed[|executed| - 1])
  }

  /** The inner loop: one endpoint per reported peer, and the ids of the peers seen. */
  function UpsertPeers(db: Db, host: Id, org: Id, iface: Id, peers: seq<ReportedPeer>): (Db, set<Id>) {
    if peers == [] then (db, {})
    else
      var (mid, active) := UpsertPeers(db, host, org, iface, peers[..|peers| - 1]);
      UpsertPeer(mid, active, host, org, iface, peers[|peers| - 1])
  }

  function UpsertPeer(db: Db, active: set<Id>, host: Id, org: Id, iface: Id, p: ReportedPeer): (Db, set<Id>) {
    if p.publicKey == "" || HasPendingRemovePeer(db, host, p.publicKey) then (db, active)
    else
      var (found, id) := FindOrCreatePeer(db, PeerKey(org, p.publicKey), PeerName(p.publicKey));
      (UpsertEndpoint(found, EndpointKey(iface, id), StatsOf(p)), active + {id})
  }

  /** The body of the outer loop. */
  function ReconcileIface(db: Db, host: Id, org: Id, r: ReportedIface): Db {
    if r.publicKey == "" then db
    else
      var (d1, own) := FindOrCreatePeer(db, PeerKey(org, r.publicKey), PeerName(r.publicKey));
      var (d2, iface) := FindOrCreateIface(d1, IfaceKey(host, r.name), IfaceData(own, r.config));
      var (d3, active) := UpsertPeers(d2, host, org, iface, r.peers);
      SyncInterfacePeers(d3, iface, active)
  }

  function Reconcile(db: Db, host: Id, org: Id, rs: seq<ReportedIface>): Db {
    if rs == [] then db
    else ReconcileIface(Reconcile(db, host, org, rs[..|rs| - 1]), host, org, rs[|rs| - 1])
  }

  /** An unknown host is told so, after the reports were taken. */
  function Ping(db: Db, host: Id, req: Request): Db {
    var marked := db.(removals := MarkRemovals(db.removals, req.executed));
    if host in db.hosts then Reconcile(marked, host, db.hosts[host], req.ifaces) else marked
  }

  // ---- The reference: what should be stored afterwards ----------------------------------------

  /** The last report about a key that is neither empty nor being removed from the host. */
  function Reported(db: Db, host: Id, org: Id, peers: seq<ReportedPeer>, k: PeerKey): Option<Stats> {
    if peers == [] then None
    else
      var p := peers[|peers| - 1];
      if k == PeerKey(org, p.publicKey) && p.publicKey != "" && !HasPendingRemovePeer(db, host, p.publicKey)
      then Some(StatsOf(p))
      else Reported(db, host, org, peers[..|peers| - 1], k)
  }

  /** The last keyed report about an interface name of the host, if any. */
  function LastReport(host: Id, rs: seq<ReportedIface>, k: IfaceKey): Option<ReportedIface> {
    if rs == [] then None
    else
      var r := rs[|rs| - 1];
      if r.publicKey != "" && k == IfaceKey(host, r.name) then Some(r) else LastReport(host, rs[..|rs| - 1], k)
  }

  predicate AnyKeyed(rs: seq<ReportedIface>) {
    rs != [] && (rs[|rs| - 1].publicKey != "" || AnyKeyed(rs[..|rs| - 1]))
  }

  ghost predicate SameOthers(db: Db, after: Db) {
    after.removals == db.removals && after.hosts == db.hosts
  }

  // ---- One interface ------------------------------------------------------------------------

  lemma {:induction false} UpsertPeerEffect(db: Db, active: set<Id>, host: Id, org: Id, iface: Id, p: ReportedPeer)
    requires Ok(db) && iface in db.ifaces.rows
    ensures var (after, active') := UpsertPeer(db, active, host, org, iface, p);
            && Ok(after) && after.ifaces == db.ifaces && SameOthers(db, after)
            && (forall k :: k in db.peers.index ==> k in after.peers.index && after.peers.index[k] == db.peers.index[k])
  {
    if p.publicKey != "" && !HasPendingRemovePeer(db, host, p.publicKey) {
      var key := PeerKey(org, p.publicKey);
      FindOrCreatePeerKeeps(db, key, PeerName(p.publicKey));
      var (found, id) := FindOrCreatePeer(db, key, PeerName(p.publicKey));
      UpsertEndpointKeeps(found, EndpointKey(iface, id), StatsOf(p));
    }
  }

  lemma {:induction false} UpsertPeerView(db: Db, active: set<Id>, host: Id, org: Id, iface: Id, p: ReportedPeer,
      l: Label)
    requires Ok(db) && iface in db.ifaces.rows && Ok(UpsertPeer(db, active, host, org, iface, p).0)
    ensures var after := UpsertPeer(db, active, host, org, iface, p).0;
            var last := Reported(db, host, org, [p], l.peer);
            && StoredAt(after, l) == (if l.iface == db.ifaces.rows[iface].key && last.Some? then last
                else StoredAt(db, l))
            && IfaceAt(after, l.iface) == IfaceAt(db, l.iface)
  {
    assert [p][..0] == [];
    if p.publicKey != "" && !HasPendingRemovePeer(db, host, p.publicKey) {
      var key := PeerKey(org, p.publicKey);
      FindOrCreatePeerKeeps(db, key, PeerName(p.publicKey));
      FindOrCreatePeerView(db, key, PeerName(p.publicKey), l);
      var (found, id) := FindOrCreatePeer(db, key, PeerName(p.publicKey));
      UpsertEndpointView(found, EndpointKey(iface, id), StatsOf(p), l);
    }
  }

  lemma {:induction false} UpsertPeersEffect(db: Db, host: Id, org: Id, iface: Id, peers: seq<ReportedPeer>)
    requires Ok(db) && iface in db.ifaces.rows
    ensures var after := UpsertPeers(db, host, org, iface, peers).0;
            Ok(after) && after.ifaces == db.ifaces && SameOthers(db, after)
    decreases |peers|
  {
    if peers != [] {
      UpsertPeersEffect(db, host, org, iface, peers[..|peers| - 1]);
      var (mid, active) := UpsertPeers(db, host, org, iface, peers[..|peers| - 1]);
      UpsertPeerEffect(mid, active, host, org, iface, peers[|peers| - 1]);
    }
  }

  /** `k` was seen: it has an id, and that id is in `active`. */
  predicate Seen(db: Db, active: set<Id>, k: PeerKey) {
    k in db.peers.index && db.peers.index[k] in active
  }

  lemma UpsertPeerActive(db: Db, active: set<Id>, host: Id, org: Id, iface: Id, p: ReportedPeer, k: PeerKey)
    requires Ok(db) && iface in db.ifaces.rows && active <= db.peers.rows.Keys
    ensures var (after, active') := UpsertPeer(db, active, host, org, iface, p);
            && active' <= after.peers.rows.Keys
            && (Seen(after, active', k) <==> Seen(db, active, k) || Reported(db, host, org, [p], k).Some?)
  {
    assert [p][..0] == [];
    if p.publicKey != "" && !HasPendingRemovePeer(db, host, p.publicKey) {
      FindOrCreatePeerKeeps(db, PeerKey(org, p.publicKey), PeerName(p.publicKey));
    }
  }

  /** `active` holds the ids of exactly the peers reported. */
  lemma {:induction false} UpsertPeersActive(db: Db, host: Id, org: Id, iface: Id, peers: seq<ReportedPeer>, k: PeerKey)
    requires Ok(db) && iface in db.ifaces.rows
    ensures var (after, active) := UpsertPeers(db, host, org, iface, peers);
            && active <= after.peers.rows.Keys
            && (Seen(after, active, k) <==> Reported(db, host, org, peers, k).Some?)
    decreases |peers|
  {
    if peers != [] {
      var front, p := peers[..|peers| - 1], peers[|peers| - 1];
      UpsertPeersEffect(db, host, org, iface, front);
      UpsertPeersActive(db, host, org, iface, front, k);
      var (mid, active) := UpsertPeers(db, host, org, iface, front);
      UpsertPeerActive(mid, active, host, org, iface, p, k);
      ReportedDependsOnRemovals(db, mid, host, org, [p], k);
      assert [p][..0] == [];
    }
  }

  lemma {:induction false} UpsertPeersView(db: Db, host: Id, org: Id, iface: Id, peers: seq<ReportedPeer>, l: Label)
    requires Ok(db) && iface in db.ifaces.rows && Ok(UpsertPeers(db, host, org, iface, peers).0)
    ensures var after := UpsertPeers(db, host, org, iface, peers).0;
            var last := Reported(db, host, org, peers, l.peer);
            && StoredAt(after, l) == (if l.iface == db.ifaces.rows[iface].key && last.Some? then last
                else StoredAt(db, l))
            && IfaceAt(after, l.iface) == IfaceAt(db, l.iface)
    decreases |peers|
  {
    if peers != [] {
      var front, p := peers[..|peers| - 1], peers[|peers| - 1];
      UpsertPeersEffect(db, host, org, iface, front);
      UpsertPeersView(db, host, org, iface, front, l);
      var (mid, active) := UpsertPeers(db, host, org, iface, front);
      UpsertPeerView(mid, active, host, org, iface, p, l);
      ReportedDependsOnRemovals(db, mid, host, org, [p], l.peer);
      assert [p][..0] == [];
    }
  }

  lemma ReconcileIfaceEffect(db: Db, host: Id, org: Id, r: ReportedIface)
    requires Ok(db)
    ensures var after := ReconcileIface(db, host, org, r);
            Ok(after) && SameOthers(db, after) && (r.publicKey != "" ==> NoOrphans(after))
  {
    if r.publicKey != "" {
      FindOrCreatePeerKeeps(db, PeerKey(org, r.publicKey), PeerName(r.publicKey));
      var (d1, own) := FindOrCreatePeer(db, PeerKey(org, r.publicKey), PeerName(r.publicKey));
      FindOrCreateIfaceKeeps(d1, IfaceKey(host, r.name), IfaceData(own, r.config));
      var (d2, iface) := FindOrCreateIface(d1, IfaceKey(host, r.name), IfaceData(own, r.config));
      UpsertPeersEffect(d2, host, org, iface, r.peers);
      var (d3, active) := UpsertPeers(d2, host, org, iface, r.peers);
      SyncKeeps(d3, iface, active);
    }
  }

  /** A keyed interface ends up with exactly its reported peers and its reported configuration. */
  lemma ReconcileIfaceView(db: Db, host: Id, org: Id, r: ReportedIface, l: Label)
    requires Ok(db) && r.publicKey != "" && Ok(ReconcileIface(db, host, org, r))
    ensures var after := ReconcileIface(db, host, org, r);
            var mine := l.iface == IfaceKey(host, r.name);
            && StoredAt(after, l) == (if mine then Reported(db, host, org, r.peers, l.peer) else StoredAt(db, l))
            && IfaceAt(after, l.iface) == (if mine then Some((PeerKey(org, r.publicKey), r.config))
                else IfaceAt(db, l.iface))
  {
    var key, ikey := PeerKey(org, r.publicKey), IfaceKey(host, r.name);
    FindOrCreatePeerKeeps(db, key, PeerName(r.publicKey));
    FindOrCreatePeerView(db, key, PeerName(r.publicKey), l);
    var (d1, own) := FindOrCreatePeer(db, key, PeerName(r.publicKey));
    FindOrCreateIfaceKeeps(d1, ikey, IfaceData(own, r.config));
    FindOrCreateIfaceView(d1, ikey, IfaceData(own, r.config), l);
    var (d2, iface) := FindOrCreateIface(d1, ikey, IfaceData(own, r.config));
    UpsertPeersEffect(d2, host, org, iface, r.peers);
    UpsertPeersActive(d2, host, org, iface, r.peers, l.peer);
    UpsertPeersView(d2, host, org, iface, r.peers, l);
    var (d3, active) := UpsertPeers(d2, host, org, iface, r.peers);
    SyncKeeps(d3, iface, active);
    SyncView(d3, iface, active, l);
    ReportedDependsOnRemovals(db, d2, host, org, r.peers, l.peer);
  }

  lemma {:induction false} ReportedDependsOnRemovals(db: Db, other: Db, host: Id, org: Id, peers: seq<ReportedPeer>,
      k: PeerKey)
    requires db.removals == other.removals
    ensures Reported(db, host, org, peers, k) == Reported(other, host, org, peers, k)
    decreases |peers|
  {
    if peers != [] {
      ReportedDependsOnRemovals(db, other, host, org, peers[..|peers| - 1], k);
    }
  }

  lemma {:induction false} PendingReportsNothing(db: Db, host: Id, org: Id, peers: seq<ReportedPeer>, k: PeerKey)
    requires HasPendingRemovePeer(db, host, k.publicKey)
    ensures Reported(db, host, org, peers, k) == None
    decreases |peers|
  {
    if peers != [] {
      PendingReportsNothing(db, host, org, peers[..|peers| - 1], k);
    }
  }

  // ---- The whole ping -------------------------------------------------------------------------

  lemma {:induction false} ReconcileEffect(db: Db, host: Id, org: Id, rs: seq<ReportedIface>)
    requires Ok(db)
    ensures var after := Reconcile(db, host, org, rs);
            && Ok(after) && SameOthers(db, after)
            && (AnyKeyed(rs) ==> NoOrphans(after))
    decreases |rs|
  {
    if rs != [] {
      var front, last := rs[..|rs| - 1], rs[|rs| - 1];
      ReconcileEffect(db, host, org, front);
      ReconcileIfaceEffect(Reconcile(db, host, org, front), host, org, last);
    }
  }

  lemma {:induction false} ReconcileView(db: Db, host: Id, org: Id, rs: seq<ReportedIface>, l: Label)
    requires Ok(db) && Ok(Reconcile(db, host, org, rs))
    ensures var after := Reconcile(db, host, org, rs);
            match LastReport(host, rs, l.iface)
            case Some(r) =>
              StoredAt(after, l) == Reported(db, host, org, r.peers, l.peer) &&
              IfaceAt(after, l.iface) == Some((PeerKey(org, r.publicKey), r.config))
            case None => StoredAt(after, l) == StoredAt(db, l) && IfaceAt(after, l.iface) == IfaceAt(db, l.iface)
    decreases |rs|
  {
    if rs != [] {
      var front, last := rs[..|rs| - 1], rs[|rs| - 1];
      ReconcileEffect(db, host, org, front);
      ReconcileView(db, host, org, front, l);
      var mid := Reconcile(db, host, org, front);
      if last.publicKey != "" {
        ReconcileIfaceView(mid, host, org, last, l);
        ReportedDependsOnRemovals(db, mid, host, org, last.peers, l.peer);
      }
    }
  }

  lemma {:induction false} LastReportHost(host: Id, rs: seq<ReportedIface>, k: IfaceKey)
    ensures LastReport(host, rs, k).Some? ==> k == IfaceKey(host, k.name)
    decreases |rs|
  {
    if rs != [] {
      LastReportHost(host, rs[..|rs| - 1], k);
    }
  }

  /**
   * Ping reconciliation. After a ping of a known host: an interface reported with a key holds exactly
   * the reported peers that have a key and no pending removal, with the reported fields, the last
   * report winning; every other endpoint and interface is untouched; constraints hold; and if any
   * keyed interface was reported, no peer is left that nothing refers to.
   */
  lemma PingReconciles(db: Db, host: Id, req: Request)
    requires Ok(db) && host in db.hosts
    ensures var after := Ping(db, host, req);
            && Ok(after)
            && (AnyKeyed(req.ifaces) ==> NoOrphans(after))
            && forall l: Label ::
                 match LastReport(host, req.ifaces, l.iface)
                 case Some(r) =>
                   StoredAt(after, l) == Reported(after, host, db.hosts[host], r.peers, l.peer) &&
                   IfaceAt(after, l.iface) == Some((PeerKey(db.hosts[host], r.publicKey), r.config))
                 case None => StoredAt(after, l) == StoredAt(db, l) && IfaceAt(after, l.iface) == IfaceAt(db, l.iface)
  {
    var marked := db.(removals := MarkRemovals(db.removals, req.executed));
    var org := db.hosts[host];
    ReconcileEffect(marked, host, org, req.ifaces);
    var after := Ping(db, host, req);
    forall l: Label
      ensures match LastReport(host, req.ifaces, l.iface)
              case Some(r) =>
                StoredAt(after, l) == Reported(after, host, org, r.peers, l.peer) &&
                IfaceAt(after, l.iface) == Some((PeerKey(org, r.publicKey), r.config))
              case None => StoredAt(after, l) == StoredAt(db, l) && IfaceAt(after, l.iface) == IfaceAt(db, l.iface)
    {
      ReconcileView(marked, host, org, req.ifaces, l);
      if LastReport(host, req.ifaces, l.iface).Some? {
        ReportedDependsOnRemovals(marked, after, host, org, LastReport(host, req.ifaces, l.iface).value.peers, l.peer);
      }
    }
  }

  // ---- Repeating a ping ----------------------------------------------------------------------

  /** Same rows under the same ids; only the stored statistics may differ. */
  ghost predicate SameRows(db: Db, after: Db) {
    && after.peers == db.peers && after.ifaces == db.ifaces && after.next == db.next && SameOthers(db, after)
    && after.endpoints.index == db.endpoints.index && after.endpoints.rows.Keys == db.endpoints.rows.Keys
    && forall e :: e in db.endpoints.rows ==> after.endpoints.rows[e].key == db.endpoints.rows[e].key
  }

  /** A peer whose endpoint exists already is only updated. */
  lemma UpsertPeerInPlace(db: Db, active: set<Id>, host: Id, org: Id, iface: Id, p: ReportedPeer)
    requires Ok(db) && iface in db.ifaces.rows
    requires var k := PeerKey(org, p.publicKey);
             Reported(db, host, org, [p], k).Some? ==> StoredAt(db, Label(db.ifaces.rows[iface].key, k)).Some?
    ensures SameRows(db, UpsertPeer(db, active, host, org, iface, p).0)
  {
  }

  lemma {:induction false} UpsertPeersInPlace(db: Db, host: Id, org: Id, iface: Id, peers: seq<ReportedPeer>)
    requires Ok(db) && iface in db.ifaces.rows
    requires forall k :: Reported(db, host, org, peers, k).Some? ==>
             StoredAt(db, Label(db.ifaces.rows[iface].key, k)).Some?
    ensures SameRows(db, UpsertPeers(db, host, org, iface, peers).0)
    decreases |peers|
  {
    if peers != [] {
      var front, p := peers[..|peers| - 1], peers[|peers| - 1];
      UpsertPeersInPlace(db, host, org, iface, front);
      UpsertPeersEffect(db, host, org, iface, front);
      var (mid, active) := UpsertPeers(db, host, org, iface, front);
      var k := PeerKey(org, p.publicKey);
      assert [p][..0] == [];
      ReportedDependsOnRemovals(db, mid, host, org, [p], k);
      UpsertPeersView(db, host, org, iface, front, Label(db.ifaces.rows[iface].key, k));
      UpsertPeerInPlace(mid, active, host, org, iface, p);
    }
  }

  lemma {:induction false} SyncSettled(db: Db, iface: Id, active: set<Id>)
    requires Ok(db) && NoOrphans(db)
    requires forall e :: e in db.endpoints.rows && db.endpoints.rows[e].key.iface == iface ==>
             db.endpoints.rows[e].key.peer in active
    ensures SyncInterfacePeers(db, iface, active) == db
  {
    KeepAll(db.endpoints, db.next, Surviving(db, iface, active));
    KeepAll(db.peers, db.next, ReferencedPeers(db));
  }

  lemma {:induction false} MarkRemovalsAt(removals: seq<Removal>, executed: seq<nat>)
    ensures var after := MarkRemovals(removals, executed);
            && |after| == |removals|
            && forall i :: 0 <= i < |removals| ==>
                after[i] == if i in executed then removals[i].(pending := false) else removals[i]
    decreases |executed|
  {
    if executed != [] {
      MarkRemovalsAt(removals, executed[..|executed| - 1]);
      assert executed == executed[..|executed| - 1] + [executed[|executed| - 1]];
    }
  }
}
