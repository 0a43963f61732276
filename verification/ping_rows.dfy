/** Exactly when repeating a ping keeps every row under its id. */
module PingRows {
  import opened Wrappers
  import opened Table
  import opened Store
  import opened PingSpec
  import opened PingRepeat

  /** The keys of the reported peers that have one. */
  function KeysOf(peers: seq<ReportedPeer>): set<string> {
    set p | p in peers && p.publicKey != "" :: p.publicKey
  }

  /** All keyed reports of one interface name list the same keys. */
  predicate SameKeys(rs: seq<ReportedIface>) {
    forall i, j :: 0 <= i < j < |rs| && rs[i].publicKey != "" && rs[j].publicKey != "" && rs[i].name == rs[j].name ==>
      KeysOf(rs[i].peers) == KeysOf(rs[j].peers)
  }

  /** The own key of every interface reported with one, the last report winning. */
  function Owners(rs: seq<ReportedIface>): map<string, string> {
    if rs == [] then map[]
    else
      var front, r := rs[..|rs| - 1], rs[|rs| - 1];
      if r.publicKey == "" then Owners(front) else Owners(front)[r.name := r.publicKey]
  }

  /** Reported on top of `owners`, each interface's own key belongs to some interface already. */
  predicate OwnKeysHeld(owners: map<string, string>, rs: seq<ReportedIface>) {
    rs == [] ||
    var front, r := rs[..|rs| - 1], rs[|rs| - 1];
    OwnKeysHeld(owners, front) && (r.publicKey == "" || r.publicKey in (owners + Owners(front)).Values)
  }

  /** What a request must be like for its repetition to keep all rows. */
  predicate Steady(rs: seq<ReportedIface>) {
    SameKeys(rs) && OwnKeysHeld(Owners(rs), rs)
  }

  // ---- Reports and owners ---------------------------------------------------------------------

  lemma {:induction false} ReportedIff(db: Db, host: Id, org: Id, peers: seq<ReportedPeer>, k: PeerKey)
    ensures Reported(db, host, org, peers, k).Some? <==>
            k.org == org && k.publicKey in KeysOf(peers) && !HasPendingRemovePeer(db, host, k.publicKey)
    decreases |peers|
  {
    if peers != [] {
      var front, p := peers[..|peers| - 1], peers[|peers| - 1];
      ReportedIff(db, host, org, front, k);
      assert peers == front + [p];
      assert KeysOf(peers) == KeysOf(front) + (if p.publicKey != "" then {p.publicKey} else {});
    }
  }

  lemma {:induction false} LastReportIs(host: Id, rs: seq<ReportedIface>, name: string)
    ensures match LastReport(host, rs, IfaceKey(host, name))
            case Some(r) => r in rs && r.publicKey != "" && r.name == name &&
              name in Owners(rs) && Owners(rs)[name] == r.publicKey
            case None => name !in Owners(rs) && forall r :: r in rs && r.publicKey != "" ==> r.name != name
    decreases |rs|
  {
    if rs != [] {
      LastReportIs(host, rs[..|rs| - 1], name);
      assert rs == rs[..|rs| - 1] + [rs[|rs| - 1]];
    }
  }

  lemma {:induction false} OwnersGrow(rs: seq<ReportedIface>, t: nat)
    requires t <= |rs|
    ensures Owners(rs[..t]).Keys <= Owners(rs).Keys
    decreases |rs|
  {
    if t < |rs| {
      OwnersGrow(rs[..|rs| - 1], t);
      assert rs[..|rs| - 1][..t] == rs[..t];
    } else {
      assert rs[..t] == rs;
    }
  }

  /** Keyed reports of one interface name agree on its own key. */
  predicate SameOwners(rs: seq<ReportedIface>) {
    forall i, j :: 0 <= i < j < |rs| && rs[i].publicKey != "" && rs[j].publicKey != "" && rs[i].name == rs[j].name ==>
      rs[i].publicKey == rs[j].publicKey
  }

  lemma {:induction false} OwnerOfAgreeing(rs: seq<ReportedIface>, i: nat)
    requires SameOwners(rs) && i < |rs| && rs[i].publicKey != ""
    ensures rs[i].name in Owners(rs) && Owners(rs)[rs[i].name] == rs[i].publicKey
    decreases |rs|
  {
    if i < |rs| - 1 {
      OwnerOfAgreeing(rs[..|rs| - 1], i);
    }
  }

  /** Then no own key is ever given up, and the request is steady if they list the same peers. */
  lemma {:induction false} AgreeingIsHeld(rs: seq<ReportedIface>, t: nat)
    requires SameOwners(rs) && t <= |rs|
    ensures OwnKeysHeld(Owners(rs), rs[..t])
  {
    if t > 0 {
      var front, r := rs[..t - 1], rs[t - 1];
      AgreeingIsHeld(rs, t - 1);
      assert rs[..t][..t - 1] == front;
      if r.publicKey != "" {
        OwnerOfAgreeing(rs, t - 1);
        assert (Owners(rs) + Owners(front))[r.name] == r.publicKey by {
          if r.name in Owners(front) {
            LastReportIs(0, front, r.name);
          }
        }
      }
    }
  }

  /** So a request that agrees on own keys is steady exactly when it agrees on the peers' keys. */
  lemma AgreeingIsSteadyIff(rs: seq<ReportedIface>)
    requires SameOwners(rs)
    ensures Steady(rs) <==> SameKeys(rs)
  {
    AgreeingIsHeld(rs, |rs|);
    assert rs[..|rs|] == rs;
  }

  // ---- A steady request keeps the rows ----------------------------------------------------------

  ghost predicate SameTableIds<K, V>(a: Table<K, V>, b: Table<K, V>) {
    b.index == a.index && b.rows.Keys == a.rows.Keys && forall i :: i in a.rows ==> b.rows[i].key == a.rows[i].key
  }

  /** Same rows under the same ids, whatever they hold beside their keys. */
  ghost predicate SameIds(a: Db, b: Db) {
    b.peers == a.peers && SameTableIds(a.ifaces, b.ifaces) && SameTableIds(a.endpoints, b.endpoints)
    && b.next == a.next && SameOthers(a, b)
  }

  lemma SameIdsStored(a: Db, b: Db, l: Label)
    requires Ok(a) && Ok(b) && SameIds(a, b)
    ensures StoredAt(b, l).Some? <==> StoredAt(a, l).Some?
  {
  }

  /** With the same contents under the same ids nothing differs. */
  lemma SameIdsSameContents(a: Db, b: Db)
    requires Ok(a) && Ok(b) && SameIds(a, b)
    requires forall l :: StoredAt(a, l) == StoredAt(b, l)
    requires forall i :: IfaceAt(a, i) == IfaceAt(b, i)
    ensures a == b
  {
    forall e | e in a.endpoints.rows ensures b.endpoints.rows[e] == a.endpoints.rows[e] {
      var key := a.endpoints.rows[e].key;
      var l := Label(a.ifaces.rows[key.iface].key, a.peers.rows[key.peer].key);
      assert EndpointKey(a.ifaces.index[l.iface], a.peers.index[l.peer]) == key;
      assert StoredAt(a, l) == StoredAt(b, l);
    }
    forall i | i in a.ifaces.rows ensures b.ifaces.rows[i] == a.ifaces.rows[i] {
      assert IfaceAt(a, a.ifaces.rows[i].key) == IfaceAt(b, a.ifaces.rows[i].key);
    }
    assert a.endpoints.rows == b.endpoints.rows && a.ifaces.rows == b.ifaces.rows;
  }

  /** The interface holds exactly the reported peers, whatever it holds about them. */
  ghost predicate HoldsReport(db: Db, host: Id, org: Id, r: ReportedIface)
    requires Ok(db)
  {
    forall k :: StoredAt(db, Label(IfaceKey(host, r.name), k)).Some? <==> Reported(db, host, org, r.peers, k).Some?
  }

  ghost predicate OwnedBy(db: Db, host: Id, org: Id, owners: map<string, string>)
    requires Ok(db)
  {
    forall name :: name in owners ==>
      IfaceAt(db, IfaceKey(host, name)).Some? && IfaceAt(db, IfaceKey(host, name)).value.0 == PeerKey(org, owners[name])
  }

  /** The interface's own key is to stay, or belongs to another interface as well. */
  ghost predicate CanLose(db: Db, ikey: IfaceKey, own: PeerKey)
    requires Ok(db) && ikey in db.ifaces.index
  {
    var was := IfaceAt(db, ikey).value.0;
    was == own || exists i :: i != ikey && IfaceAt(db, i).Some? && IfaceAt(db, i).value.0 == was
  }

  lemma OwnerMoved(db: Db, ikey: IfaceKey, own: Id, config: IfaceConfig)
    requires Ok(db) && NoOrphans(db) && own in db.peers.rows && ikey in db.ifaces.index
    requires CanLose(db, ikey, db.peers.rows[own].key)
    ensures var after := FindOrCreateIface(db, ikey, IfaceData(own, config)).0;
            NoOrphans(after) && SameIds(db, after)
  {
    var after := FindOrCreateIface(db, ikey, IfaceData(own, config)).0;
    forall p | p in db.peers.rows ensures p in ReferencedPeers(after) {
      StillReferenced(db, ikey, own, config, p);
    }
  }

  lemma StillReferenced(db: Db, ikey: IfaceKey, own: Id, config: IfaceConfig, p: Id)
    requires Ok(db) && NoOrphans(db) && own in db.peers.rows && ikey in db.ifaces.index && p in db.peers.rows
    requires CanLose(db, ikey, db.peers.rows[own].key)
    ensures p in ReferencedPeers(FindOrCreateIface(db, ikey, IfaceData(own, config)).0)
  {
    var after := FindOrCreateIface(db, ikey, IfaceData(own, config)).0;
    assert p in ReferencedPeers(db);
    if e :| e in db.endpoints.rows && db.endpoints.rows[e].key.peer == p {
      assert after.endpoints.rows[e].key.peer == p;
    } else {
      var i := OwnedElsewhere(db, ikey, own, p);
      assert after.ifaces.rows[i].value.peer == p;
    }
  }

  lemma OwnedElsewhere(db: Db, ikey: IfaceKey, own: Id, p: Id) returns (i: Id)
    requires Ok(db) && own in db.peers.rows && ikey in db.ifaces.index && p in db.peers.rows
    requires CanLose(db, ikey, db.peers.rows[own].key)
    requires exists i :: i in db.ifaces.rows && db.ifaces.rows[i].value.peer == p
    ensures i in db.ifaces.rows && db.ifaces.rows[i].value.peer == p && (i == db.ifaces.index[ikey] ==> p == own)
  {
    i :| i in db.ifaces.rows && db.ifaces.rows[i].value.peer == p;
    if i == db.ifaces.index[ikey] && p != own {
      var other :| other != ikey && IfaceAt(db, other).Some? && IfaceAt(db, other).value.0 == db.peers.rows[p].key;
      i := db.ifaces.index[other];
    }
  }

  lemma StepKeepsIds(db: Db, host: Id, org: Id, r: ReportedIface)
    requires Ok(db) && NoOrphans(db) && r.publicKey != "" && HoldsReport(db, host, org, r)
    requires PeerKey(org, r.publicKey) in db.peers.index && IfaceKey(host, r.name) in db.ifaces.index
    requires CanLose(db, IfaceKey(host, r.name), PeerKey(org, r.publicKey))
    ensures SameIds(db, ReconcileIface(db, host, org, r))
  {
    var ikey, own := IfaceKey(host, r.name), db.peers.index[PeerKey(org, r.publicKey)];
    var data := IfaceData(own, r.config);
    OwnerMoved(db, ikey, own, r.config);
    FindOrCreateIfaceKeeps(db, ikey, data);
    var (d2, iface) := FindOrCreateIface(db, ikey, data);
    forall k ensures StoredAt(d2, Label(ikey, k)).Some? <==> Reported(d2, host, org, r.peers, k).Some? {
      FindOrCreateIfaceView(db, ikey, data, Label(ikey, k));
      ReportedDependsOnRemovals(db, d2, host, org, r.peers, k);
    }
    PeersStay(d2, host, org, iface, r.peers);
  }

  lemma PeersStay(db: Db, host: Id, org: Id, iface: Id, peers: seq<ReportedPeer>)
    requires Ok(db) && NoOrphans(db) && iface in db.ifaces.rows
    requires forall k :: StoredAt(db, Label(db.ifaces.rows[iface].key, k)).Some? <==>
             Reported(db, host, org, peers, k).Some?
    ensures var (after, active) := UpsertPeers(db, host, org, iface, peers);
            SameRows(db, after) && SyncInterfacePeers(after, iface, active) == after
  {
    UpsertPeersInPlace(db, host, org, iface, peers);
    UpsertPeersEffect(db, host, org, iface, peers);
    var (after, active) := UpsertPeers(db, host, org, iface, peers);
    forall e | e in after.endpoints.rows && after.endpoints.rows[e].key.iface == iface
      ensures after.endpoints.rows[e].key.peer in active
    {
      StillActive(db, host, org, iface, peers, e);
    }
    SyncOfSameRows(db, after, iface, active);
  }

  lemma SyncOfSameRows(db: Db, after: Db, iface: Id, active: set<Id>)
    requires Ok(after) && NoOrphans(db) && SameRows(db, after)
    requires forall e :: e in after.endpoints.rows && after.endpoints.rows[e].key.iface == iface ==>
             after.endpoints.rows[e].key.peer in active
    ensures SyncInterfacePeers(after, iface, active) == after
  {
    assert ReferencedPeers(after) == ReferencedPeers(db);
    SyncSettled(after, iface, active);
  }

  lemma StillActive(db: Db, host: Id, org: Id, iface: Id, peers: seq<ReportedPeer>, e: Id)
    requires Ok(db) && iface in db.ifaces.rows
    requires forall k :: StoredAt(db, Label(db.ifaces.rows[iface].key, k)).Some? <==>
             Reported(db, host, org, peers, k).Some?
    requires e in db.endpoints.rows && db.endpoints.rows[e].key.iface == iface
    requires UpsertPeers(db, host, org, iface, peers).0.peers == db.peers
    ensures db.endpoints.rows[e].key.peer in UpsertPeers(db, host, org, iface, peers).1
  {
    var k := db.peers.rows[db.endpoints.rows[e].key.peer].key;
    assert EndpointKey(db.ifaces.index[db.ifaces.rows[iface].key], db.peers.index[k]) == db.endpoints.rows[e].key;
    assert StoredAt(db, Label(db.ifaces.rows[iface].key, k)).Some?;
    UpsertPeersActive(db, host, org, iface, peers, k);
  }

  lemma HoldsReportOf(a: Db, b: Db, host: Id, org: Id, r: ReportedIface)
    requires Ok(a) && Ok(b) && SameIds(a, b) && HoldsReport(a, host, org, r)
    ensures HoldsReport(b, host, org, r)
  {
    forall k
      ensures StoredAt(b, Label(IfaceKey(host, r.name), k)).Some? <==> Reported(b, host, org, r.peers, k).Some?
    {
      SameIdsStored(a, b, Label(IfaceKey(host, r.name), k));
      ReportedDependsOnRemovals(a, b, host, org, r.peers, k);
    }
  }

  lemma OwnerStored(db: Db, host: Id, org: Id, owners: map<string, string>, own: string)
    requires Ok(db) && OwnedBy(db, host, org, owners) && own in owners.Values
    ensures PeerKey(org, own) in db.peers.index
  {
    var name :| name in owners && owners[name] == own;
    var i := IfaceKey(host, name);
    assert db.peers.rows[db.ifaces.rows[db.ifaces.index[i]].value.peer].key == PeerKey(org, own);
  }

  /** If no own key is lost by the report, the interface can lose its. */
  lemma OwnerCanLose(db: Db, host: Id, org: Id, owners: map<string, string>, r: ReportedIface)
    requires Ok(db) && OwnedBy(db, host, org, owners) && r.name in owners
    requires owners.Values <= owners[r.name := r.publicKey].Values
    ensures IfaceKey(host, r.name) in db.ifaces.index
    ensures CanLose(db, IfaceKey(host, r.name), PeerKey(org, r.publicKey))
  {
    var was := owners[r.name];
    assert was in owners.Values;
    var name :| name in owners[r.name := r.publicKey] && owners[r.name := r.publicKey][name] == was;
    assert IfaceAt(db, IfaceKey(host, r.name)).value.0 == PeerKey(org, was);
    if name != r.name {
      assert IfaceAt(db, IfaceKey(host, name)).value.0 == PeerKey(org, was);
    }
  }

  lemma OwnedByAfter(db: Db, host: Id, org: Id, owners: map<string, string>, r: ReportedIface)
    requires Ok(db) && OwnedBy(db, host, org, owners) && r.publicKey != "" && r.name in owners
    requires Ok(ReconcileIface(db, host, org, r))
    ensures OwnedBy(ReconcileIface(db, host, org, r), host, org, owners[r.name := r.publicKey])
  {
    var after := ReconcileIface(db, host, org, r);
    forall name | name in owners
      ensures IfaceAt(after, IfaceKey(host, name)).Some? &&
              IfaceAt(after, IfaceKey(host, name)).value.0 == PeerKey(org, owners[r.name := r.publicKey][name])
    {
      OwnerAfter(db, host, org, r, name);
      assert IfaceAt(db, IfaceKey(host, name)).Some?;
    }
  }

  lemma OwnerAfter(db: Db, host: Id, org: Id, r: ReportedIface, name: string)
    requires Ok(db) && r.publicKey != "" && Ok(ReconcileIface(db, host, org, r))
    ensures IfaceAt(ReconcileIface(db, host, org, r), IfaceKey(host, name)) ==
            if name == r.name then Some((PeerKey(org, r.publicKey), r.config)) else IfaceAt(db, IfaceKey(host, name))
  {
    ReconcileIfaceView(db, host, org, r, Label(IfaceKey(host, name), PeerKey(org, "")));
  }

  /** One report on top of others that kept the rows keeps them too. */
  lemma ReportKeepsIds(once: Db, mid: Db, host: Id, org: Id, owners: map<string, string>, r: ReportedIface)
    requires Ok(once) && Ok(mid) && SameIds(once, mid) && NoOrphans(mid) && OwnedBy(mid, host, org, owners)
    requires r.publicKey in owners.Values && r.publicKey != "" && r.name in owners
    requires owners.Values <= owners[r.name := r.publicKey].Values && HoldsReport(once, host, org, r)
    ensures var after := ReconcileIface(mid, host, org, r);
            Ok(after) && SameIds(once, after) && OwnedBy(after, host, org, owners[r.name := r.publicKey])
  {
    HoldsReportOf(once, mid, host, org, r);
    OwnerStored(mid, host, org, owners, r.publicKey);
    OwnerCanLose(mid, host, org, owners, r);
    StepKeepsIds(mid, host, org, r);
    ReconcileIfaceEffect(mid, host, org, r);
    OwnedByAfter(mid, host, org, owners, r);
  }

  lemma NoOrphansBetween(once: Db, host: Id, org: Id, rs: seq<ReportedIface>)
    requires Ok(once) && NoOrphans(once)
    ensures var mid := Reconcile(once, host, org, rs); Ok(mid) && NoOrphans(mid)
  {
    ReconcileEffect(once, host, org, rs);
    if !AnyKeyed(rs) {
      UnkeyedChangesNothing(once, host, org, rs);
    }
  }

  /** What the reports so far leave if they keep the rows. */
  ghost predicate Kept(once: Db, host: Id, org: Id, owners: map<string, string>, rs: seq<ReportedIface>) {
    var after := Reconcile(once, host, org, rs);
    && Ok(after) && SameIds(once, after) && OwnedBy(after, host, org, owners + Owners(rs))
    && (owners + Owners(rs)).Values <= owners.Values
  }

  /** On top of `owners` the reports lose no own key and list what is stored. */
  ghost predicate Ready(once: Db, host: Id, org: Id, owners: map<string, string>, rs: seq<ReportedIface>)
    requires Ok(once)
  {
    && OwnKeysHeld(owners, rs) && Owners(rs).Keys <= owners.Keys && owners.Values <= (owners + Owners(rs)).Values
    && forall r :: r in rs && r.publicKey != "" ==> HoldsReport(once, host, org, r)
  }

  lemma {:induction false} ReportsKeepIds(once: Db, host: Id, org: Id, owners: map<string, string>,
      rs: seq<ReportedIface>)
    requires Ok(once) && NoOrphans(once) && OwnedBy(once, host, org, owners) && Ready(once, host, org, owners, rs)
    ensures Kept(once, host, org, owners, rs)
    decreases |rs|
  {
    if rs == [] {
      assert owners + Owners(rs) == owners;
    } else {
      ReadyFront(once, host, org, owners, rs);
      ReportsKeepIds(once, host, org, owners, rs[..|rs| - 1]);
      ReportsKeepIdsStep(once, host, org, owners, rs);
    }
  }

  lemma FrontOwners(owners: map<string, string>, rs: seq<ReportedIface>)
    requires rs != [] && OwnKeysHeld(owners, rs) && Owners(rs).Keys <= owners.Keys
    requires owners.Values <= (owners + Owners(rs)).Values
    ensures var front, r := rs[..|rs| - 1], rs[|rs| - 1];
            && Owners(front).Keys <= owners.Keys && owners.Values <= (owners + Owners(front)).Values
            && (r.publicKey != "" ==> r.name in owners && r.publicKey in (owners + Owners(front)).Values)
            && (r.publicKey != "" ==> owners + Owners(rs) == (owners + Owners(front))[r.name := r.publicKey])
  {
    var front, r := rs[..|rs| - 1], rs[|rs| - 1];
    if r.publicKey != "" {
      assert owners + Owners(rs) == (owners + Owners(front))[r.name := r.publicKey];
    }
  }

  lemma ReadyFront(once: Db, host: Id, org: Id, owners: map<string, string>, rs: seq<ReportedIface>)
    requires Ok(once) && rs != [] && Ready(once, host, org, owners, rs)
    ensures Ready(once, host, org, owners, rs[..|rs| - 1])
  {
    FrontOwners(owners, rs);
    assert forall r :: r in rs[..|rs| - 1] ==> r in rs;
  }

  lemma ReportsKeepIdsStep(once: Db, host: Id, org: Id, owners: map<string, string>, rs: seq<ReportedIface>)
    requires Ok(once) && NoOrphans(once) && rs != [] && Kept(once, host, org, owners, rs[..|rs| - 1])
    requires Ready(once, host, org, owners, rs)
    ensures Kept(once, host, org, owners, rs)
  {
    var front, r := rs[..|rs| - 1], rs[|rs| - 1];
    if r.publicKey != "" {
      FrontOwners(owners, rs);
      NoOrphansBetween(once, host, org, front);
      assert r in rs;
      ReportKeepsIds(once, Reconcile(once, host, org, front), host, org, owners + Owners(front), r);
    }
  }

  lemma OnceHolds(db: Db, host: Id, req: Request)
    requires Ok(db) && host in db.hosts && SameKeys(req.ifaces)
    ensures var once := Ping(db, host, req);
            Ok(once) && OwnedBy(once, host, db.hosts[host], Owners(req.ifaces)) &&
            forall r :: r in req.ifaces && r.publicKey != "" ==> HoldsReport(once, host, db.hosts[host], r)
  {
    var once, org, rs := Ping(db, host, req), db.hosts[host], req.ifaces;
    PingReconciles(db, host, req);
    forall r | r in rs && r.publicKey != "" ensures HoldsReport(once, host, org, r) {
      LastReportIs(host, rs, r.name);
      var last := LastReport(host, rs, IfaceKey(host, r.name)).value;
      forall k ensures StoredAt(once, Label(IfaceKey(host, r.name), k)).Some? <==>
                       Reported(once, host, org, r.peers, k).Some?
      {
        var l := Label(IfaceKey(host, r.name), k);
        assert StoredAt(once, l) == Reported(once, host, org, last.peers, k);
        ReportedIff(once, host, org, last.peers, k);
        ReportedIff(once, host, org, r.peers, k);
      }
    }
    forall name | name in Owners(rs)
      ensures IfaceAt(once, IfaceKey(host, name)).Some? &&
              IfaceAt(once, IfaceKey(host, name)).value.0 == PeerKey(org, Owners(rs)[name])
    {
      LastReportIs(host, rs, name);
      var l := Label(IfaceKey(host, name), PeerKey(org, ""));
      assert IfaceAt(once, l.iface).Some?;
    }
  }

  lemma PingAgain(db: Db, host: Id, req: Request)
    requires Ok(db) && host in db.hosts
    ensures var once := Ping(db, host, req);
            once.hosts == db.hosts && Ping(once, host, req) == Reconcile(once, host, db.hosts[host], req.ifaces)
  {
    PingKeepsOk(db, host, req);
    MarksRepeat(db.removals, req.executed);
    var once := Ping(db, host, req);
    assert once.(removals := MarkRemovals(once.removals, req.executed)) == once;
  }

  /** Repeating a ping with a steady request changes nothing at all: no row, no id. */
  lemma PingIdempotent(db: Db, host: Id, req: Request)
    requires Ok(db) && Steady(req.ifaces)
    ensures Ping(Ping(db, host, req), host, req) == Ping(db, host, req)
  {
    var once, rs := Ping(db, host, req), req.ifaces;
    if host !in db.hosts {
      MarksRepeat(db.removals, req.executed);
    } else if !AnyKeyed(rs) {
      PingAgain(db, host, req);
      UnkeyedChangesNothing(once, host, db.hosts[host], rs);
    } else {
      PingAgain(db, host, req);
      PingKeepsOk(db, host, req);
      OnceHolds(db, host, req);
      assert Owners(rs) + Owners(rs) == Owners(rs);
      ReportsKeepIds(once, host, db.hosts[host], Owners(rs), rs);
      SameLabels(db, host, req);
      SameIdsSameContents(once, Ping(once, host, req));
    }
  }

  lemma SameLabels(db: Db, host: Id, req: Request)
    requires Ok(db) && host in db.hosts
    ensures var once := Ping(db, host, req);
            var twice := Ping(once, host, req);
            && Ok(once) && Ok(twice) && (forall l :: StoredAt(once, l) == StoredAt(twice, l))
            && (forall i :: IfaceAt(once, i) == IfaceAt(twice, i))
  {
    var once := Ping(db, host, req);
    var twice := Ping(once, host, req);
    PingKeepsOk(db, host, req);
    PingKeepsOk(once, host, req);
    forall l ensures StoredAt(once, l) == StoredAt(twice, l) && IfaceAt(once, l.iface) == IfaceAt(twice, l.iface) {
      LabelsRepeat(db, host, req, l);
    }
    forall i ensures IfaceAt(once, i) == IfaceAt(twice, i) {
      var l := Label(i, PeerKey(0, ""));
      assert IfaceAt(once, l.iface) == IfaceAt(twice, l.iface);
    }
  }

  // ---- Rows made anew otherwise ------------------------------------------------------------------

  lemma {:induction false} UpsertPeersNext(db: Db, host: Id, org: Id, iface: Id, peers: seq<ReportedPeer>)
    ensures db.next <= UpsertPeers(db, host, org, iface, peers).0.next
    decreases |peers|
  {
    if peers != [] {
      UpsertPeersNext(db, host, org, iface, peers[..|peers| - 1]);
    }
  }

  lemma ReconcileIfaceNext(db: Db, host: Id, org: Id, r: ReportedIface)
    ensures db.next <= ReconcileIface(db, host, org, r).next
  {
    if r.publicKey != "" {
      var (d1, own) := FindOrCreatePeer(db, PeerKey(org, r.publicKey), PeerName(r.publicKey));
      var (d2, iface) := FindOrCreateIface(d1, IfaceKey(host, r.name), IfaceData(own, r.config));
      UpsertPeersNext(d2, host, org, iface, r.peers);
    }
  }

  function EmptyDb(host: Id, org: Id): Db {
    Db(map[host := org], Table(map[], map[]), Table(map[], map[]), Table(map[], map[]), [], 0)
  }

  lemma {:induction false} UpsertPeersNoNew(db: Db, host: Id, org: Id, iface: Id, peers: seq<ReportedPeer>, k: PeerKey)
    requires Ok(db) && iface in db.ifaces.rows && UpsertPeers(db, host, org, iface, peers).0.next == db.next
    requires Reported(db, host, org, peers, k).Some?
    ensures StoredAt(db, Label(db.ifaces.rows[iface].key, k)).Some?
    decreases |peers|
  {
    var front, p := peers[..|peers| - 1], peers[|peers| - 1];
    UpsertPeersNext(db, host, org, iface, front);
    UpsertPeersEffect(db, host, org, iface, front);
    var (mid, active) := UpsertPeers(db, host, org, iface, front);
    var l := Label(db.ifaces.rows[iface].key, k);
    UpsertPeersView(db, host, org, iface, front, l);
    if Reported(db, host, org, front, k).Some? {
      UpsertPeersNoNew(db, host, org, iface, front, k);
    } else {
      UpsertPeerNoNew(mid, active, host, org, iface, p, k);
    }
  }

  lemma UpsertPeerNoNew(db: Db, active: set<Id>, host: Id, org: Id, iface: Id, p: ReportedPeer, k: PeerKey)
    requires Ok(db) && iface in db.ifaces.rows && UpsertPeer(db, active, host, org, iface, p).0.next == db.next
    requires k == PeerKey(org, p.publicKey) && p.publicKey != "" && !HasPendingRemovePeer(db, host, p.publicKey)
    ensures StoredAt(db, Label(db.ifaces.rows[iface].key, k)).Some?
  {
  }

  /** A report that takes no new id is about rows that are there. */
  lemma ReportNoNew(db: Db, host: Id, org: Id, r: ReportedIface)
    requires Ok(db) && r.publicKey != "" && ReconcileIface(db, host, org, r).next == db.next
    ensures PeerKey(org, r.publicKey) in db.peers.index
    ensures forall k :: Reported(db, host, org, r.peers, k).Some? ==>
              StoredAt(db, Label(IfaceKey(host, r.name), k)).Some?
  {
    var ikey := IfaceKey(host, r.name);
    var (d1, own) := FindOrCreatePeer(db, PeerKey(org, r.publicKey), PeerName(r.publicKey));
    FindOrCreatePeerKeeps(db, PeerKey(org, r.publicKey), PeerName(r.publicKey));
    FindOrCreateIfaceKeeps(d1, ikey, IfaceData(own, r.config));
    var (d2, iface) := FindOrCreateIface(d1, ikey, IfaceData(own, r.config));
    UpsertPeersNext(d2, host, org, iface, r.peers);
    assert d1 == db && d2.next == db.next;
    forall k | Reported(db, host, org, r.peers, k).Some? ensures StoredAt(db, Label(ikey, k)).Some? {
      FindOrCreateIfaceView(d1, ikey, IfaceData(own, r.config), Label(ikey, k));
      ReportedDependsOnRemovals(db, d2, host, org, r.peers, k);
      UpsertPeersNoNew(d2, host, org, iface, r.peers, k);
    }
  }

  lemma StepShrinks(db: Db, host: Id, org: Id, r: ReportedIface, l: Label)
    requires Ok(db) && ReconcileIface(db, host, org, r).next == db.next
    ensures var after := ReconcileIface(db, host, org, r);
            Ok(after) && (StoredAt(after, l).Some? ==> StoredAt(db, l).Some?)
  {
    ReconcileIfaceEffect(db, host, org, r);
    if r.publicKey != "" {
      ReconcileIfaceView(db, host, org, r, l);
      ReportNoNew(db, host, org, r);
    }
  }

  lemma {:induction false} ReconcileNext(db: Db, host: Id, org: Id, rs: seq<ReportedIface>)
    ensures db.next <= Reconcile(db, host, org, rs).next
    decreases |rs|
  {
    if rs != [] {
      ReconcileNext(db, host, org, rs[..|rs| - 1]);
      ReconcileIfaceNext(Reconcile(db, host, org, rs[..|rs| - 1]), host, org, rs[|rs| - 1]);
    }
  }

  /** If the reports take no new id, then what an interface holds only shrinks along them. */
  lemma {:induction false} ReportsShrink(db: Db, host: Id, org: Id, rs: seq<ReportedIface>, t: nat, l: Label)
    requires Ok(db) && t <= |rs| && Reconcile(db, host, org, rs).next == db.next
    ensures var after, mid := Reconcile(db, host, org, rs), Reconcile(db, host, org, rs[..t]);
            && Ok(after) && Ok(mid) && mid.next == db.next
            && (StoredAt(after, l).Some? ==> StoredAt(mid, l).Some?)
            && (StoredAt(mid, l).Some? ==> StoredAt(db, l).Some?)
    decreases |rs|
  {
    if rs == [] {
      assert rs[..t] == [];
    } else {
      var front, r := rs[..|rs| - 1], rs[|rs| - 1];
      var before := Reconcile(db, host, org, front);
      ReconcileNext(db, host, org, front);
      ReconcileIfaceNext(before, host, org, r);
      ReportsShrink(db, host, org, front, if t < |rs| then t else |front|, l);
      StepShrinks(before, host, org, r, l);
      if t < |rs| {
        assert front[..t] == rs[..t];
      } else {
        assert rs[..t] == rs && front[..|front|] == front;
      }
    }
  }

  /** The reports take no new id and end with the endpoints they began with. */
  ghost predicate Repeats(once: Db, host: Id, org: Id, rs: seq<ReportedIface>) {
    var twice := Reconcile(once, host, org, rs);
    Ok(once) && Ok(twice) && twice.next == once.next && forall l :: StoredAt(once, l) == StoredAt(twice, l)
  }

  /** Then every keyed report of a name lists what is stored for it. */
  lemma ListsWhatIsStored(once: Db, host: Id, org: Id, rs: seq<ReportedIface>, t: nat, key: string)
    requires Repeats(once, host, org, rs) && t < |rs| && rs[t].publicKey != "" && once.removals == []
    ensures key in KeysOf(rs[t].peers) <==> StoredAt(once, Label(IfaceKey(host, rs[t].name), PeerKey(org, key))).Some?
  {
    var l := Label(IfaceKey(host, rs[t].name), PeerKey(org, key));
    NoNewAt(once, host, org, rs, t);
    ReportsShrink(once, host, org, rs, t + 1, l);
    StoredAsListed(Reconcile(once, host, org, rs[..t]), host, org, rs[t], key);
  }

  lemma StoredAsListed(mid: Db, host: Id, org: Id, r: ReportedIface, key: string)
    requires Ok(mid) && mid.removals == [] && r.publicKey != ""
    ensures var after := ReconcileIface(mid, host, org, r);
            Ok(after) && (key in KeysOf(r.peers) <==>
                StoredAt(after, Label(IfaceKey(host, r.name), PeerKey(org, key))).Some?)
  {
    ReconcileIfaceEffect(mid, host, org, r);
    ReconcileIfaceView(mid, host, org, r, Label(IfaceKey(host, r.name), PeerKey(org, key)));
    ReportedIff(mid, host, org, r.peers, PeerKey(org, key));
  }

  /** The report at `t` finds a good database and takes no new id in it. */
  lemma NoNewAt(once: Db, host: Id, org: Id, rs: seq<ReportedIface>, t: nat)
    requires Ok(once) && t < |rs| && Reconcile(once, host, org, rs).next == once.next
    ensures var mid := Reconcile(once, host, org, rs[..t]);
            && Ok(mid) && mid.removals == once.removals
            && Reconcile(once, host, org, rs[..t + 1]) == ReconcileIface(mid, host, org, rs[t])
            && ReconcileIface(mid, host, org, rs[t]).next == mid.next
  {
    var any := Label(IfaceKey(host, ""), PeerKey(org, ""));
    ReportsShrink(once, host, org, rs, t, any);
    ReportsShrink(once, host, org, rs, t + 1, any);
    ReconcileEffect(once, host, org, rs[..t]);
    assert rs[..t + 1][..t] == rs[..t];
  }

  lemma NextKeptMeansRepeats(db: Db, host: Id, req: Request)
    requires Ok(db) && host in db.hosts
    requires Ping(Ping(db, host, req), host, req).next == Ping(db, host, req).next
    ensures Repeats(Ping(db, host, req), host, db.hosts[host], req.ifaces)
  {
    PingAgain(db, host, req);
    SameLabels(db, host, req);
  }

  lemma SameKeysNeeded(host: Id, org: Id, req: Request)
    requires var once := Ping(EmptyDb(host, org), host, req); Ping(once, host, req).next == once.next
    ensures SameKeys(req.ifaces)
  {
    var db, rs := EmptyDb(host, org), req.ifaces;
    var once := Ping(db, host, req);
    NextKeptMeansRepeats(db, host, req);
    PingKeepsOk(db, host, req);
    MarkRemovalsAt([], req.executed);
    forall i, j | 0 <= i < j < |rs| && rs[i].publicKey != "" && rs[j].publicKey != "" && rs[i].name == rs[j].name
      ensures KeysOf(rs[i].peers) == KeysOf(rs[j].peers)
    {
      forall key ensures key in KeysOf(rs[i].peers) <==> key in KeysOf(rs[j].peers) {
        ListsWhatIsStored(once, host, org, rs, i, key);
        ListsWhatIsStored(once, host, org, rs, j, key);
      }
    }
  }

  // ---- A database in which only own keys keep peers alive ------------------------------------------

  function PeersOf(rs: seq<ReportedIface>): set<string> {
    set r, p | r in rs && p in r.peers :: p.publicKey
  }

  function Above(ids: seq<nat>): nat {
    if ids == [] then 0
    else
      var rest, id := Above(ids[..|ids| - 1]), ids[|ids| - 1];
      if id < rest then rest else id + 1
  }

  lemma {:induction false} AboveAll(ids: seq<nat>)
    ensures forall id :: id in ids ==> id < Above(ids)
    decreases |ids|
  {
    if ids != [] {
      AboveAll(ids[..|ids| - 1]);
      assert ids == ids[..|ids| - 1] + [ids[|ids| - 1]];
    }
  }

  /** Row `i` asks the host to remove the key and is not among the `executed` ones. */
  predicate SuppressedBy(removals: seq<Removal>, host: Id, executed: seq<nat>, key: string, i: nat) {
    i < |removals| && i !in executed && removals[i] == Removal(host, "", key, true)
  }

  ghost predicate Suppresses(removals: seq<Removal>, host: Id, executed: seq<nat>, keys: set<string>) {
    forall key :: key in keys ==> exists i: nat :: SuppressedBy(removals, host, executed, key, i)
  }

  lemma {:induction false} Suppressing(host: Id, executed: seq<nat>, keys: set<string>) returns (removals: seq<Removal>)
    ensures Suppresses(removals, host, executed, keys)
  {
    removals := [];
    if key :| key in keys {
      var rest := Suppressing(host, executed, keys - {key});
      removals := SuppressingOne(rest, host, executed, keys - {key}, key);
      assert keys == (keys - {key}) + {key};
    }
  }

  lemma SuppressingOne(rest: seq<Removal>, host: Id, executed: seq<nat>, keys: set<string>, key: string)
    returns (removals: seq<Removal>)
    requires Suppresses(rest, host, executed, keys)
    ensures Suppresses(removals, host, executed, keys + {key})
  {
    removals := rest + seq(Above(executed), _ => Removal(host, "", "", false)) + [Removal(host, "", key, true)];
    AboveAll(executed);
    assert SuppressedBy(removals, host, executed, key, |rest| + Above(executed));
    forall other | other in keys ensures exists i: nat :: SuppressedBy(removals, host, executed, other, i) {
      var i: nat :| SuppressedBy(rest, host, executed, other, i);
      assert SuppressedBy(removals, host, executed, other, i);
    }
  }

  /** A host without interfaces that is to remove every peer it is about to report. */
  ghost predicate Suppressed(db: Db, host: Id, org: Id, req: Request) {
    db == EmptyDb(host, org).(removals := db.removals) &&
    Suppresses(db.removals, host, req.executed, PeersOf(req.ifaces))
  }

  lemma SuppressedPending(db: Db, once: Db, host: Id, org: Id, req: Request, key: string)
    requires Suppressed(db, host, org, req) && once.removals == MarkRemovals(db.removals, req.executed)
    requires key in PeersOf(req.ifaces)
    ensures HasPendingRemovePeer(once, host, key)
  {
    MarkRemovalsAt(db.removals, req.executed);
    var i: nat :| SuppressedBy(db.removals, host, req.executed, key, i);
    assert once.removals[i] in once.removals;
  }

  lemma SuppressedReport(db: Db, once: Db, host: Id, org: Id, req: Request, r: ReportedIface, k: PeerKey)
    requires Suppressed(db, host, org, req) && once.removals == MarkRemovals(db.removals, req.executed)
    requires r in req.ifaces
    ensures Reported(once, host, org, r.peers, k) == None
  {
    ReportedIff(once, host, org, r.peers, k);
    if k.publicKey in KeysOf(r.peers) {
      SuppressedPending(db, once, host, org, req, k.publicKey);
    }
  }

  /** Interface `i`, if stored, is one of `owners` with the own key it has there. */
  ghost predicate OwnerShown(db: Db, host: Id, org: Id, owners: map<string, string>, i: IfaceKey)
    requires Ok(db)
  {
    IfaceAt(db, i) == None ||
    (i.host == host && i.name in owners && IfaceAt(db, i).value.0 == PeerKey(org, owners[i.name]))
  }

  /** Along the repetition no endpoint is stored, and each interface has the own key last reported. */
  lemma SuppressedAt(db: Db, host: Id, org: Id, req: Request, t: nat, l: Label)
    requires Suppressed(db, host, org, req) && t <= |req.ifaces|
    ensures var mid := Reconcile(Ping(db, host, req), host, org, req.ifaces[..t]);
            Ok(mid) && StoredAt(mid, l) == None &&
                OwnerShown(mid, host, org, Owners(req.ifaces) + Owners(req.ifaces[..t]), l.iface)
  {
    var once, part := Ping(db, host, req), req.ifaces[..t];
    SuppressedOnce(db, host, org, req, l);
    ReconcileEffect(once, host, org, part);
    ReconcileView(once, host, org, part, l);
    LastReportHost(host, part, l.iface);
    LastReportIs(host, part, l.iface.name);
    if LastReport(host, part, l.iface).Some? {
      PingKeepsOk(db, host, req);
      SuppressedReport(db, once, host, org, req, LastReport(host, part, l.iface).value, l.peer);
    }
  }

  lemma SuppressedOnce(db: Db, host: Id, org: Id, req: Request, l: Label)
    requires Suppressed(db, host, org, req)
    ensures var once := Ping(db, host, req);
            Ok(once) && StoredAt(once, l) == None && OwnerShown(once, host, org, Owners(req.ifaces), l.iface)
  {
    var once := Ping(db, host, req);
    PingKeepsOk(db, host, req);
    PingReconciles(db, host, req);
    LastReportHost(host, req.ifaces, l.iface);
    LastReportIs(host, req.ifaces, l.iface.name);
    if LastReport(host, req.ifaces, l.iface).Some? {
      SuppressedReport(db, once, host, org, req, LastReport(host, req.ifaces, l.iface).value, l.peer);
    }
  }

  lemma OwnKeyIsHeld(db: Db, host: Id, org: Id, req: Request, t: nat)
    requires Suppressed(db, host, org, req) && Repeats(Ping(db, host, req), host, org, req.ifaces)
    requires t < |req.ifaces| && req.ifaces[t].publicKey != "" && NoOrphans(Ping(db, host, req))
    ensures req.ifaces[t].publicKey in (Owners(req.ifaces) + Owners(req.ifaces[..t])).Values
  {
    var once, rs := Ping(db, host, req), req.ifaces;
    var mid, k := Reconcile(once, host, org, rs[..t]), PeerKey(org, rs[t].publicKey);
    NoOrphansBetween(once, host, org, rs[..t]);
    NoNewAt(once, host, org, rs, t);
    ReportNoNew(mid, host, org, rs[t]);
    StoredMeansMentioned(mid, k);
    var i :| Mentions(mid, i, k);
    SuppressedAt(db, host, org, req, t, Label(i, k));
    OwnerIsShown(mid, host, org, Owners(rs) + Owners(rs[..t]), i, rs[t].publicKey);
  }

  lemma OwnerIsShown(db: Db, host: Id, org: Id, owners: map<string, string>, i: IfaceKey, own: string)
    requires Ok(db) && Mentions(db, i, PeerKey(org, own)) && StoredAt(db, Label(i, PeerKey(org, own))) == None
    requires OwnerShown(db, host, org, owners, i)
    ensures own in owners.Values
  {
  }

  lemma {:induction false} OwnKeysNeeded(db: Db, host: Id, org: Id, req: Request, t: nat)
    requires Suppressed(db, host, org, req) && Repeats(Ping(db, host, req), host, org, req.ifaces)
    requires t <= |req.ifaces| && NoOrphans(Ping(db, host, req))
    ensures OwnKeysHeld(Owners(req.ifaces), req.ifaces[..t])
  {
    if t > 0 {
      OwnKeysNeeded(db, host, org, req, t - 1);
      assert req.ifaces[..t][..t - 1] == req.ifaces[..t - 1];
      if req.ifaces[t - 1].publicKey != "" {
        OwnKeyIsHeld(db, host, org, req, t - 1);
      }
    }
  }

  lemma {:induction false} UnkeyedHeld(owners: map<string, string>, rs: seq<ReportedIface>)
    requires !AnyKeyed(rs)
    ensures OwnKeysHeld(owners, rs)
    decreases |rs|
  {
    if rs != [] {
      UnkeyedHeld(owners, rs[..|rs| - 1]);
    }
  }

  lemma OwnKeysHeldNeeded(host: Id, org: Id, req: Request, removals: seq<Removal>)
    requires Suppresses(removals, host, req.executed, PeersOf(req.ifaces))
    requires var once := Ping(EmptyDb(host, org).(removals := removals), host, req);
             Ping(once, host, req).next == once.next
    ensures OwnKeysHeld(Owners(req.ifaces), req.ifaces)
  {
    var db := EmptyDb(host, org).(removals := removals);
    NextKeptMeansRepeats(db, host, req);
    OwnKeysHeldRepeating(db, host, org, req);
  }

  lemma OwnKeysHeldRepeating(db: Db, host: Id, org: Id, req: Request)
    requires Suppressed(db, host, org, req) && Repeats(Ping(db, host, req), host, org, req.ifaces)
    ensures OwnKeysHeld(Owners(req.ifaces), req.ifaces)
  {
    if AnyKeyed(req.ifaces) {
      PingKeepsOk(db, host, req);
      OwnKeysNeeded(db, host, org, req, |req.ifaces|);
      assert req.ifaces[..|req.ifaces|] == req.ifaces;
    } else {
      UnkeyedHeld(Owners(req.ifaces), req.ifaces);
    }
  }

  // ---- The condition --------------------------------------------------------------------------------

  ghost predicate KeepsRows(db: Db, host: Id, req: Request) {
    Ping(Ping(db, host, req), host, req) == Ping(db, host, req)
  }

  ghost predicate TakesNewIds(db: Db, host: Id, req: Request) {
    Ping(db, host, req).next < Ping(Ping(db, host, req), host, req).next
  }

  /**
   * Repeating a request keeps every row, whatever the tables hold, exactly when it is steady. An unsteady
   * one takes new ids at each repetition in some database, for the contents that were there before.
   */
  lemma PingKeepsRowsIff(host: Id, req: Request)
    ensures (forall db :: Ok(db) && host in db.hosts ==> KeepsRows(db, host, req)) <==> Steady(req.ifaces)
    ensures (exists db :: Ok(db) && host in db.hosts && TakesNewIds(db, host, req)) <==> !Steady(req.ifaces)
  {
    if Steady(req.ifaces) {
      forall db | Ok(db) ensures KeepsRows(db, host, req) {
        PingIdempotent(db, host, req);
      }
    } else {
      var db := UnsteadyTakesNewIds(host, 0, req);
      assert !KeepsRows(db, host, req);
    }
  }

  lemma UnsteadyTakesNewIds(host: Id, org: Id, req: Request) returns (db: Db)
    requires !Steady(req.ifaces)
    ensures Ok(db) && host in db.hosts && TakesNewIds(db, host, req)
  {
    if !SameKeys(req.ifaces) {
      db := EmptyDb(host, org);
      NextGrows(db, host, req);
      if !TakesNewIds(db, host, req) {
        SameKeysNeeded(host, org, req);
      }
    } else {
      var removals := Suppressing(host, req.executed, PeersOf(req.ifaces));
      db := EmptyDb(host, org).(removals := removals);
      NextGrows(db, host, req);
      if !TakesNewIds(db, host, req) {
        OwnKeysHeldNeeded(host, org, req, removals);
      }
    }
  }

  lemma NextGrows(db: Db, host: Id, req: Request)
    requires Ok(db) && host in db.hosts
    ensures Ping(db, host, req).next <= Ping(Ping(db, host, req), host, req).next
  {
    PingAgain(db, host, req);
    ReconcileNext(Ping(db, host, req), host, db.hosts[host], req.ifaces);
  }
}
