/** Repeating any ping: what is stored stays the same, even where rows are made anew. */
module PingRepeat {
  import opened Wrappers
  import opened Table
  import opened Store
  import opened PingSpec

  // ---- The peers, by their keys and names ------------------------------------------------------------

  /** Peers are only ever named after their keys. */
  ghost predicate NamedByKey(db: Db) {
    forall i :: i in db.peers.rows ==> db.peers.rows[i].value == PeerName(db.peers.rows[i].key.publicKey)
  }

  /** The name stored for a peer. */
  function NameOf(db: Db, k: PeerKey): Option<string>
    requires Ok(db)
  {
    if k in db.peers.index then Some(db.peers.rows[db.peers.index[k]].value) else None
  }

  lemma {:induction false} UpsertPeersNamed(db: Db, host: Id, org: Id, iface: Id, peers: seq<ReportedPeer>)
    requires NamedByKey(db)
    ensures NamedByKey(UpsertPeers(db, host, org, iface, peers).0)
    decreases |peers|
  {
    if peers != [] {
      UpsertPeersNamed(db, host, org, iface, peers[..|peers| - 1]);
    }
  }

  lemma {:induction false} ReconcileNamed(db: Db, host: Id, org: Id, rs: seq<ReportedIface>)
    requires NamedByKey(db)
    ensures NamedByKey(Reconcile(db, host, org, rs))
    decreases |rs|
  {
    if rs != [] {
      var r, before := rs[|rs| - 1], Reconcile(db, host, org, rs[..|rs| - 1]);
      ReconcileNamed(db, host, org, rs[..|rs| - 1]);
      if r.publicKey != "" {
        var (d1, own) := FindOrCreatePeer(before, PeerKey(org, r.publicKey), PeerName(r.publicKey));
        var (d2, iface) := FindOrCreateIface(d1, IfaceKey(host, r.name), IfaceData(own, r.config));
        UpsertPeersNamed(d2, host, org, iface, r.peers);
      }
    }
  }

  /** Interface `i` is stored with an endpoint of the peer, or with the peer as its own. */
  ghost predicate Mentions(db: Db, i: IfaceKey, k: PeerKey)
    requires Ok(db)
  {
    StoredAt(db, Label(i, k)).Some? || (IfaceAt(db, i).Some? && IfaceAt(db, i).value.0 == k)
  }

  /** The key of some stored endpoint's peer, or some stored interface's own key. */
  ghost predicate Mentioned(db: Db, k: PeerKey)
    requires Ok(db)
  {
    exists i :: Mentions(db, i, k)
  }

  lemma StoredMeansMentioned(db: Db, k: PeerKey)
    requires Ok(db) && NoOrphans(db)
    ensures k in db.peers.index <==> Mentioned(db, k)
  {
    if k in db.peers.index {
      var p := db.peers.index[k];
      assert p in ReferencedPeers(db);
      if e :| e in db.endpoints.rows && db.endpoints.rows[e].key.peer == p {
        var i := db.ifaces.rows[db.endpoints.rows[e].key.iface].key;
        assert EndpointKey(db.ifaces.index[i], p) == db.endpoints.rows[e].key;
        assert Mentions(db, i, k);
      } else {
        var i :| i in db.ifaces.rows && db.ifaces.rows[i].value.peer == p;
        assert Mentions(db, db.ifaces.rows[i].key, k);
      }
    }
  }

  lemma {:induction false} UnkeyedChangesNothing(db: Db, host: Id, org: Id, rs: seq<ReportedIface>)
    requires !AnyKeyed(rs)
    ensures Reconcile(db, host, org, rs) == db
    decreases |rs|
  {
    if rs != [] {
      UnkeyedChangesNothing(db, host, org, rs[..|rs| - 1]);
    }
  }

  // ---- Repeating ---------------------------------------------------------------------------------------

  /** The same endpoints, interfaces, removals and peers, each under its natural key. */
  ghost predicate SameContents(a: Db, b: Db)
    requires Ok(a) && Ok(b)
  {
    && a.removals == b.removals && a.hosts == b.hosts
    && (forall l :: StoredAt(a, l) == StoredAt(b, l))
    && (forall i :: IfaceAt(a, i) == IfaceAt(b, i))
    && (forall k :: NameOf(a, k) == NameOf(b, k))
  }

  lemma PingKeepsOk(db: Db, host: Id, req: Request)
    requires Ok(db)
    ensures var after := Ping(db, host, req);
            && Ok(after) && after.hosts == db.hosts && after.removals == MarkRemovals(db.removals, req.executed)
            && (host in db.hosts && AnyKeyed(req.ifaces) ==> NoOrphans(after))
            && (NamedByKey(db) ==> NamedByKey(after))
  {
    var marked := db.(removals := MarkRemovals(db.removals, req.executed));
    if host in db.hosts {
      ReconcileEffect(marked, host, db.hosts[host], req.ifaces);
      if NamedByKey(db) {
        ReconcileNamed(marked, host, db.hosts[host], req.ifaces);
      }
    }
  }

  /** After one ping, what each label holds is what the next one, saying the same, would store. */
  lemma LabelsRepeat(db: Db, host: Id, req: Request, l: Label)
    requires Ok(db) && host in db.hosts
    ensures var once := Ping(db, host, req);
            var twice := Ping(once, host, req);
            && Ok(once) && Ok(twice) && twice.removals == once.removals
            && StoredAt(twice, l) == StoredAt(once, l) && IfaceAt(twice, l.iface) == IfaceAt(once, l.iface)
  {
    var once := Ping(db, host, req);
    var twice := Ping(once, host, req);
    PingKeepsOk(db, host, req);
    PingKeepsOk(once, host, req);
    MarksRepeat(db.removals, req.executed);
    PingReconciles(db, host, req);
    PingReconciles(once, host, req);
    match LastReport(host, req.ifaces, l.iface)
    case Some(r) => ReportedDependsOnRemovals(once, twice, host, db.hosts[host], r.peers, l.peer);
    case None =>
  }

  lemma MarksRepeat(removals: seq<Removal>, executed: seq<nat>)
    ensures var once := MarkRemovals(removals, executed); MarkRemovals(once, executed) == once
  {
    MarkRemovalsAt(removals, executed);
    MarkRemovalsAt(MarkRemovals(removals, executed), executed);
  }

  /** Repeating a ping, whatever it says, changes nothing that is stored. */
  lemma PingTwiceIsPingOnce(db: Db, host: Id, req: Request)
    requires Ok(db) && NamedByKey(db)
    ensures var once := Ping(db, host, req);
            var twice := Ping(once, host, req);
            Ok(once) && Ok(twice) && SameContents(once, twice)
  {
    var once := Ping(db, host, req);
    var twice := Ping(once, host, req);
    PingKeepsOk(db, host, req);
    PingKeepsOk(once, host, req);
    MarksRepeat(db.removals, req.executed);
    if host in db.hosts {
      forall l ensures StoredAt(once, l) == StoredAt(twice, l) && IfaceAt(once, l.iface) == IfaceAt(twice, l.iface) {
        LabelsRepeat(db, host, req, l);
      }
      forall i ensures IfaceAt(once, i) == IfaceAt(twice, i) {
        var l := Label(i, PeerKey(0, ""));
        assert IfaceAt(once, l.iface) == IfaceAt(twice, l.iface);
      }
      NamesRepeat(once, twice, host, req);
    }
  }

  lemma MentionedAlike(a: Db, b: Db, k: PeerKey)
    requires Ok(a) && Ok(b) && Mentioned(a, k)
    requires forall l :: StoredAt(a, l) == StoredAt(b, l)
    requires forall i :: IfaceAt(a, i) == IfaceAt(b, i)
    ensures Mentioned(b, k)
  {
    var i :| Mentions(a, i, k);
    assert StoredAt(a, Label(i, k)) == StoredAt(b, Label(i, k));
    assert Mentions(b, i, k);
  }

  lemma NamesRepeat(once: Db, twice: Db, host: Id, req: Request)
    requires Ok(once) && Ok(twice) && NamedByKey(once) && NamedByKey(twice) && twice == Ping(once, host, req)
    requires host in once.hosts && (AnyKeyed(req.ifaces) ==> NoOrphans(once) && NoOrphans(twice))
    requires forall l :: StoredAt(once, l) == StoredAt(twice, l)
    requires forall i :: IfaceAt(once, i) == IfaceAt(twice, i)
    ensures forall k :: NameOf(once, k) == NameOf(twice, k)
  {
    if AnyKeyed(req.ifaces) {
      forall k ensures NameOf(once, k) == NameOf(twice, k) {
        StoredMeansMentioned(once, k);
        StoredMeansMentioned(twice, k);
        if Mentioned(once, k) {
          MentionedAlike(once, twice, k);
        }
        if Mentioned(twice, k) {
          MentionedAlike(twice, once, k);
        }
      }
    } else {
      var marked := once.(removals := MarkRemovals(once.removals, req.executed));
      UnkeyedChangesNothing(marked, host, once.hosts[host], req.ifaces);
    }
  }
}
