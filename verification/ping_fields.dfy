/** What a ping stores about a peer, field by field. */
module PingFields {
  import opened Wrappers
  import opened Strings
  import opened Table
  import opened Store
  import opened PingSpec
  import opened PingRepeat

  /** `rs[i]` has a key and is the last report with one about its interface. */
  ghost predicate LastAbout(rs: seq<ReportedIface>, i: nat) {
    i < |rs| && rs[i].publicKey != "" && forall j :: i < j < |rs| && rs[j].publicKey != "" ==> rs[j].name != rs[i].name
  }

  /** `peers[i]` has a key and is the last report about it. */
  ghost predicate LastOfPeer(peers: seq<ReportedPeer>, i: nat) {
    i < |peers| && peers[i].publicKey != "" && forall j :: i < j < |peers| ==> peers[j].publicKey != peers[i].publicKey
  }

  /** No removal of the key from the host is pending, once the reported ones are marked. */
  ghost predicate NotRemoving(removals: seq<Removal>, executed: seq<nat>, host: Id, key: string) {
    forall i :: 0 <= i < |removals| && removals[i].host == host && removals[i].publicKey == key ==>
      !removals[i].pending || i in executed
  }

  /** The stored row says what was reported. */
  ghost predicate Says(st: Stats, p: ReportedPeer) {
    && st.ip == p.ip && st.port == p.port && st.rx == p.rx && st.tx == p.tx
    && st.keepalive == p.keepalive && st.available == p.available
    && (p.latestHandshake > 0 ==> st.lastHandshake == Some(p.latestHandshake))
    && (p.latestHandshake <= 0 ==> st.lastHandshake == None)
    && (p.allowedIps == [] ==> st.allowedIps == "")
    && (p.allowedIps != [] && (forall ip :: ip in p.allowedIps ==> ',' !in ip) ==>
          Split(st.allowedIps, ',') == p.allowedIps)
  }

  lemma StatsSay(p: ReportedPeer)
    ensures Says(StatsOf(p), p)
  {
    if p.allowedIps != [] && forall ip :: ip in p.allowedIps ==> ',' !in ip {
      SplitJoin(p.allowedIps, ',');
    }
  }

  lemma {:induction false} LastReportAt(host: Id, rs: seq<ReportedIface>, i: nat)
    requires LastAbout(rs, i)
    ensures LastReport(host, rs, IfaceKey(host, rs[i].name)) == Some(rs[i])
    decreases |rs|
  {
    if i < |rs| - 1 {
      var front := rs[..|rs| - 1];
      assert LastAbout(front, i);
      LastReportAt(host, front, i);
    }
  }

  lemma {:induction false} ReportedAt(db: Db, host: Id, org: Id, peers: seq<ReportedPeer>, i: nat)
    requires LastOfPeer(peers, i) && !HasPendingRemovePeer(db, host, peers[i].publicKey)
    ensures Reported(db, host, org, peers, PeerKey(org, peers[i].publicKey)) == Some(StatsOf(peers[i]))
    decreases |peers|
  {
    if i < |peers| - 1 {
      var front := peers[..|peers| - 1];
      assert LastOfPeer(front, i);
      ReportedAt(db, host, org, front, i);
    }
  }

  lemma RemovingIff(db: Db, after: Db, executed: seq<nat>, host: Id, key: string)
    requires after.removals == MarkRemovals(db.removals, executed)
    ensures HasPendingRemovePeer(after, host, key) <==> !NotRemoving(db.removals, executed, host, key)
  {
    MarkRemovalsAt(db.removals, executed);
    if !NotRemoving(db.removals, executed, host, key) {
      var i :| 0 <= i < |db.removals| && db.removals[i].host == host && db.removals[i].publicKey == key
        && db.removals[i].pending && i !in executed;
      assert after.removals[i] in after.removals;
    }
  }

  /**
   * Of an interface reported with a key and a peer reported in it with a key, neither reported again
   * later, the ping stores every field as it was reported, unless the peer is being removed; then it
   * stores none. The interface has the reported key and configuration.
   */
  lemma PingStoresFields(db: Db, host: Id, req: Request, i: nat, j: nat, after: Db)
    requires Ok(db) && host in db.hosts && after == Ping(db, host, req)
    requires LastAbout(req.ifaces, i) && LastOfPeer(req.ifaces[i].peers, j)
    ensures var r := req.ifaces[i];
            var p := r.peers[j];
            var l := Label(IfaceKey(host, r.name), PeerKey(db.hosts[host], p.publicKey));
            && Ok(after) && IfaceAt(after, l.iface) == Some((PeerKey(db.hosts[host], r.publicKey), r.config))
            && (StoredAt(after, l).Some? <==> NotRemoving(db.removals, req.executed, host, p.publicKey))
            && (StoredAt(after, l).Some? ==> Says(StoredAt(after, l).value, p))
  {
    var r, org := req.ifaces[i], db.hosts[host];
    var p := r.peers[j];
    var l := Label(IfaceKey(host, r.name), PeerKey(org, p.publicKey));
    PingReconciles(db, host, req);
    PingKeepsOk(db, host, req);
    LastReportAt(host, req.ifaces, i);
    RemovingIff(db, after, req.executed, host, p.publicKey);
    assert StoredAt(after, l) == Reported(after, host, org, r.peers, l.peer);
    if HasPendingRemovePeer(after, host, p.publicKey) {
      PendingReportsNothing(after, host, org, r.peers, l.peer);
    } else {
      ReportedAt(after, host, org, r.peers, j);
      StatsSay(p);
    }
  }

  /** Peers that pings make are called after the first eight characters of their key. */
  lemma PeersAreNamed(db: Db, host: Id, req: Request, peer: Id, after: Db)
    requires Ok(db) && NamedByKey(db) && after == Ping(db, host, req) && peer in after.peers.rows
    ensures var key, name := after.peers.rows[peer].key.publicKey, after.peers.rows[peer].value;
            |name| == 5 + (if |key| < 8 then |key| else 8) && name[..5] == "peer-" && name[5..] <= key
  {
    PingKeepsOk(db, host, req);
  }
}
