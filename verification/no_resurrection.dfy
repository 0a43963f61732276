/** A deleted peer does not come back while the agent still has to remove it. */
module NoResurrection {
  import opened Wrappers
  import opened Table
  import opened Store
  import opened PingSpec

  datatype Event = Pinged(host: Id, req: Request) | PeerDeleted(peer: Id)

  function Step(db: Db, e: Event): Db {
    match e
    case Pinged(host, req) => Ping(db, host, req)
    case PeerDeleted(p) => if p in db.peers.rows then DeletePeer(db, p) else db
  }

  function Run(db: Db, es: seq<Event>): Db {
    if es == [] then db else Step(Run(db, es[..|es| - 1]), es[|es| - 1])
  }

  /** Row `i` asks `host` to remove `publicKey` and has not been reported executed. */
  predicate Awaits(db: Db, i: nat, host: Id, publicKey: string) {
    i < |db.removals| && db.removals[i] == Removal(host, db.removals[i].iface, publicKey, true)
  }

  /** The event is a ping in which the interface's host reports it with a key. */
  predicate ReportsIface(db: Db, e: Event, k: IfaceKey) {
    e.Pinged? && e.host == k.host && e.host in db.hosts && LastReport(e.host, e.req.ifaces, k).Some?
  }

  predicate EverReports(db: Db, es: seq<Event>, k: IfaceKey) {
    es != [] && (ReportsIface(db, es[|es| - 1], k) || EverReports(db, es[..|es| - 1], k))
  }

  lemma StepKeepsOk(db: Db, e: Event)
    requires Ok(db)
    ensures Ok(Step(db, e)) && Step(db, e).hosts == db.hosts
  {
    match e
    case Pinged(host, req) =>
      var marked := db.(removals := MarkRemovals(db.removals, req.executed));
      if host in db.hosts {
        ReconcileEffect(marked, host, db.hosts[host], req.ifaces);
      }
    case PeerDeleted(p) =>
      DeletePeerKeeps(db, p);
  }

  lemma {:induction false} RunKeepsOk(db: Db, es: seq<Event>)
    requires Ok(db)
    ensures Ok(Run(db, es)) && Run(db, es).hosts == db.hosts
  {
    if es != [] {
      RunKeepsOk(db, es[..|es| - 1]);
      StepKeepsOk(Run(db, es[..|es| - 1]), es[|es| - 1]);
    }
  }

  /** Removals are only ever marked or added, so one that is pending has been pending all along. */
  lemma StepAwaits(db: Db, e: Event, i: nat, host: Id, publicKey: string)
    requires Ok(db) && i < |db.removals|
    ensures |db.removals| <= |Step(db, e).removals|
    ensures Awaits(Step(db, e), i, host, publicKey) ==> Awaits(db, i, host, publicKey)
  {
    match e
    case Pinged(h, req) =>
      var marked := db.(removals := MarkRemovals(db.removals, req.executed));
      MarkRemovalsAt(db.removals, req.executed);
      if h in db.hosts {
        ReconcileEffect(marked, h, db.hosts[h], req.ifaces);
      }
    case PeerDeleted(p) =>
  }

  /** One step while a removal is pending: nothing appears, and a ping clears what its interface held. */
  lemma StepRemoves(db: Db, e: Event, i: nat, l: Label)
    requires Ok(db) && Ok(Step(db, e)) && i < |db.removals|
    requires Awaits(Step(db, e), i, l.iface.host, l.peer.publicKey)
    requires ReportsIface(db, e, l.iface) || StoredAt(db, l) == None
    ensures StoredAt(Step(db, e), l) == None
  {
    match e
    case Pinged(h, req) =>
      if h in db.hosts {
        PingReconciles(db, h, req);
        var after := Ping(db, h, req);
        LastReportHost(h, req.ifaces, l.iface);
        match LastReport(h, req.ifaces, l.iface)
        case Some(r) =>
          assert after.removals[i] in after.removals;
          PendingReportsNothing(after, h, db.hosts[h], r.peers, l.peer);
        case None =>
      }
    case PeerDeleted(p) =>
      if p in db.peers.rows {
        DeletePeerOnlyRemoves(db, p, l);
      }
  }

  /**
   * No resurrection. Take any run of pings, by any hosts, and further deletions. If a removal that
   * existed at its start is still pending at its end, the key has no endpoint on any interface of that
   * host which either had none at the start or was reported with a key during the run.
   */
  lemma {:induction false} PendingRemovalHolds(db: Db, es: seq<Event>, i: nat, l: Label)
    requires Ok(db) && i < |db.removals|
    requires Awaits(Run(db, es), i, l.iface.host, l.peer.publicKey)
    requires StoredAt(db, l) == None || EverReports(db, es, l.iface)
    ensures Ok(Run(db, es)) && StoredAt(Run(db, es), l) == None
    decreases |es|
  {
    RunKeepsOk(db, es);
    if es != [] {
      var front, e := es[..|es| - 1], es[|es| - 1];
      var mid := Run(db, front);
      RunKeepsOk(db, front);
      RunGrows(db, front, i);
      StepAwaits(mid, e, i, l.iface.host, l.peer.publicKey);
      if !ReportsIface(db, e, l.iface) {
        PendingRemovalHolds(db, front, i, l);
      }
      StepRemoves(mid, e, i, l);
    }
  }

  lemma {:induction false} RunGrows(db: Db, es: seq<Event>, i: nat)
    requires Ok(db) && i < |db.removals|
    ensures i < |Run(db, es).removals|
    decreases |es|
  {
    if es != [] {
      RunKeepsOk(db, es[..|es| - 1]);
      RunGrows(db, es[..|es| - 1], i);
      StepAwaits(Run(db, es[..|es| - 1]), es[|es| - 1], i, 0, "");
    }
  }

  /** Some removal for the host and key written by this deletion is pending still. */
  ghost predicate StillAwaited(before: Db, p: Id, now: Db, host: Id, publicKey: string) {
    exists i: nat :: |before.removals| <= i < |DeletePeer(before, p).removals| && Awaits(now, i, host, publicKey)
  }

  /**
   * Deletion: every host that had the peer is asked to remove it, and as long as that request is
   * pending no run of pings and deletions gives the peer an endpoint on that host.
   */
  lemma DeletedStaysDeleted(db: Db, p: Id, es: seq<Event>, l: Label)
    requires Ok(db) && p in db.peers.rows && l.peer == db.peers.rows[p].key
    ensures StoredAt(db, l).Some? ==> StillAwaited(db, p, DeletePeer(db, p), l.iface.host, l.peer.publicKey)
    ensures Ok(Run(DeletePeer(db, p), es))
    ensures StillAwaited(db, p, Run(DeletePeer(db, p), es), l.iface.host, l.peer.publicKey) ==>
              StoredAt(Run(DeletePeer(db, p), es), l) == None
  {
    var gone := DeletePeer(db, p);
    DeletePeerKeeps(db, p);
    DeletePeerView(db, p, l);
    RunKeepsOk(gone, es);
    if StoredAt(db, l).Some? {
      var j := RemovalWritten(db, p, l);
      assert Awaits(gone, |db.removals| + j, l.iface.host, l.peer.publicKey);
    }
    if StillAwaited(db, p, Run(gone, es), l.iface.host, l.peer.publicKey) {
      var i: nat :| |db.removals| <= i < |gone.removals| && Awaits(Run(gone, es), i, l.iface.host, l.peer.publicKey);
      PendingRemovalHolds(gone, es, i, l);
    }
  }
}
