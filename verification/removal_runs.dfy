/** One agent and the API together: what becomes of a deleted peer once its removal has been executed. */
module RemovalRuns {
  import opened Wrappers
  import opened Table
  import opened Store
  import opened PingSpec
  import opened PingRows
  import opened WireGuardDevice
  import Sync = AgentSync

  /** The tables, and the agent's side with the host's desired changes; the removals are among them. */
  datatype System = System(db: Db, sync: Sync.World)

  /** An administrator creates a change or deletes a peer, or the agent makes a cycle reporting `ifaces`. */
  datatype Event = Create(op: Op) | Delete(peer: Id) | Cycle(fate: Sync.Fate, ifaces: seq<ReportedIface>)

  /** How a change shows in the table of removals; one that removes nothing is no pending removal. */
  function RowOf(host: Id, c: Sync.Change): Removal {
    if c.op.RemovePeer? then Removal(host, c.op.iface, c.op.key, c.state.Pending?) else Removal(host, "", "", false)
  }

  function RowsOf(host: Id, changes: seq<Sync.Change>): seq<Removal> {
    seq(|changes|, i requires 0 <= i < |changes| => RowOf(host, changes[i]))
  }

  /** The changes a deletion creates, one for each row it writes. */
  function Creating(w: Sync.World, rows: seq<Removal>): Sync.World {
    if rows == [] then w
    else
      var r := rows[|rows| - 1];
      Sync.Step(Creating(w, rows[..|rows| - 1]), false, Sync.Create(RemovePeer(r.iface, r.publicKey)))
  }

  function Step(s: System, host: Id, readOnly: bool, e: Event): System {
    match e
    case Create(op) =>
      System(s.db.(removals := s.db.removals + [RowOf(host, Sync.Change(op, Sync.Pending))]),
             Sync.Step(s.sync, readOnly, Sync.Create(op)))
    case Delete(p) =>
      if p in s.db.peers.rows
      then System(DeletePeer(s.db, p), Creating(s.sync, RemovalsFor(s.db, p, s.db.next)))
      else s
    case Cycle(fate, ifaces) =>
      System(if fate == Sync.RequestLost then s.db
             else Ping(s.db, host, Request(Sync.IdsOf(s.sync.reports), ifaces)),
             Sync.Step(s.sync, readOnly, Sync.Cycle(fate)))
  }

  function Run(s: System, host: Id, readOnly: bool, es: seq<Event>): System {
    if es == [] then s else Step(Run(s, host, readOnly, es[..|es| - 1]), host, readOnly, es[|es| - 1])
  }

  /** Every peer the agent reports is on its device. */
  predicate Truthful(d: Device, e: Event) {
    e.Cycle? ==> forall r, p :: r in e.ifaces && p in r.peers && p.publicKey != "" ==> (r.name, p.publicKey) in d.peers
  }

  predicate Honest(s: System, host: Id, readOnly: bool, es: seq<Event>) {
    es == [] ||
    (Honest(s, host, readOnly, es[..|es| - 1]) &&
     Truthful(Run(s, host, readOnly, es[..|es| - 1]).sync.device, es[|es| - 1]))
  }

  /** The beginning: any device, any tables of this one host, and no desired change yet. */
  ghost predicate Start(s: System, host: Id, d0: Device) {
    Ok(s.db) && OneHost(s.db, host) && s.db.removals == [] && s.sync == Sync.Init(d0)
  }

  ghost predicate OneHost(db: Db, host: Id)
    requires Ok(db)
  {
    host in db.hosts && forall i :: IfaceAt(db, i).Some? ==> i.host == host
  }

  // ---- The device -----------------------------------------------------------------------------------

  predicate Adds(op: Op, id: PeerId) {
    op.AddPeer? && (op.iface, op.key) == id
  }

  lemma {:induction false} StaysAway(d: Device, ops: seq<Op>, id: PeerId)
    requires id !in d.peers && forall i :: 0 <= i < |ops| ==> !Adds(ops[i], id)
    ensures id !in ApplyAll(d, ops).peers
    decreases |ops|
  {
    if ops != [] {
      StaysAway(d, ops[..|ops| - 1], id);
    }
  }

  lemma RemovedIsAway(d0: Device, ops: seq<Op>, c: nat, id: PeerId)
    requires c < |ops| && ops[c] == RemovePeer(id.0, id.1)
    requires forall i :: c < i < |ops| ==> !Adds(ops[i], id)
    ensures id !in ApplyAll(d0, ops).peers
  {
    var first, rest := ops[..c + 1], ops[c + 1..];
    assert ops == first + rest && first[..c] == ops[..c];
    ApplyAllConcat(d0, first, rest);
    assert id !in Apply(ApplyAll(d0, ops[..c]), ops[c]).peers;
    StaysAway(ApplyAll(d0, first), rest, id);
  }

  // ---- The agent's protocol -----------------------------------------------------------------------------

  /** Change `c` removes the peer and no later one adds it. */
  ghost predicate Removes(changes: seq<Sync.Change>, c: nat, id: PeerId) {
    && c < |changes| && changes[c].op == RemovePeer(id.0, id.1)
    && forall i :: c < i < |changes| ==> !Adds(changes[i].op, id)
  }

  /** Once the removal is marked the peer is not on the device. */
  ghost predicate Off(w: Sync.World, c: nat, id: PeerId) {
    c < |w.marks| ==> id !in w.device.peers
  }

  /** Marking comes after an execution that left the device right, so the peer was removed from it. */
  lemma MarkedIsOff(w: Sync.World, d0: Device, m: nat, k: nat, c: nat, id: PeerId)
    requires Sync.Inv(w, d0, m, k) && Removes(w.changes, c, id) && Off(w, c, id)
    ensures Off(Sync.Marked(w), c, id)
  {
    var m' := Sync.MarkingKeepsInv(w, d0, m, k);
    if m <= c < m' {
      var ops := Sync.AllOps(w.changes);
      assert w.reports != [];
      assert ops[..k][c] == ops[c];
      RemovedIsAway(d0, ops[..k], c, id);
    }
  }

  lemma RanIsOff(w: Sync.World, after: Sync.World, m: nat, j: nat, reported: bool, c: nat, id: PeerId)
    requires Removes(w.changes, c, id) && Off(w, c, id) && Sync.Ran(w, after, m, j, reported) && m == |w.marks|
    ensures Off(after, c, id)
  {
    if c < m {
      StaysAway(w.device, Sync.AllOps(w.changes)[m..j], id);
    }
  }

  lemma CycleKeepsOff(w: Sync.World, d0: Device, readOnly: bool, fate: Sync.Fate, m: nat, k: nat, c: nat, id: PeerId)
    requires Sync.Inv(w, d0, m, k) && Removes(w.changes, c, id) && Off(w, c, id)
    ensures Off(Sync.Step(w, readOnly, Sync.Cycle(fate)), c, id)
  {
    if fate != Sync.RequestLost {
      var marked := Sync.Marked(w);
      var m' := Sync.MarkingKeepsInv(w, d0, m, k);
      MarkedIsOff(w, d0, m, k, c, id);
      MarkedRemoves(w, c, id);
      if readOnly {
        Sync.NothingExecuted(w, Sync.Cycle(fate));
      } else if fate == Sync.ResponseLost {
        assert Sync.Step(w, readOnly, Sync.Cycle(fate)) == marked;
      } else {
        Sync.InvPending(marked, d0, m', k);
        Sync.ExecutingRan(w, m', fate);
        RanIsOff(marked, Sync.Step(w, false, Sync.Cycle(fate)), m', Sync.ReachOf(w, m', fate), fate == Sync.Delivered,
            c, id);
      }
    }
  }

  lemma MarkedRemoves(w: Sync.World, c: nat, id: PeerId)
    requires Removes(w.changes, c, id) && Sync.AllOps(Sync.Marked(w).changes) == Sync.AllOps(w.changes)
    ensures Removes(Sync.Marked(w).changes, c, id) && |Sync.Marked(w).changes| == |w.changes|
  {
    var marked := Sync.Marked(w).changes;
    assert |Sync.AllOps(marked)| == |marked| && |Sync.AllOps(w.changes)| == |w.changes|;
    forall i | 0 <= i < |marked| ensures marked[i].op == w.changes[i].op {
      assert Sync.AllOps(marked)[i] == Sync.AllOps(w.changes)[i];
    }
  }

  // ---- Both together --------------------------------------------------------------------------------------

  /** The tables show the host's changes, and both sides keep their invariants. */
  ghost predicate Sound(s: System, host: Id, d0: Device, m: nat, k: nat) {
    Ok(s.db) && OneHost(s.db, host) && s.db.removals == RowsOf(host, s.sync.changes) && Sync.Inv(s.sync, d0, m, k)
  }

  lemma StartIsSound(s: System, host: Id, d0: Device)
    requires Start(s, host, d0)
    ensures Sound(s, host, d0, 0, 0)
  {
    assert s.sync.marks == seq(0, i => i) && Sync.AllOps(s.sync.changes) == [];
  }

  /** Marking the changes marks their rows. */
  lemma {:induction false} RowsMarked(host: Id, changes: seq<Sync.Change>, reports: seq<Sync.ExecReport>)
    ensures RowsOf(host, Sync.MarkAll(changes, reports)) == MarkRemovals(RowsOf(host, changes), Sync.IdsOf(reports))
    decreases |reports|
  {
    if reports != [] {
      var front := reports[..|reports| - 1];
      RowsMarked(host, changes, front);
      assert Sync.IdsOf(reports)[..|reports| - 1] == Sync.IdsOf(front);
      assert |Sync.IdsOf(reports)| == |reports|;
      RowMarked(host, Sync.MarkAll(changes, front), reports[|reports| - 1]);
    }
  }

  lemma RowMarked(host: Id, changes: seq<Sync.Change>, r: Sync.ExecReport)
    ensures RowsOf(host, Sync.Mark(changes, r)) == MarkRemoval(RowsOf(host, changes), r.changeId)
  {
  }

  lemma CycleChanges(w: Sync.World, readOnly: bool, fate: Sync.Fate)
    ensures Sync.Step(w, readOnly, Sync.Cycle(fate)).changes ==
            if fate == Sync.RequestLost then w.changes else Sync.MarkAll(w.changes, w.reports)
    ensures |Sync.Step(w, readOnly, Sync.Cycle(fate)).marks| ==
            |w.marks| + if fate == Sync.RequestLost then 0 else |w.reports|
  {
    assert |Sync.IdsOf(w.reports)| == |w.reports|;
  }

  lemma PingKeepsOneHost(db: Db, host: Id, req: Request)
    requires Ok(db) && OneHost(db, host)
    ensures Ok(Ping(db, host, req)) && OneHost(Ping(db, host, req), host)
  {
    PingReconciles(db, host, req);
    ReconcileEffect(db.(removals := MarkRemovals(db.removals, req.executed)), host, db.hosts[host], req.ifaces);
    var after := Ping(db, host, req);
    forall i | IfaceAt(after, i).Some? ensures i.host == host {
      LastReportHost(host, req.ifaces, i);
      var l := Label(i, PeerKey(0, ""));
      assert LastReport(host, req.ifaces, l.iface) == None ==> IfaceAt(after, l.iface) == IfaceAt(db, l.iface);
    }
  }

  lemma CycleKeepsSound(s: System, host: Id, d0: Device, readOnly: bool, e: Event, m: nat, k: nat)
    returns (m': nat, k': nat)
    requires Sound(s, host, d0, m, k) && e.Cycle?
    ensures Sound(Step(s, host, readOnly, e), host, d0, m', k')
  {
    m', k' := Sync.StepKeepsInv(s.sync, d0, readOnly, Sync.Cycle(e.fate), m, k);
    CycleChanges(s.sync, readOnly, e.fate);
    if e.fate != Sync.RequestLost {
      var req := Request(Sync.IdsOf(s.sync.reports), e.ifaces);
      RowsMarked(host, s.sync.changes, s.sync.reports);
      PingKeepsOneHost(s.db, host, req);
      PingRemovals(s.db, host, req);
    }
  }

  lemma PingRemovals(db: Db, host: Id, req: Request)
    requires Ok(db)
    ensures Ping(db, host, req).removals == MarkRemovals(db.removals, req.executed)
  {
    if host in db.hosts {
      ReconcileEffect(db.(removals := MarkRemovals(db.removals, req.executed)), host, db.hosts[host], req.ifaces);
    }
  }

  /** Rows as a deletion writes them for this host. */
  ghost predicate FreshRows(rows: seq<Removal>, host: Id) {
    forall r :: r in rows ==> r.host == host && r.pending
  }

  lemma {:induction false} RemovalsForHost(db: Db, host: Id, p: Id, n: Id)
    requires Ok(db) && OneHost(db, host)
    ensures FreshRows(RemovalsFor(db, p, n), host)
  {
    if n > 0 {
      RemovalsForHost(db, host, p, n - 1);
      if RemovalOf(db, p, n - 1) != [] {
        var k := db.ifaces.rows[db.endpoints.rows[n - 1].key.iface].key;
        assert IfaceAt(db, k).Some?;
      }
    }
  }

  /** What creating the removals does to the agent's side. */
  ghost predicate Created(w: Sync.World, after: Sync.World, rows: seq<Removal>) {
    && after == w.(changes := after.changes) && |after.changes| == |w.changes| + |rows|
    && after.changes[..|w.changes|] == w.changes
    && forall j :: 0 <= j < |rows| ==>
         after.changes[|w.changes| + j] == Sync.Change(RemovePeer(rows[j].iface, rows[j].publicKey), Sync.Pending)
  }

  lemma {:induction false} CreatingKeepsInv(w: Sync.World, d0: Device, rows: seq<Removal>, m: nat, k: nat)
    requires Sync.Inv(w, d0, m, k)
    ensures Sync.Inv(Creating(w, rows), d0, m, k)
    decreases |rows|
  {
    if rows != [] {
      var front, r := rows[..|rows| - 1], rows[|rows| - 1];
      CreatingKeepsInv(w, d0, front, m, k);
      Sync.CreateKeepsInv(Creating(w, front), d0, RemovePeer(r.iface, r.publicKey), m, k);
    }
  }

  lemma {:induction false} CreatingCreates(w: Sync.World, rows: seq<Removal>)
    ensures Created(w, Creating(w, rows), rows)
    decreases |rows|
  {
    if rows != [] {
      var front, r := rows[..|rows| - 1], rows[|rows| - 1];
      CreatingCreates(w, front);
      CreatedOneMore(w, Creating(w, front), front, r);
      assert rows == front + [r];
    }
  }

  lemma CreatedOneMore(w: Sync.World, mid: Sync.World, rows: seq<Removal>, r: Removal)
    requires Created(w, mid, rows)
    ensures Created(w, Sync.Step(mid, false, Sync.Create(RemovePeer(r.iface, r.publicKey))), rows + [r])
  {
    var after := mid.changes + [Sync.Change(RemovePeer(r.iface, r.publicKey), Sync.Pending)];
    assert after[..|w.changes|] == mid.changes[..|w.changes|];
  }

  lemma CreatedRows(w: Sync.World, after: Sync.World, rows: seq<Removal>, host: Id)
    requires Created(w, after, rows) && FreshRows(rows, host)
    ensures RowsOf(host, after.changes) == RowsOf(host, w.changes) + rows
  {
    forall i | 0 <= i < |after.changes|
      ensures RowsOf(host, after.changes)[i] == (RowsOf(host, w.changes) + rows)[i]
    {
      if i >= |w.changes| {
        assert rows[i - |w.changes|] in rows;
        assert after.changes[|w.changes| + (i - |w.changes|)] == after.changes[i];
      } else {
        assert after.changes[..|w.changes|][i] == w.changes[i];
      }
    }
  }

  lemma DeleteKeepsOneHost(db: Db, host: Id, p: Id)
    requires Ok(db) && OneHost(db, host) && Ok(DeletePeer(db, p))
    ensures OneHost(DeletePeer(db, p), host)
  {
    var after := DeletePeer(db, p);
    forall i | IfaceAt(after, i).Some? ensures i.host == host {
      assert IfaceAt(db, i).Some?;
    }
  }

  lemma DeleteKeepsSound(s: System, host: Id, d0: Device, p: Id, m: nat, k: nat)
    requires Sound(s, host, d0, m, k) && p in s.db.peers.rows
    ensures Sound(System(DeletePeer(s.db, p), Creating(s.sync, RemovalsFor(s.db, p, s.db.next))), host, d0, m, k)
    ensures Created(s.sync, Creating(s.sync, RemovalsFor(s.db, p, s.db.next)), RemovalsFor(s.db, p, s.db.next))
  {
    var rows := RemovalsFor(s.db, p, s.db.next);
    DeletePeerKeeps(s.db, p);
    DeleteKeepsOneHost(s.db, host, p);
    RemovalsForHost(s.db, host, p, s.db.next);
    CreatingKeepsInv(s.sync, d0, rows, m, k);
    CreatingCreates(s.sync, rows);
    CreatedRows(s.sync, Creating(s.sync, rows), rows, host);
  }

  lemma CreateKeepsSound(s: System, host: Id, d0: Device, op: Op, m: nat, k: nat)
    requires Sound(s, host, d0, m, k)
    ensures Sound(Step(s, host, false, Create(op)), host, d0, m, k)
  {
    Sync.CreateKeepsInv(s.sync, d0, op, m, k);
    RowsOneMore(host, s.sync.changes, Sync.Change(op, Sync.Pending));
    MoreRemovals(s.db, host, RowOf(host, Sync.Change(op, Sync.Pending)));
  }

  lemma RowsOneMore(host: Id, changes: seq<Sync.Change>, c: Sync.Change)
    ensures RowsOf(host, changes + [c]) == RowsOf(host, changes) + [RowOf(host, c)]
  {
  }

  lemma MoreRemovals(db: Db, host: Id, row: Removal)
    requires Ok(db) && OneHost(db, host)
    ensures var after := db.(removals := db.removals + [row]); Ok(after) && OneHost(after, host)
  {
    var after := db.(removals := db.removals + [row]);
    assert forall i :: IfaceAt(after, i) == IfaceAt(db, i);
  }

  lemma StepKeepsSound(s: System, host: Id, d0: Device, readOnly: bool, e: Event, m: nat, k: nat)
    returns (m': nat, k': nat)
    requires Sound(s, host, d0, m, k)
    ensures Sound(Step(s, host, readOnly, e), host, d0, m', k')
  {
    m', k' := m, k;
    match e
    case Create(op) => CreateKeepsSound(s, host, d0, op, m, k);
    case Delete(p) =>
      if p in s.db.peers.rows {
        DeleteKeepsSound(s, host, d0, p, m, k);
      }
    case Cycle(fate, ifaces) =>
      m', k' := CycleKeepsSound(s, host, d0, readOnly, e, m, k);
  }

  // ---- The removed peer ------------------------------------------------------------------------------------

  function IdOf(l: Label): PeerId { (l.iface.name, l.peer.publicKey) }

  /** The label is free, and the removal `c` keeps it so: pending, or carried out. */
  ghost predicate Held(s: System, c: nat, l: Label)
    requires Ok(s.db)
  {
    StoredAt(s.db, l) == None && c < |s.sync.changes| && Off(s.sync, c, IdOf(l))
  }

  /** A ping that tells the truth about the device does not bring the peer back. */
  lemma TruthfulPing(db: Db, host: Id, req: Request, d: Device, l: Label)
    requires Ok(db) && host in db.hosts && l.iface.host == host && StoredAt(db, l) == None
    requires Truthful(d, Cycle(Sync.Delivered, req.ifaces))
    requires IdOf(l) !in d.peers || HasPendingRemovePeer(Ping(db, host, req), host, l.peer.publicKey)
    ensures Ok(Ping(db, host, req)) && StoredAt(Ping(db, host, req), l) == None
  {
    PingReconciles(db, host, req);
    var after := Ping(db, host, req);
    LastReportHost(host, req.ifaces, l.iface);
    LastReportIs(host, req.ifaces, l.iface.name);
    match LastReport(host, req.ifaces, l.iface)
    case Some(r) => ReportedIff(after, host, db.hosts[host], r.peers, l.peer);
    case None =>
  }

  lemma CycleHolds(s: System, host: Id, d0: Device, readOnly: bool, e: Event, m: nat, k: nat, c: nat, l: Label)
    requires Sound(s, host, d0, m, k) && e.Cycle? && Truthful(s.sync.device, e) && l.iface.host == host
    requires Held(s, c, l) && Removes(s.sync.changes, c, IdOf(l)) && Ok(Step(s, host, readOnly, e).db)
    ensures Held(Step(s, host, readOnly, e), c, l)
  {
    CycleKeepsOff(s.sync, d0, readOnly, e.fate, m, k, c, IdOf(l));
    CycleChanges(s.sync, readOnly, e.fate);
    if e.fate != Sync.RequestLost {
      var req := Request(Sync.IdsOf(s.sync.reports), e.ifaces);
      PendingOrOff(s, host, d0, m, k, c, l, req);
      TruthfulPing(s.db, host, req, s.sync.device, l);
      Sync.MarkedExactly(s.sync, d0, m, k);
    }
  }

  lemma PendingOrOff(s: System, host: Id, d0: Device, m: nat, k: nat, c: nat, l: Label, req: Request)
    requires Sound(s, host, d0, m, k) && Removes(s.sync.changes, c, IdOf(l)) && Off(s.sync, c, IdOf(l))
    requires req.executed == Sync.IdsOf(s.sync.reports)
    ensures IdOf(l) !in s.sync.device.peers || HasPendingRemovePeer(Ping(s.db, host, req), host, l.peer.publicKey)
  {
    var marked, rows := Sync.Marked(s.sync), Ping(s.db, host, req).removals;
    MarkedIsOff(s.sync, d0, m, k, c, IdOf(l));
    var m' := Sync.MarkingKeepsInv(s.sync, d0, m, k);
    MarkedRemoves(s.sync, c, IdOf(l));
    PingRemovals(s.db, host, req);
    RowsMarked(host, s.sync.changes, s.sync.reports);
    if c >= m' {
      assert rows[c] == RowOf(host, marked.changes[c]) && rows[c] in rows;
    }
  }

  /** Changes are only added, and what they ask for does not change. */
  ghost predicate SameOps(a: seq<Sync.Change>, b: seq<Sync.Change>) {
    |a| <= |b| && forall i :: 0 <= i < |a| ==> b[i].op == a[i].op
  }

  lemma RemovesBefore(a: seq<Sync.Change>, b: seq<Sync.Change>, c: nat, id: PeerId)
    requires SameOps(a, b) && Removes(b, c, id) && c < |a|
    ensures Removes(a, c, id)
  {
  }

  lemma StepSameOps(s: System, host: Id, d0: Device, readOnly: bool, e: Event, m: nat, k: nat)
    requires Sound(s, host, d0, m, k)
    ensures SameOps(s.sync.changes, Step(s, host, readOnly, e).sync.changes)
  {
    match e
    case Create(op) =>
    case Delete(p) =>
      if p in s.db.peers.rows {
        DeleteKeepsSound(s, host, d0, p, m, k);
        CreatedSameOps(s.sync, Creating(s.sync, RemovalsFor(s.db, p, s.db.next)), RemovalsFor(s.db, p, s.db.next));
      }
    case Cycle(fate, ifaces) =>
      CycleChanges(s.sync, readOnly, fate);
      Sync.MarkedExactly(s.sync, d0, m, k);
      MarkedSameOps(s.sync);
  }

  lemma CreatedSameOps(w: Sync.World, after: Sync.World, rows: seq<Removal>)
    requires Created(w, after, rows)
    ensures SameOps(w.changes, after.changes)
  {
    forall i | 0 <= i < |w.changes| ensures after.changes[i].op == w.changes[i].op {
      assert after.changes[..|w.changes|][i] == w.changes[i];
    }
  }

  lemma MarkedSameOps(w: Sync.World)
    requires Sync.AllOps(Sync.Marked(w).changes) == Sync.AllOps(w.changes)
    requires |Sync.Marked(w).changes| == |w.changes|
    ensures SameOps(w.changes, Sync.Marked(w).changes)
  {
    forall i | 0 <= i < |w.changes| ensures Sync.Marked(w).changes[i].op == w.changes[i].op {
      assert Sync.AllOps(Sync.Marked(w).changes)[i] == Sync.AllOps(w.changes)[i];
    }
  }

  lemma StepHolds(s: System, host: Id, d0: Device, readOnly: bool, e: Event, m: nat, k: nat, c: nat, l: Label)
    requires Sound(s, host, d0, m, k) && Ok(Step(s, host, readOnly, e).db)
    requires Truthful(s.sync.device, e) && l.iface.host == host && Held(s, c, l)
    requires Removes(Step(s, host, readOnly, e).sync.changes, c, IdOf(l))
    ensures Held(Step(s, host, readOnly, e), c, l)
  {
    StepSameOps(s, host, d0, readOnly, e, m, k);
    match e
    case Create(op) =>
    case Delete(p) =>
      if p in s.db.peers.rows {
        DeletePeerOnlyRemoves(s.db, p, l);
        DeleteKeepsSound(s, host, d0, p, m, k);
      }
    case Cycle(fate, ifaces) =>
      RemovesBefore(s.sync.changes, Step(s, host, readOnly, e).sync.changes, c, IdOf(l));
      CycleHolds(s, host, d0, readOnly, e, m, k, c, l);
  }

  lemma {:induction false} RunKeepsSound(s: System, host: Id, d0: Device, readOnly: bool, es: seq<Event>, m: nat,
      k: nat) returns (m': nat, k': nat)
    requires Sound(s, host, d0, m, k)
    ensures Sound(Run(s, host, readOnly, es), host, d0, m', k')
    ensures SameOps(s.sync.changes, Run(s, host, readOnly, es).sync.changes)
    decreases |es|
  {
    m', k' := m, k;
    if es != [] {
      var front := es[..|es| - 1];
      m', k' := RunKeepsSound(s, host, d0, readOnly, front, m, k);
      StepSameOps(Run(s, host, readOnly, front), host, d0, readOnly, es[|es| - 1], m', k');
      m', k' := StepKeepsSound(Run(s, host, readOnly, front), host, d0, readOnly, es[|es| - 1], m', k');
    }
  }

  /** A label held at the beginning of an honest run is held at its end, if no change adds the peer. */
  lemma {:induction false} RunHolds(s: System, host: Id, d0: Device, readOnly: bool, es: seq<Event>, m: nat, k: nat,
      c: nat, l: Label)
    requires Sound(s, host, d0, m, k) && l.iface.host == host && Held(s, c, l) && Honest(s, host, readOnly, es)
    requires Removes(Run(s, host, readOnly, es).sync.changes, c, IdOf(l))
    ensures Ok(Run(s, host, readOnly, es).db) && Held(Run(s, host, readOnly, es), c, l)
    decreases |es|
  {
    if es != [] {
      var front, e := es[..|es| - 1], es[|es| - 1];
      var mid := Run(s, host, readOnly, front);
      var m1, k1 := RunKeepsSound(s, host, d0, readOnly, front, m, k);
      var m2, k2 := StepKeepsSound(mid, host, d0, readOnly, e, m1, k1);
      StepSameOps(mid, host, d0, readOnly, e, m1, k1);
      RemovesBefore(mid.sync.changes, Step(mid, host, readOnly, e).sync.changes, c, IdOf(l));
      RunHolds(s, host, d0, readOnly, front, m, k, c, l);
      StepHolds(mid, host, d0, readOnly, e, m1, k1, c, l);
    }
  }

  /** Some run leads from a beginning to `s`. */
  ghost predicate Reachable(s: System, host: Id, d0: Device, readOnly: bool) {
    exists start, es :: Start(start, host, d0) && s == Run(start, host, readOnly, es)
  }

  lemma ReachableIsSound(s: System, host: Id, d0: Device, readOnly: bool) returns (m: nat, k: nat)
    requires Reachable(s, host, d0, readOnly)
    ensures Sound(s, host, d0, m, k)
  {
    var start, es :| Start(start, host, d0) && s == Run(start, host, readOnly, es);
    StartIsSound(start, host, d0);
    m, k := RunKeepsSound(start, host, d0, readOnly, es, 0, 0);
  }

  /** The deletion has created a removal for each endpoint the peer had. */
  lemma DeletionHolds(s: System, gone: System, host: Id, d0: Device, p: Id, l: Label, m: nat, k: nat) returns (c: nat)
    requires Sound(s, host, d0, m, k) && p in s.db.peers.rows && l.peer == s.db.peers.rows[p].key
    requires StoredAt(s.db, l).Some? && gone == Step(s, host, false, Delete(p))
    ensures Ok(gone.db) && l.iface.host == host && Held(gone, c, l)
    ensures |s.sync.changes| <= c && gone.sync.changes[c].op == RemovePeer(l.iface.name, l.peer.publicKey)
  {
    var rows := RemovalsFor(s.db, p, s.db.next);
    var j := DeletionFrees(s.db, host, p, l);
    c := |s.sync.changes| + j;
    CreatingCreates(s.sync, rows);
    CreatedIsOff(s.sync, gone.sync, rows, j, IdOf(l));
  }

  lemma DeletionFrees(db: Db, host: Id, p: Id, l: Label) returns (j: nat)
    requires Ok(db) && OneHost(db, host) && p in db.peers.rows && l.peer == db.peers.rows[p].key
    requires StoredAt(db, l).Some?
    ensures Ok(DeletePeer(db, p)) && StoredAt(DeletePeer(db, p), l) == None && l.iface.host == host
    ensures var rows := RemovalsFor(db, p, db.next);
            j < |rows| && rows[j] == Removal(host, l.iface.name, l.peer.publicKey, true)
  {
    j := RemovalWritten(db, p, l);
    DeletePeerKeeps(db, p);
    DeletePeerView(db, p, l);
    assert IfaceAt(db, l.iface).Some?;
  }

  /** A change just created is not marked. */
  lemma CreatedIsOff(w: Sync.World, after: Sync.World, rows: seq<Removal>, j: nat, id: PeerId)
    requires Created(w, after, rows) && |w.marks| <= |w.changes| && j < |rows|
    ensures Off(after, |w.changes| + j, id) && |w.changes| + j < |after.changes|
    ensures after.changes[|w.changes| + j].op == RemovePeer(rows[j].iface, rows[j].publicKey)
  {
  }

  /**
   * From a deletion on, in every run of one agent and the API with lost messages and crashes, an
   * interface that had the peer does not get it back, neither while its removal is pending nor after it
   * was carried out, unless a later change adds the peer there again. Every report of the agent after
   * the deletion has to be about peers that are on its device.
   */
  lemma DeletedStaysGone(s: System, host: Id, d0: Device, readOnly: bool, p: Id, es: seq<Event>, l: Label, end: System)
    requires Reachable(s, host, d0, readOnly) && Ok(s.db) && p in s.db.peers.rows
    requires l.peer == s.db.peers.rows[p].key && StoredAt(s.db, l).Some?
    requires Honest(Step(s, host, readOnly, Delete(p)), host, readOnly, es)
    requires end == Run(Step(s, host, readOnly, Delete(p)), host, readOnly, es)
    requires forall i :: |s.sync.changes| <= i < |end.sync.changes| ==> !Adds(end.sync.changes[i].op, IdOf(l))
    ensures Ok(end.db) && StoredAt(end.db, l) == None
  {
    var m, k := ReachableIsSound(s, host, d0, readOnly);
    var gone := Step(s, host, readOnly, Delete(p));
    var c := DeletionHolds(s, gone, host, d0, p, l, m, k);
    var m1, k1 := StepKeepsSound(s, host, d0, readOnly, Delete(p), m, k);
    var m2, k2 := RunKeepsSound(gone, host, d0, readOnly, es, m1, k1);
    RunHolds(gone, host, d0, readOnly, es, m1, k1, c, l);
  }

  // ---- A peer added again ------------------------------------------------------------------------------------

  lemma DeliveredKeepsSound(s: System, host: Id, d0: Device, ifaces: seq<ReportedIface>, m: nat, k: nat)
    returns (after: System, m': nat)
    requires Sound(s, host, d0, m, k)
    ensures after == Step(s, host, false, Cycle(Sync.Delivered, ifaces))
    ensures var n := |s.sync.changes|;
            && |after.sync.changes| == n && Sound(after, host, d0, m', n) && after.db.hosts == s.db.hosts
            && Sync.AllOps(after.sync.changes) == Sync.AllOps(s.sync.changes)
            && after.sync.device == ApplyAll(d0, Sync.AllOps(s.sync.changes))
            && after.sync.reports == Sync.ReportsOf(Sync.Slice(after.sync.changes, m', n))
            && (s.sync.reports == Sync.ReportsOf(Sync.Slice(s.sync.changes, m, k)) ==> m' == k)
  {
    after := Step(s, host, false, Cycle(Sync.Delivered, ifaces));
    var k0: nat;
    m', k0 := Sync.StepKeepsInv(s.sync, d0, false, Sync.Cycle(Sync.Delivered), m, k);
    var m1, k1 := CycleKeepsSound(s, host, d0, false, Cycle(Sync.Delivered, ifaces), m, k);
    var ops := Sync.AllOps(s.sync.changes);
    assert |after.sync.changes| == |Sync.AllOps(after.sync.changes)| == |ops|;
    assert ops[..|ops|] == ops;
    var req := Request(Sync.IdsOf(s.sync.reports), ifaces);
    ReconcileEffect(s.db.(removals := MarkRemovals(s.db.removals, req.executed)), host, s.db.hosts[host], ifaces);
  }

  /**
   * The exception is real: when the last change adds a peer, then after two delivered cycles it is on the
   * device with nothing pending, and a cycle that reports it stores it.
   */
  lemma AddedAgainComesBack(s: System, host: Id, d0: Device, r: ReportedIface, p: ReportedPeer, es: seq<Event>,
      l: Label, end: System)
    requires Reachable(s, host, d0, false) && Ok(s.db) && s.sync.changes != []
    requires host in s.db.hosts && l == Label(IfaceKey(host, r.name), PeerKey(s.db.hosts[host], p.publicKey))
    requires Adds(s.sync.changes[|s.sync.changes| - 1].op, IdOf(l))
    requires r.publicKey != "" && r.peers == [p] && p.publicKey != ""
    requires es == [Cycle(Sync.Delivered, [])] + [Cycle(Sync.Delivered, [])] + [Cycle(Sync.Delivered, [r])]
    requires end == Run(s, host, false, es)
    ensures Honest(s, host, false, es) && Ok(end.db) && StoredAt(end.db, l) == Some(StatsOf(p))
  {
    var s2 := DeliveredTwice(s, host, d0);
    assert host in s2.db.hosts && s2.db.hosts[host] == s.db.hosts[host];
    ThreeCycles(s, host, r, es, Step(s, host, false, Cycle(Sync.Delivered, [])), s2);
    AddedIsOn(d0, Sync.AllOps(s.sync.changes), IdOf(l));
    NothingPending(s2, host, d0, |s.sync.changes|);
    NothingReported(s2.sync, |s.sync.changes|);
    ThirdStores(s2, host, r, p);
  }

  lemma NothingReported(w: Sync.World, n: nat)
    requires n == |w.changes| && w.reports == Sync.ReportsOf(Sync.Slice(w.changes, n, n))
    ensures Sync.IdsOf(w.reports) == []
  {
    assert w.reports == [];
  }

  lemma ThirdStores(s: System, host: Id, r: ReportedIface, p: ReportedPeer)
    requires Ok(s.db) && host in s.db.hosts && forall row :: row in s.db.removals ==> !row.pending
    requires Sync.IdsOf(s.sync.reports) == [] && r.publicKey != "" && r.peers == [p] && p.publicKey != ""
    ensures var end := Step(s, host, false, Cycle(Sync.Delivered, [r]));
            Ok(end.db) && StoredAt(end.db, Label(IfaceKey(host, r.name), PeerKey(s.db.hosts[host], p.publicKey))) ==
                Some(StatsOf(p))
  {
    ReportStores(s.db, host, Request([], [r]), r, p);
  }

  lemma DeliveredTwice(s: System, host: Id, d0: Device) returns (s2: System)
    requires Reachable(s, host, d0, false)
    ensures var quiet, n := Cycle(Sync.Delivered, []), |s.sync.changes|;
            && s2 == Step(Step(s, host, false, quiet), host, false, quiet) && s2.db.hosts == s.db.hosts
            && Sound(s2, host, d0, n, n) && |s2.sync.changes| == n
            && s2.sync.reports == Sync.ReportsOf(Sync.Slice(s2.sync.changes, n, n))
            && s2.sync.device == ApplyAll(d0, Sync.AllOps(s.sync.changes))
  {
    var m, k := ReachableIsSound(s, host, d0, false);
    var s1, m1 := DeliveredKeepsSound(s, host, d0, [], m, k);
    var m2: nat;
    s2, m2 := DeliveredKeepsSound(s1, host, d0, [], m1, |s.sync.changes|);
  }

  lemma AddedIsOn(d0: Device, ops: seq<Op>, id: PeerId)
    requires ops != [] && Adds(ops[|ops| - 1], id)
    ensures id in ApplyAll(d0, ops).peers
  {
  }

  lemma OneMore(s: System, host: Id, readOnly: bool, es: seq<Event>, e: Event)
    ensures Run(s, host, readOnly, es + [e]) == Step(Run(s, host, readOnly, es), host, readOnly, e)
    ensures Honest(s, host, readOnly, es + [e]) <==>
            Honest(s, host, readOnly, es) && Truthful(Run(s, host, readOnly, es).sync.device, e)
  {
    assert (es + [e])[..|es + [e]| - 1] == es;
  }

  lemma ThreeCycles(s: System, host: Id, r: ReportedIface, es: seq<Event>, s1: System, s2: System)
    requires es == [Cycle(Sync.Delivered, [])] + [Cycle(Sync.Delivered, [])] + [Cycle(Sync.Delivered, [r])]
    requires s1 == Step(s, host, false, Cycle(Sync.Delivered, []))
    requires s2 == Step(s1, host, false, Cycle(Sync.Delivered, []))
    ensures Run(s, host, false, es) == Step(s2, host, false, Cycle(Sync.Delivered, [r]))
    ensures Truthful(s2.sync.device, Cycle(Sync.Delivered, [r])) ==> Honest(s, host, false, es)
  {
    var quiet := Cycle(Sync.Delivered, []);
    OneMore(s, host, false, [], quiet);
    OneMore(s, host, false, [quiet], quiet);
    OneMore(s, host, false, [quiet] + [quiet], Cycle(Sync.Delivered, [r]));
    assert [] + [quiet] == [quiet];
  }

  /** With every change marked nothing is pending. */
  lemma NothingPending(s: System, host: Id, d0: Device, n: nat)
    requires Sound(s, host, d0, n, n) && n == |s.sync.changes|
    ensures forall r :: r in s.db.removals ==> !r.pending
  {
    forall r | r in s.db.removals ensures !r.pending {
      var i :| 0 <= i < n && s.db.removals[i] == r;
      assert s.sync.changes[i].state == Sync.StateAt(s.sync.changes[i].op, true);
    }
  }

  lemma ReportStores(db: Db, host: Id, req: Request, r: ReportedIface, p: ReportedPeer)
    requires Ok(db) && host in db.hosts && forall row :: row in db.removals ==> !row.pending
    requires req == Request([], [r]) && r.publicKey != "" && r.peers == [p] && p.publicKey != ""
    ensures var after := Ping(db, host, req);
            Ok(after) && StoredAt(after, Label(IfaceKey(host, r.name), PeerKey(db.hosts[host], p.publicKey))) ==
                Some(StatsOf(p))
  {
    var after, k := Ping(db, host, req), PeerKey(db.hosts[host], p.publicKey);
    var l := Label(IfaceKey(host, r.name), k);
    PingRemovals(db, host, req);
    PingReconciles(db, host, req);
    assert LastReport(host, [r], l.iface) == Some(r);
    assert Reported(after, host, db.hosts[host], [p], k) == Some(StatsOf(p));
  }
}
