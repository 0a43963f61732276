/** The desired-change protocol between one agent and the API, over a network that may lose any message. */
module AgentSync {
  import opened Wrappers
  import opened WireGuardDevice

  datatype ChangeState = Pending | Executed | Failed

  /** A row of `desired_changes` for the agent's host; its id is its position in creation order. */
  datatype Change = Change(op: Op, state: ChangeState)

  datatype DesiredChange = DesiredChange(id: nat, op: Op)

  datatype ExecReport = ExecReport(changeId: nat, success: bool)

  // ---- The API's side ----------------------------------------------------------------------

  function Mark(changes: seq<Change>, r: ExecReport): seq<Change> {
    if r.changeId < |changes|
    then changes[r.changeId := changes[r.changeId].(state := if r.success then Executed else Failed)]
    else changes
  }

  function MarkAll(changes: seq<Change>, reports: seq<ExecReport>): seq<Change> {
    if reports == [] then changes else Mark(MarkAll(changes, reports[..|reports| - 1]), reports[|reports| - 1])
  }

  /** The rows with `state = 'pending'` among the first `n`, in creation order. */
  function PendingAmong(changes: seq<Change>, n: nat): seq<DesiredChange>
    requires n <= |changes|
  {
    if n == 0 then []
    else PendingAmong(changes, n - 1) +
         (if changes[n - 1].state == Pending then [DesiredChange(n - 1, changes[n - 1].op)] else [])
  }

  function PendingList(changes: seq<Change>): seq<DesiredChange> {
    PendingAmong(changes, |changes|)
  }

  function IdsOf(reports: seq<ExecReport>): seq<nat> {
    seq(|reports|, i requires 0 <= i < |reports| => reports[i].changeId)
  }

  class ChangeStore {
    var changes: seq<Change>
    ghost var marks: seq<nat>   // every change id marked so far, oldest mark first

    constructor ()
      ensures changes == [] && marks == []
    {
      changes, marks := [], [];
    }

    method CreateDesiredChange(op: Op) returns (id: nat)
      modifies this`changes
      ensures id == |old(changes)|
      ensures changes == old(changes) + [Change(op, Pending)]
    {
      id := |changes|;
      changes := changes + [Change(op, Pending)];
    }

    /** The UPDATE does not look at the old state, so nothing here stops a second mark. */
    method MarkChangeExecuted(changeId: nat, success: bool) returns (found: bool)
      modifies this
      ensures found == (changeId < |old(changes)|)
      ensures changes == Mark(old(changes), ExecReport(changeId, success))
      ensures marks == old(marks) + [changeId]
    {
      found := changeId < |changes|;
      if found {
        changes := changes[changeId := changes[changeId].(state := if success then Executed else Failed)];
      }
      marks := marks + [changeId];
    }

    method ListPendingChanges() returns (pending: seq<DesiredChange>)
      ensures pending == PendingList(changes)
    {
      pending := [];
      for i := 0 to |changes|
        invariant pending == PendingAmong(changes, i)
      {
        if changes[i].state == Pending {
          pending := pending + [DesiredChange(i, changes[i].op)];
        }
      }
    }

    /** The change-related steps of the ping handler: take the reports, answer with what is pending. */
    method Ping(executed: seq<ExecReport>) returns (data: seq<DesiredChange>)
      modifies this
      ensures changes == MarkAll(old(changes), executed)
      ensures marks == old(marks) + IdsOf(executed)
      ensures data == PendingList(changes)
    {
      for i := 0 to |executed|
        invariant changes == MarkAll(old(changes), executed[..i])
        invariant marks == old(marks) + IdsOf(executed[..i])
      {
        assert executed[..i + 1][..i] == executed[..i];
        var _ := MarkChangeExecuted(executed[i].changeId, executed[i].success);
      }
      assert executed[..|executed|] == executed;
      data := ListPendingChanges();
    }
  }

  // ---- The agent's side --------------------------------------------------------------------

  function OpsOf(batch: seq<DesiredChange>): seq<Op> {
    seq(|batch|, i requires 0 <= i < |batch| => batch[i].op)
  }

  function ChangeIds(batch: seq<DesiredChange>): seq<nat> {
    seq(|batch|, i requires 0 <= i < |batch| => batch[i].id)
  }

  function ReportsOf(batch: seq<DesiredChange>): seq<ExecReport> {
    seq(|batch|, i requires 0 <= i < |batch| => ExecReport(batch[i].id, Succeeds(batch[i].op)))
  }

  /**
   * What becomes of one cycle. A request counts as lost also when the agent could not build it. A crash
   * kills the agent after it has executed the first `done` changes of the response.
   */
  datatype Fate = RequestLost | ResponseLost | Delivered | Crashed(done: nat)

  function Min(a: nat, b: nat): nat { if a < b then a else b }

  class Agent {
    const readOnly: bool
    var device: Device
    ghost var executions: seq<nat>   // every execution of a change so far, oldest first

    constructor (readOnly: bool, device: Device)
      ensures this.readOnly == readOnly && this.device == device && executions == []
    {
      this.readOnly, this.device, executions := readOnly, device, [];
    }

    method ExecuteChange(change: DesiredChange) returns (report: ExecReport)
      modifies this
      ensures device == Apply(old(device), change.op)
      ensures executions == old(executions) + [change.id]
      ensures report == ExecReport(change.id, Succeeds(change.op))
    {
      match change.op {
        case AddPeer(_, _, _, _, _) => device := SetPeer(device, change.op);
        case RemovePeer(iface, key) =>
          device := device.(peers := device.peers - {(iface, key)},
              owners := WithoutOwner(device.owners, iface, key, {}));
        case UpdateInterface(iface, port) =>
          if port > 0 {
            device := device.(ports := device.ports[iface := port]);
          }
        case BadPayload =>
        case UnknownType =>
      }
      executions := executions + [change.id];
      report := ExecReport(change.id, !change.op.BadPayload? && !change.op.UnknownType?);
    }

    /** One cycle: deliver the previous reports, then execute whatever the response lists. */
    method Ping(api: ChangeStore, previousExecuted: seq<ExecReport>, fate: Fate)
      returns (executed: seq<ExecReport>, ok: bool)
      modifies this, api
      ensures ok == (fate == Delivered)
      ensures var before := World(old(api.changes), old(device), previousExecuted, old(executions), old(api.marks));
              World(api.changes, device, executed, executions, api.marks) == Step(before, readOnly, Cycle(fate))
    {
      if fate == RequestLost {
        return [], false;
      }
      var data := api.Ping(previousExecuted);
      if fate == ResponseLost {
        return [], false;
      }
      var count := if fate.Crashed? then Min(fate.done, |data|) else |data|;
      if readOnly || count == 0 {
        assert ApplyAll(device, []) == device && OpsOf(data[..0]) == [];
        return [], fate == Delivered;
      }
      executed := ExecuteAll(data, count);
      assert data[..|data|] == data;
      ok := fate == Delivered;
      if !ok {
        executed := [];
      }
    }

    /** The loop over the changes of a response, as far as the agent gets. */
    method ExecuteAll(data: seq<DesiredChange>, count: nat) returns (executed: seq<ExecReport>)
      requires count <= |data|
      modifies this
      ensures device == ApplyAll(old(device), OpsOf(data[..count]))
      ensures executions == old(executions) + ChangeIds(data[..count]) && executed == ReportsOf(data[..count])
    {
      executed := [];
      for i := 0 to count
        invariant device == ApplyAll(old(device), OpsOf(data[..i]))
        invariant executions == old(executions) + ChangeIds(data[..i])
        invariant executed == ReportsOf(data[..i])
      {
        assert OpsOf(data[..i + 1])[..i] == OpsOf(data[..i]);
        var report := ExecuteChange(data[i]);
        executed := executed + [report];
      }
    }
  }

  // ---- Runs --------------------------------------------------------------------------------

  /** Both ends together with the history of every execution and every mark. */
  datatype World = World(
    changes: seq<Change>,
    device: Device,
    reports: seq<ExecReport>,
    executions: seq<nat>,
    marks: seq<nat>)

  datatype Event = Create(op: Op) | Cycle(fate: Fate)

  function Init(d: Device): World {
    World([], d, [], [], [])
  }

  function Step(w: World, readOnly: bool, e: Event): World {
    match e
    case Create(op) => w.(changes := w.changes + [Change(op, Pending)])
    case Cycle(RequestLost) => w.(reports := [])
    case Cycle(ResponseLost) =>
      w.(changes := MarkAll(w.changes, w.reports), marks := w.marks + IdsOf(w.reports), reports := [])
    case Cycle(Delivered) =>
      var changes := MarkAll(w.changes, w.reports);
      var marks := w.marks + IdsOf(w.reports);
      var data := PendingList(changes);
      if readOnly then w.(changes := changes, marks := marks, reports := [])
      else World(changes, ApplyAll(w.device, OpsOf(data)), ReportsOf(data), w.executions + ChangeIds(data), marks)
    case Cycle(Crashed(done)) =>
      var changes := MarkAll(w.changes, w.reports);
      var marks := w.marks + IdsOf(w.reports);
      var data := if readOnly then [] else PendingList(changes);
      var part := data[..Min(done, |data|)];
      World(changes, ApplyAll(w.device, OpsOf(part)), [], w.executions + ChangeIds(part), marks)
  }

  function Run(w: World, readOnly: bool, events: seq<Event>): World {
    if events == [] then w
    else Step(Run(w, readOnly, events[..|events| - 1]), readOnly, events[|events| - 1])
  }

  /** The operations of the first `n` changes whose id is in `ids`, each once, in creation order. */
  function OnceInOrder(changes: seq<Change>, n: nat, ids: set<nat>): seq<Op>
    requires n <= |changes|
  {
    if n == 0 then []
    else OnceInOrder(changes, n - 1, ids) + (if n - 1 in ids then [changes[n - 1].op] else [])
  }

  function ExecutedIds(w: World): set<nat> {
    set id | id in w.executions
  }

  function AllOps(changes: seq<Change>): seq<Op> {
    seq(|changes|, i requires 0 <= i < |changes| => changes[i].op)
  }

  function Slice(changes: seq<Change>, lo: nat, hi: nat): seq<DesiredChange>
    requires lo <= hi <= |changes|
  {
    seq(hi - lo, i requires 0 <= i < hi - lo => DesiredChange(lo + i, changes[lo + i].op))
  }

  /**
   * The changes fall into three runs: marked (below `m`), executed but not marked (from `m` to `k`),
   * and never executed (from `k` on). Outstanding reports are about exactly the middle run. Executing
   * the middle run brings the device to where each change below `k` has been run once in order; while
   * reports are outstanding it is there already.
   */
  ghost predicate Inv(w: World, d0: Device, m: nat, k: nat) {
    && m <= k <= |w.changes|
    && (forall i :: 0 <= i < |w.changes| ==> w.changes[i].state == StateAt(w.changes[i].op, i < m))
    && ApplyAll(w.device, AllOps(w.changes)[m..k]) == ApplyAll(d0, AllOps(w.changes)[..k])
    && (w.reports != [] ==> Exact(w, d0, k))
    && (w.reports == [] || w.reports == ReportsOf(Slice(w.changes, m, k)))
    && (forall i: nat :: i in w.executions <==> i < k)
    && w.marks == seq(m, i => i)
  }

  ghost predicate Exact(w: World, d0: Device, k: nat)
    requires k <= |w.changes|
  {
    w.device == ApplyAll(d0, AllOps(w.changes)[..k])
  }

  function StateAt(op: Op, marked: bool): ChangeState {
    if !marked then Pending else if Succeeds(op) then Executed else Failed
  }

  lemma {:induction false} PendingIsSuffix(changes: seq<Change>, m: nat, n: nat)
    requires m <= n <= |changes|
    requires forall i :: 0 <= i < n ==> (changes[i].state == Pending <==> m <= i)
    ensures PendingAmong(changes, n) == Slice(changes, m, n)
  {
    if n > m {
      PendingIsSuffix(changes, m, n - 1);
      assert Slice(changes, m, n) == Slice(changes, m, n - 1) + [DesiredChange(n - 1, changes[n - 1].op)];
    } else {
      NonePending(changes, n);
    }
  }

  lemma {:induction false} NonePending(changes: seq<Change>, n: nat)
    requires n <= |changes|
    requires forall i :: 0 <= i < n ==> changes[i].state != Pending
    ensures PendingAmong(changes, n) == []
  {
    if n > 0 {
      NonePending(changes, n - 1);
    }
  }

  lemma {:induction false} MarkSlice(changes: seq<Change>, m: nat, j: nat)
    requires m <= j <= |changes|
    ensures var after := MarkAll(changes, ReportsOf(Slice(changes, m, j)));
            && |after| == |changes|
            && forall i :: 0 <= i < |changes| ==>
                 after[i] == if m <= i < j then changes[i].(state := StateAt(changes[i].op, true)) else changes[i]
    decreases j
  {
    if j > m {
      MarkSlice(changes, m, j - 1);
      var reports := ReportsOf(Slice(changes, m, j));
      assert reports[..|reports| - 1] == ReportsOf(Slice(changes, m, j - 1));
    }
  }

  /** The API's half of a cycle. */
  function Marked(w: World): World {
    w.(changes := MarkAll(w.changes, w.reports), marks := w.marks + IdsOf(w.reports), reports := [])
  }

  /** It closes the middle run if the reports are still there. */
  lemma MarkingKeepsInv(w: World, d0: Device, m: nat, k: nat) returns (m': nat)
    requires Inv(w, d0, m, k)
    ensures Inv(Marked(w), d0, m', k) && AllOps(Marked(w).changes) == AllOps(w.changes)
    ensures w.reports == ReportsOf(Slice(w.changes, m, k)) ==> m' == k
    ensures m' == m || m' == k
  {
    if w.reports == [] {
      m' := m;
      assert w.marks + IdsOf(w.reports) == w.marks;
      if w.reports == ReportsOf(Slice(w.changes, m, k)) {
        assert |w.reports| == k - m;
      }
    } else {
      m' := k;
      MarkSlice(w.changes, m, k);
      assert Marked(w).marks == seq(k, i => i);
      assert AllOps(Marked(w).changes) == AllOps(w.changes);
      ExactNeedsNothing(Marked(w), d0, k);
    }
  }

  lemma MarkedExactly(w: World, d0: Device, m: nat, k: nat)
    requires Inv(w, d0, m, k)
    ensures Inv(Marked(w), d0, |Marked(w).marks|, k)
    ensures AllOps(Marked(w).changes) == AllOps(w.changes) && |Marked(w).changes| == |w.changes|
  {
    var m' := MarkingKeepsInv(w, d0, m, k);
    assert |AllOps(Marked(w).changes)| == |Marked(w).changes|;
  }

  lemma ExactNeedsNothing(w: World, d0: Device, k: nat)
    requires k <= |w.changes| && Exact(w, d0, k)
    ensures ApplyAll(w.device, AllOps(w.changes)[k..k]) == ApplyAll(d0, AllOps(w.changes)[..k])
  {
    assert AllOps(w.changes)[k..k] == [];
  }

  /** Re-executing everything unmarked, plus what is new, equals executing only what is new. */
  lemma BatchAdvances(d0: Device, ops: seq<Op>, m: nat, k: nat)
    requires m <= k <= |ops|
    ensures ApplyAll(ApplyAll(d0, ops[..k]), ops[m..]) == ApplyAll(d0, ops)
  {
    Replayable(d0, ops, m, k);
    PartialBatchAdvances(d0, ApplyAll(d0, ops[..k]), ops, m, k, |ops|);
    assert ops[m..|ops|] == ops[m..] && ops[..|ops|] == ops;
  }

  lemma Replayable(d0: Device, ops: seq<Op>, m: nat, k: nat)
    requires m <= k <= |ops|
    ensures ApplyAll(ApplyAll(d0, ops[..k]), ops[m..k]) == ApplyAll(d0, ops[..k])
  {
    assert ops[..k] == ops[..m] + ops[m..k];
    ApplyAllConcat(d0, ops[..m], ops[m..k]);
    ReplayIdempotent(ApplyAll(d0, ops[..m]), ops[m..k]);
  }

  /**
   * Executing the unmarked changes as far as `j`, on a device they would bring to where each change
   * below `k` has run once: they still would, and they have if `j` is not short of `k`.
   */
  lemma PartialBatchAdvances(d0: Device, d: Device, ops: seq<Op>, m: nat, k: nat, j: nat)
    requires m <= k <= |ops| && m <= j <= |ops| && ApplyAll(d, ops[m..k]) == ApplyAll(d0, ops[..k])
    ensures var after, reach := ApplyAll(d, ops[m..j]), if j < k then k else j;
            ApplyAll(after, ops[m..reach]) == ApplyAll(d0, ops[..reach])
    ensures j >= k ==> ApplyAll(d, ops[m..j]) == ApplyAll(d0, ops[..j])
  {
    if j < k {
      assert ops[m..k] == ops[m..j] + ops[j..k];
      PrefixAbsorbed(d, ops[m..j], ops[j..k]);
    } else {
      assert ops[m..j] == ops[m..k] + ops[k..j] && ops[..j] == ops[..k] + ops[k..j];
      ApplyAllConcat(d, ops[m..k], ops[k..j]);
      ApplyAllConcat(d0, ops[..k], ops[k..j]);
      ReplayIdempotent(d, ops[m..j]);
    }
  }

  /** From `w` the changes from `m` to `j` were run. */
  ghost predicate Ran(w: World, after: World, m: nat, j: nat, reported: bool) {
    && m <= j <= |w.changes| && after.changes == w.changes && after.marks == w.marks
    && after.device == ApplyAll(w.device, AllOps(w.changes)[m..j])
    && after.executions == w.executions + ChangeIds(Slice(w.changes, m, j))
    && after.reports == if reported then ReportsOf(Slice(w.changes, m, j)) else []
  }

  lemma InvPending(w: World, d0: Device, m: nat, k: nat)
    requires Inv(w, d0, m, k)
    ensures PendingList(w.changes) == Slice(w.changes, m, |w.changes|)
  {
    PendingIsSuffix(w.changes, m, |w.changes|);
  }

  /** The agent's half: the unmarked changes run again, in creation order, as far as `j`. */
  lemma RanKeepsInv(w: World, after: World, d0: Device, m: nat, k: nat, j: nat, k': nat, reported: bool)
    requires Inv(w, d0, m, k) && Ran(w, after, m, j, reported) && (reported ==> j == |w.changes|)
    requires k' == if j < k then k else j
    ensures Inv(after, d0, m, k') && (j >= k ==> Exact(after, d0, k'))
  {
    PartialBatchAdvances(d0, w.device, AllOps(w.changes), m, k, j);
    ExecutedUpTo(w.executions, w.changes, m, k, j);
  }

  lemma SliceParts(changes: seq<Change>, m: nat, j: nat)
    requires m <= j <= |changes|
    ensures Slice(changes, m, |changes|)[..j - m] == Slice(changes, m, j)
    ensures OpsOf(Slice(changes, m, j)) == AllOps(changes)[m..j]
  {
  }

  lemma ExecutedUpTo(executions: seq<nat>, changes: seq<Change>, m: nat, k: nat, j: nat)
    requires m <= k && m <= j <= |changes| && forall i: nat :: i in executions <==> i < k
    ensures forall i: nat :: i in executions + ChangeIds(Slice(changes, m, j)) <==> i < if j < k then k else j
  {
    var ids := ChangeIds(Slice(changes, m, j));
    forall i: nat ensures i in executions + ids <==> i < if j < k then k else j {
      if m <= i < j {
        assert ids[i - m] == i;
      }
    }
  }

  lemma CreateKeepsInv(w: World, d0: Device, op: Op, m: nat, k: nat)
    requires Inv(w, d0, m, k)
    ensures var after := w.(changes := w.changes + [Change(op, Pending)]);
            Inv(after, d0, m, k) && (Exact(w, d0, k) ==> Exact(after, d0, k))
  {
    var changes := w.changes + [Change(op, Pending)];
    assert AllOps(changes)[..k] == AllOps(w.changes)[..k] && AllOps(changes)[m..k] == AllOps(w.changes)[m..k];
    assert Slice(changes, m, k) == Slice(w.changes, m, k);
  }

  /** How many of the pending changes a cycle executes that crashes after `done`, or at the end of them. */
  function Reached(w: World, done: nat): nat {
    Min(done, |PendingList(Marked(w).changes)|)
  }

  /** The crash comes late: each change executed before and not yet marked was executed again. */
  predicate Covers(w: World, done: nat) {
    forall id :: id in w.executions && id !in Marked(w).marks ==>
      id in ChangeIds(PendingList(Marked(w).changes)[..Reached(w, done)])
  }

  /** A delivered cycle puts the device right, and so does a crash that comes late enough. */
  predicate Restores(w: World, readOnly: bool, e: Event) {
    !readOnly && e.Cycle? && (e.fate == Delivered || (e.fate.Crashed? && Covers(w, e.fate.done)))
  }

  /** A crash disturbs the device between the first repeated change and the last one. */
  predicate Disturbs(w: World, readOnly: bool, e: Event) {
    !readOnly && e.Cycle? && e.fate.Crashed? && Reached(w, e.fate.done) > 0 && !Covers(w, e.fate.done)
  }

  /** With `m` changes marked and `k` executed, late enough means position `k`. */
  lemma CoversIff(w: World, d0: Device, m: nat, k: nat, done: nat)
    requires Inv(Marked(w), d0, m, k)
    ensures Covers(w, done) <==> m + Reached(w, done) >= k
  {
    var marked, count := Marked(w), Reached(w, done);
    InvPending(marked, d0, m, k);
    var ids := ChangeIds(PendingList(marked.changes)[..count]);
    forall id ensures id in ids <==> m <= id < m + count {
      if m <= id < m + count {
        assert ids[id - m] == id;
      }
    }
    if m + count < k {
      assert k - 1 in w.executions && k - 1 !in marked.marks && k - 1 !in ids;
    }
    MarkedBelow(marked.marks, m);
  }

  lemma MarkedBelow(marks: seq<nat>, m: nat)
    requires marks == seq(m, i => i)
    ensures forall id: nat :: id in marks <==> id < m
  {
    forall id: nat | id < m ensures id in marks {
      assert marks[id] == id;
    }
  }

  lemma StepKeepsInv(w: World, d0: Device, readOnly: bool, e: Event, m: nat, k: nat) returns (m': nat, k': nat)
    requires Inv(w, d0, m, k)
    ensures Inv(Step(w, readOnly, e), d0, m', k')
    ensures Restores(w, readOnly, e) || (!Disturbs(w, readOnly, e) && Exact(w, d0, k)) ==>
              Exact(Step(w, readOnly, e), d0, k')
    ensures e == Cycle(Delivered) ==> AllOps(Step(w, readOnly, e).changes) == AllOps(w.changes)
    ensures e == Cycle(Delivered) && !readOnly ==>
              k' == |w.changes| && Step(w, readOnly, e).reports ==
                  ReportsOf(Slice(Step(w, readOnly, e).changes, m', k'))
    ensures e == Cycle(Delivered) && w.reports == ReportsOf(Slice(w.changes, m, k)) ==> m' == k
    ensures e.Create? || e == Cycle(RequestLost) ==> m' == m && k' == k
  {
    m', k' := m, k;
    if e.Create? {
      CreateKeepsInv(w, d0, e.op, m, k);
    } else if e.fate != RequestLost {
      var marked := Marked(w);
      m' := MarkingKeepsInv(w, d0, m, k);
      assert |marked.changes| == |AllOps(marked.changes)| == |w.changes|;
      if readOnly {
        NothingExecuted(w, e);
      } else if e.fate == ResponseLost {
        assert Step(w, readOnly, e) == marked;
      } else {
        k' := ExecutingStep(w, d0, m', k, e.fate);
      }
    }
  }

  /** How far a cycle with its reports taken and `m` changes marked gets. */
  function ReachOf(w: World, m: nat, fate: Fate): nat {
    if fate.Crashed? then m + Reached(w, fate.done) else |w.changes|
  }

  lemma ExecutingRan(w: World, m: nat, fate: Fate)
    requires fate == Delivered || fate.Crashed?
    requires m <= |Marked(w).changes| == |w.changes|
    requires PendingList(Marked(w).changes) == Slice(Marked(w).changes, m, |w.changes|)
    ensures Ran(Marked(w), Step(w, false, Cycle(fate)), m, ReachOf(w, m, fate), fate == Delivered)
  {
    var data := PendingList(Marked(w).changes);
    SliceParts(Marked(w).changes, m, ReachOf(w, m, fate));
    assert data[..|data|] == data;
  }

  /** A cycle that executes something, or would if it did not crash before. */
  lemma ExecutingStep(w: World, d0: Device, m: nat, k: nat, fate: Fate) returns (k': nat)
    requires Inv(Marked(w), d0, m, k) && |Marked(w).changes| == |w.changes| && (fate == Delivered || fate.Crashed?)
    ensures Inv(Step(w, false, Cycle(fate)), d0, m, k')
    ensures Restores(w, false, Cycle(fate)) || (!Disturbs(w, false, Cycle(fate)) && Exact(Marked(w), d0, k)) ==>
              Exact(Step(w, false, Cycle(fate)), d0, k')
    ensures Step(w, false, Cycle(fate)).changes == Marked(w).changes
    ensures fate == Delivered ==>
              k' == |w.changes| && Step(w, false, Cycle(fate)).reports == ReportsOf(Slice(Marked(w).changes, m, k'))
  {
    var j := ReachOf(w, m, fate);
    k' := if j < k then k else j;
    InvPending(Marked(w), d0, m, k);
    ExecutingRan(w, m, fate);
    RanKeepsInv(Marked(w), Step(w, false, Cycle(fate)), d0, m, k, j, k', fate == Delivered);
    if fate.Crashed? {
      CoversIff(w, d0, m, k, fate.done);
      assert j == m ==> AllOps(Marked(w).changes)[m..j] == [];
    }
  }

  lemma NothingExecuted(w: World, e: Event)
    requires e.Cycle? && e.fate != RequestLost
    ensures Step(w, true, e) == Marked(w)
  {
    var none: seq<DesiredChange> := [];
    assert none[..0] == none && OpsOf(none) == [] && ChangeIds(none) == [] && w.executions + [] == w.executions;
  }

  /** No disturbing crash since the device was last put right, or since the start. */
  predicate Undisturbed(d0: Device, readOnly: bool, events: seq<Event>) {
    events == [] ||
    var front, last := events[..|events| - 1], events[|events| - 1];
    var w := Run(Init(d0), readOnly, front);
    Restores(w, readOnly, last) || (!Disturbs(w, readOnly, last) && Undisturbed(d0, readOnly, front))
  }

  lemma {:induction false} RunKeepsInv(d0: Device, readOnly: bool, events: seq<Event>) returns (m: nat, k: nat)
    ensures Inv(Run(Init(d0), readOnly, events), d0, m, k)
    ensures Undisturbed(d0, readOnly, events) ==> Exact(Run(Init(d0), readOnly, events), d0, k)
    decreases |events|
  {
    if events == [] {
      m, k := 0, 0;
    } else {
      var front := events[..|events| - 1];
      m, k := RunKeepsInv(d0, readOnly, front);
      m, k := StepKeepsInv(Run(Init(d0), readOnly, front), d0, readOnly, events[|events| - 1], m, k);
    }
  }

  lemma {:induction false} OnceInOrderOfPrefix(changes: seq<Change>, n: nat, ids: set<nat>, k: nat)
    requires n <= |changes| && k <= |changes|
    requires forall i: nat :: i in ids <==> i < k
    ensures OnceInOrder(changes, n, ids) == AllOps(changes)[..if n < k then n else k]
  {
    if n > 0 {
      OnceInOrderOfPrefix(changes, n - 1, ids, k);
    }
  }

  /** What every run keeps: single, truthful marks, and a device from which the pending changes lead right. */
  ghost predicate Accounted(w: World) {
    && NoDuplicates(w.marks)
    && (forall id :: id in w.marks ==> id in w.executions)
    && (forall id :: 0 <= id < |w.changes| ==> Truthful(w.changes[id], id in w.marks))
  }

  /** A change is executed or failed once it is marked; it fails if its payload or its type is not understood. */
  predicate Truthful(c: Change, marked: bool) {
    match c.state
    case Pending => !marked
    case Executed => marked && (c.op.AddPeer? || c.op.RemovePeer? || c.op.UpdateInterface?)
    case Failed => marked && (c.op.BadPayload? || c.op.UnknownType?)
  }

  /** The device after running each change executed so far exactly once in creation order. */
  ghost function OnceEach(d0: Device, w: World): Device {
    ApplyAll(d0, OnceInOrder(w.changes, |w.changes|, ExecutedIds(w)))
  }

  /**
   * Exactly-once effect under loss. In every run, however often batches are replayed or cut short: no
   * change is marked twice, only executed changes are marked, and a mark tells the truth; and unless the
   * agent, since the device was last put right, was killed in the middle of repeating changes, the device
   * is the one obtained by running each change executed so far exactly once in creation order.
   */
  lemma ExactlyOnceEffect(d0: Device, readOnly: bool, events: seq<Event>)
    ensures var w := Run(Init(d0), readOnly, events);
            Accounted(w) && (Undisturbed(d0, readOnly, events) ==> w.device == OnceEach(d0, w))
  {
    var m, k := RunKeepsInv(d0, readOnly, events);
    var w := Run(Init(d0), readOnly, events);
    OnceInOrderOfPrefix(w.changes, |w.changes|, ExecutedIds(w), k);
    MarkedBelow(w.marks, m);
  }

  /** An agent that may only read never touches its device, and nothing it is told is ever marked. */
  lemma {:induction false} ReadOnlyTouchesNothing(d0: Device, events: seq<Event>)
    ensures var w := Run(Init(d0), true, events);
            && w.device == d0 && w.executions == [] && w.marks == [] && w.reports == []
            && forall id :: 0 <= id < |w.changes| ==> w.changes[id].state == Pending
    decreases |events|
  {
    if events != [] {
      var w, e := Run(Init(d0), true, events[..|events| - 1]), events[|events| - 1];
      ReadOnlyTouchesNothing(d0, events[..|events| - 1]);
      if e.Cycle? && e.fate != RequestLost {
        NothingExecuted(w, e);
        assert IdsOf([]) == [] && w.marks + [] == w.marks;
      }
    }
  }

  /** What some run leads to. */
  ghost predicate Reachable(d0: Device, readOnly: bool, w: World) {
    exists events :: w == Run(Init(d0), readOnly, events)
  }

  /** From any reachable state two delivered cycles in a row leave no change unexecuted or unmarked. */
  lemma {:induction false} DeliveryCatchesUp(d0: Device, w: World, w1: World, w2: World)
    requires Reachable(d0, false, w)
    requires w1 == Step(w, false, Cycle(Delivered)) && w2 == Step(w1, false, Cycle(Delivered))
    ensures w1.device == ApplyAll(d0, AllOps(w.changes)) && w2.device == w1.device
    ensures forall id :: 0 <= id < |w.changes| ==> id in w1.executions && id in w2.marks
  {
    var events :| w == Run(Init(d0), false, events);
    var m, k := RunKeepsInv(d0, false, events);
    var m1, k1 := StepKeepsInv(w, d0, false, Cycle(Delivered), m, k);
    assert AllOps(w1.changes)[..k1] == AllOps(w1.changes);
    var m2, k2 := StepKeepsInv(w1, d0, false, Cycle(Delivered), m1, k1);
    assert |w1.changes| == |AllOps(w1.changes)| == |w.changes|;
    assert AllOps(w2.changes)[..k2] == AllOps(w1.changes)[..k1];
    forall id | 0 <= id < |w.changes| ensures id in w1.executions && id in w2.marks {
      assert w2.marks[id] == id;
    }
  }
}
