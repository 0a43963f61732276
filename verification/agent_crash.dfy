/** What a crash of the agent in the middle of a response leaves on the device. */
module AgentCrash {
  import opened WireGuardDevice
  import opened AgentSync

  /**
   * A crash with `m` changes marked and `k` executed, after the changes below `j` were executed again or
   * for the first time, leaves the device right whatever the operations are.
   */
  ghost predicate HarmlessAt(n: nat, m: nat, k: nat, j: nat)
    requires m <= k <= n && m <= j <= n
  {
    forall d0, ops: seq<Op> :: |ops| == n ==> LeavesRight(d0, ops, m, k, j)
  }

  ghost predicate LeavesRight(d0: Device, ops: seq<Op>, m: nat, k: nat, j: nat)
    requires m <= k <= |ops| && m <= j <= |ops|
  {
    ApplyAll(ApplyAll(d0, ops[..k]), ops[m..j]) == ApplyAll(d0, ops[..if j < k then k else j])
  }

  /** It does exactly when nothing was repeated yet or everything was. */
  lemma HarmlessIff(n: nat, m: nat, k: nat, j: nat)
    requires m <= k <= n && m <= j <= n
    ensures HarmlessAt(n, m, k, j) <==> j == m || j >= k
  {
    if j == m || j >= k {
      forall d0, ops: seq<Op> | |ops| == n ensures LeavesRight(d0, ops, m, k, j) {
        Replayable(d0, ops, m, k);
        PartialBatchAdvances(d0, ApplyAll(d0, ops[..k]), ops, m, k, j);
        assert j == m ==> ops[m..j] == [];
      }
    } else {
      AddedAndRemovedComesBack(n, m, k, j);
    }
  }

  /** Change `m` adds a peer that change `k - 1` removes; the others do nothing. */
  function AddThenRemove(n: nat, m: nat, k: nat): seq<Op> {
    seq(n, i => if i == m then AddPeer("wg0", "K", {}, "", 0) else if i == k - 1 then RemovePeer("wg0", "K")
        else BadPayload)
  }

  function EmptyDevice(): Device { Device(map[], map[], map[]) }

  lemma AddedAndRemovedComesBack(n: nat, m: nat, k: nat, j: nat)
    requires m < j < k <= n
    ensures !LeavesRight(EmptyDevice(), AddThenRemove(n, m, k), m, k, j)
  {
    var ops, d0, c := AddThenRemove(n, m, k), EmptyDevice(), Present(("wg0", "K"));
    ApplyAllTouchesCells(d0, ops[..k], c);
    ApplyAllTouchesCells(ApplyAll(d0, ops[..k]), ops[m..j], c);
    AddThenRemoveOnPeer(n, m, k, 0, k, Blank);
    AddThenRemoveOnPeer(n, m, k, m, j, Blank);
    assert ops[0..k] == ops[..k];
  }

  lemma {:induction false} AddThenRemoveOnPeer(n: nat, m: nat, k: nat, lo: nat, hi: nat, v: Value)
    requires m < k - 1 < n && lo <= m && lo <= hi <= n
    ensures TouchAll(AddThenRemove(n, m, k)[lo..hi], Present(("wg0", "K")), v) ==
            if k <= hi then Blank else if m < hi then Flag else v
    decreases hi
  {
    var ops := AddThenRemove(n, m, k);
    if hi > lo {
      assert ops[lo..hi][..hi - lo - 1] == ops[lo..hi - 1];
      AddThenRemoveOnPeer(n, m, k, lo, hi - 1, v);
    }
  }

  /** From this world a crash leaves the device right. */
  ghost predicate CrashKeeps(d0: Device, w: World, done: nat) {
    var after := Step(w, false, Cycle(Crashed(done)));
    after.device == OnceEach(d0, after)
  }

  /** A run can lead to `w`, the device is right, and after the reports `m` changes of `n` are marked, `k` executed. */
  ghost predicate Standing(d0: Device, w: World, n: nat, m: nat, k: nat) {
    && Reachable(d0, false, w) && w.device == OnceEach(d0, w)
    && |w.changes| == n && |Marked(w).marks| == m && forall id: nat :: id in w.executions <==> id < k
  }

  /**
   * A crash of a writing agent keeps the exactly-once effect in every run that stands so exactly when it
   * comes before anything is executed again, or after everything that was executed before.
   */
  lemma CrashKeepsEffectIff(n: nat, m: nat, k: nat, done: nat)
    requires m <= k <= n
    ensures (forall d0, w :: Standing(d0, w, n, m, k) ==> CrashKeeps(d0, w, done)) <==>
            done == 0 || m + done >= k
  {
    var j := m + Min(done, n - m);
    HarmlessIff(n, m, k, j);
    if HarmlessAt(n, m, k, j) {
      HarmlessKeeps(n, m, k, j, done);
    } else {
      var d0, ops: seq<Op> :| |ops| == n && !LeavesRight(d0, ops, m, k, j);
      var w := HarmfulRun(d0, ops, m, k, j, done);
    }
  }

  lemma HarmlessKeeps(n: nat, m: nat, k: nat, j: nat, done: nat)
    requires m <= k <= n && j == m + Min(done, n - m) && HarmlessAt(n, m, k, j)
    ensures forall d0, w :: Standing(d0, w, n, m, k) ==> CrashKeeps(d0, w, done)
  {
    forall d0, w | Standing(d0, w, n, m, k) ensures CrashKeeps(d0, w, done) {
      var ops := AllOps(w.changes);
      assert |ops| == n && LeavesRight(d0, ops, m, k, j);
      StandingCrash(d0, w, ops, m, k, j, done);
    }
  }

  lemma HarmfulRun(d0: Device, ops: seq<Op>, m: nat, k: nat, j: nat, done: nat) returns (w: World)
    requires m <= k <= |ops| && j == m + Min(done, |ops| - m) && !LeavesRight(d0, ops, m, k, j)
    ensures Standing(d0, w, |ops|, m, k) && !CrashKeeps(d0, w, done)
  {
    w := Scenario(d0, ops, m, k);
    StandingCrash(d0, w, ops, m, k, j, done);
  }

  lemma StandingCrash(d0: Device, w: World, ops: seq<Op>, m: nat, k: nat, j: nat, done: nat)
    requires m <= k <= |ops| && j == m + Min(done, |ops| - m)
    requires Standing(d0, w, |ops|, m, k) && AllOps(w.changes) == ops
    ensures CrashKeeps(d0, w, done) <==> LeavesRight(d0, ops, m, k, j)
  {
    StandingMeans(d0, w, |ops|, m, k);
    CrashMeans(d0, w, ops, m, k, j, done);
  }

  lemma CrashMeans(d0: Device, w: World, ops: seq<Op>, m: nat, k: nat, j: nat, done: nat)
    requires m <= k <= |ops| && j == m + Min(done, |ops| - m)
    requires Inv(Marked(w), d0, m, k) && Exact(Marked(w), d0, k)
    requires AllOps(Marked(w).changes) == ops && |Marked(w).changes| == |w.changes| == |ops|
    ensures CrashKeeps(d0, w, done) <==> LeavesRight(d0, ops, m, k, j)
  {
    CrashRan(d0, w, m, k, j, done);
    CrashedDevice(Marked(w), Step(w, false, Cycle(Crashed(done))), d0, ops, m, k, j);
  }

  lemma CrashRan(d0: Device, w: World, m: nat, k: nat, j: nat, done: nat)
    requires Inv(Marked(w), d0, m, k) && |Marked(w).changes| == |w.changes| && j == m + Min(done, |w.changes| - m)
    ensures Ran(Marked(w), Step(w, false, Cycle(Crashed(done))), m, j, false)
  {
    InvPending(Marked(w), d0, m, k);
    CrashRanAs(w, m, j, done, Step(w, false, Cycle(Crashed(done))));
  }

  lemma CrashRanAs(w: World, m: nat, j: nat, done: nat, after: World)
    requires m <= |Marked(w).changes| == |w.changes| && j == m + Min(done, |w.changes| - m)
    requires PendingList(Marked(w).changes) == Slice(Marked(w).changes, m, |w.changes|)
    requires after == Step(w, false, Cycle(Crashed(done)))
    ensures Ran(Marked(w), after, m, j, false)
  {
    ExecutingRan(w, m, Crashed(done));
  }

  lemma StandingMeans(d0: Device, w: World, n: nat, m: nat, k: nat)
    requires Standing(d0, w, n, m, k)
    ensures Inv(Marked(w), d0, m, k) && Exact(Marked(w), d0, k)
    ensures AllOps(Marked(w).changes) == AllOps(w.changes) && |Marked(w).changes| == n
  {
    var events :| w == Run(Init(d0), false, events);
    var m0, k0 := RunKeepsInv(d0, false, events);
    SameBound(w.executions, k0, k);
    MarkedExactly(w, d0, m0, k);
    OnceInOrderOfPrefix(w.changes, n, ExecutedIds(w), k);
  }

  lemma SameBound(ids: seq<nat>, k: nat, k': nat)
    requires forall i: nat :: i in ids <==> i < k
    requires forall i: nat :: i in ids <==> i < k'
    ensures k == k'
  {
    assert k in ids <==> k < k';
    assert k' in ids <==> k' < k;
  }

  /** Where a crash gets a device that was right, and where it should be. */
  lemma CrashedDevice(w: World, after: World, d0: Device, ops: seq<Op>, m: nat, k: nat, j: nat)
    requires Inv(w, d0, m, k) && Exact(w, d0, k) && Ran(w, after, m, j, false)
    requires AllOps(w.changes) == ops && |ops| == |w.changes|
    ensures after.device == OnceEach(d0, after) <==> LeavesRight(d0, ops, m, k, j)
  {
    OnceEachUpTo(d0, after, w.executions, m, k, j);
  }

  lemma OnceEachUpTo(d0: Device, w: World, before: seq<nat>, m: nat, k: nat, j: nat)
    requires m <= k <= |w.changes| && m <= j <= |w.changes| && forall i: nat :: i in before <==> i < k
    requires w.executions == before + ChangeIds(Slice(w.changes, m, j))
    ensures OnceEach(d0, w) == ApplyAll(d0, AllOps(w.changes)[..if j < k then k else j])
  {
    ExecutedUpTo(before, w.changes, m, k, j);
    OnceInOrderOfPrefix(w.changes, |w.changes|, ExecutedIds(w), if j < k then k else j);
  }

  /** Any operations can stand so: create some, deliver, create some more, deliver, and lose the reports. */
  lemma Scenario(d0: Device, ops: seq<Op>, m: nat, k: nat) returns (w: World)
    requires m <= k <= |ops|
    ensures Standing(d0, w, |ops|, m, k) && AllOps(w.changes) == ops
  {
    w := TwiceDelivered(d0, ops, m, k);
    assert ops[..|w.changes|] == ops[..k];
    w := Creating(d0, w, ops, |ops|, m, k);
    assert ops[..|ops|] == ops;
    StandsAs(d0, w, ops, m, k);
  }

  lemma StandsAs(d0: Device, w: World, ops: seq<Op>, m: nat, k: nat)
    requires ReachedWith(d0, w, ops, m, k) && w.reports == []
    ensures Standing(d0, w, |ops|, m, k)
  {
    assert |w.changes| == |AllOps(w.changes)| && Marked(w).marks == w.marks;
    OnceInOrderOfPrefix(w.changes, |w.changes|, ExecutedIds(w), k);
  }

  lemma TwiceDelivered(d0: Device, ops: seq<Op>, m: nat, k: nat) returns (w: World)
    requires m <= k <= |ops|
    ensures ReachedWith(d0, w, ops[..k], m, k) && |w.changes| == k && w.reports == []
  {
    w := Init(d0);
    assert Run(Init(d0), false, []) == w;
    assert w.marks == seq(0, i => i) && w.reports == ReportsOf(Slice(w.changes, 0, 0));
    w := Creating(d0, w, ops, m, 0, 0);
    w := Delivering(d0, w, 0, 0, ops[..m]);
    w := Creating(d0, w, ops, k, 0, m);
    w := Delivering(d0, w, 0, m, ops[..k]);
    ReachableStep(d0, w, Cycle(RequestLost));
    var m', k' := StepKeepsInv(w, d0, false, Cycle(RequestLost), m, k);
    w := Step(w, false, Cycle(RequestLost));
  }

  lemma CreateReachable(d0: Device, w: World, op: Op)
    requires Reachable(d0, false, w)
    ensures Reachable(d0, false, w.(changes := w.changes + [Change(op, Pending)]))
  {
    ReachableStep(d0, w, Create(op));
  }

  lemma ReachableStep(d0: Device, w: World, e: Event)
    requires Reachable(d0, false, w)
    ensures Reachable(d0, false, Step(w, false, e))
  {
    var events :| w == Run(Init(d0), false, events);
    RunOneMore(Init(d0), false, events, e);
  }

  /** A run leads to `w`, with the device right, `m` changes marked and `k` executed. */
  ghost predicate ReachedWith(d0: Device, w: World, ops: seq<Op>, m: nat, k: nat) {
    Reachable(d0, false, w) && Inv(w, d0, m, k) && Exact(w, d0, k) && AllOps(w.changes) == ops
  }

  lemma {:induction false} Creating(d0: Device, w: World, ops: seq<Op>, n: nat, m: nat, k: nat) returns (w': World)
    requires |w.changes| <= n <= |ops| && k <= |w.changes| && m <= k
    requires ReachedWith(d0, w, ops[..|w.changes|], m, k)
    ensures ReachedWith(d0, w', ops[..n], m, k)
    ensures |w'.changes| == n && w'.reports == w.reports && Slice(w'.changes, m, k) == Slice(w.changes, m, k)
    decreases n - |w.changes|
  {
    w' := w;
    if |w.changes| < n {
      var op, next := ops[|w.changes|], w.(changes := w.changes + [Change(ops[|w.changes|], Pending)]);
      CreatedOps(w.changes, op, m, k);
      CreateOne(d0, w, op, ops[..|w.changes|], m, k);
      assert ops[..|w.changes|] + [op] == ops[..|w.changes| + 1];
      w' := Creating(d0, next, ops, n, m, k);
    }
  }

  lemma CreateOne(d0: Device, w: World, op: Op, ops: seq<Op>, m: nat, k: nat)
    requires ReachedWith(d0, w, ops, m, k)
    ensures ReachedWith(d0, w.(changes := w.changes + [Change(op, Pending)]), ops + [op], m, k)
  {
    CreateReachable(d0, w, op);
    CreateKeepsInv(w, d0, op, m, k);
    CreatedOps(w.changes, op, m, k);
  }

  lemma CreatedOps(changes: seq<Change>, op: Op, m: nat, k: nat)
    requires m <= k <= |changes|
    ensures var after := changes + [Change(op, Pending)];
            AllOps(after) == AllOps(changes) + [op] && Slice(after, m, k) == Slice(changes, m, k)
  {
  }

  lemma Delivering(d0: Device, w: World, m: nat, k: nat, ops: seq<Op>) returns (w': World)
    requires ReachedWith(d0, w, ops, m, k) && w.reports == ReportsOf(Slice(w.changes, m, k))
    ensures ReachedWith(d0, w', ops, k, |w.changes|)
    ensures |w'.changes| == |w.changes| && w'.reports == ReportsOf(Slice(w'.changes, k, |w.changes|))
  {
    ReachableStep(d0, w, Cycle(Delivered));
    var m', k' := StepKeepsInv(w, d0, false, Cycle(Delivered), m, k);
    w' := Step(w, false, Cycle(Delivered));
    assert |w'.changes| == |AllOps(w'.changes)|;
  }

  /**
   * And otherwise it need not: a peer added and removed again comes back when the agent, its report
   * lost, is killed between the two while executing them once more. The next delivered cycle removes it.
   */
  lemma CrashBringsPeerBack(add: Op, remove: Op, d: Device, events: seq<Event>, w: World)
    requires add == AddPeer("wg0", "K", {"10.0.0.2/32"}, "", 0) && remove == RemovePeer("wg0", "K")
    requires d == Device(map[], map[], map[])
    requires events == [Create(add)] + [Create(remove)] + [Cycle(Delivered)] + [Cycle(RequestLost)]
    requires w == Run(Init(d), false, events)
    ensures var crashed := Step(w, false, Cycle(Crashed(1)));
            crashed.device != OnceEach(d, crashed) && Step(crashed, false, Cycle(Delivered)).device == w.device
  {
    TwoExecuted(add, remove, d, events, w);
    CrashedBetween(add, remove, w);
    OnceEachOfTwo(add, remove, d, Step(w, false, Cycle(Crashed(1))));
    BackAndGone(add, remove, d);
  }

  lemma OnceEachOfTwo(add: Op, remove: Op, d: Device, crashed: World)
    requires crashed.changes == [Change(add, Pending), Change(remove, Pending)] && crashed.executions == [0, 1, 0]
    ensures OnceEach(d, crashed) == ApplyAll(d, [add, remove])
  {
    assert ExecutedIds(crashed) == {0, 1};
    OnceInOrderOfPrefix(crashed.changes, 2, {0, 1}, 2);
    assert AllOps(crashed.changes)[..2] == [add, remove];
  }

  lemma BackAndGone(add: Op, remove: Op, d: Device)
    requires add == AddPeer("wg0", "K", {"10.0.0.2/32"}, "", 0) && remove == RemovePeer("wg0", "K")
    requires d == Device(map[], map[], map[])
    ensures ApplyAll(ApplyAll(d, [add, remove]), [add]) != ApplyAll(d, [add, remove])
    ensures ApplyAll(ApplyAll(ApplyAll(d, [add, remove]), [add]), [add, remove]) == ApplyAll(d, [add, remove])
  {
    PartialReplayDiverges();
    assert [add] + [remove] == [add, remove];
    PrefixAbsorbed(ApplyAll(d, [add, remove]), [add], [remove]);
    ReplayIdempotent(d, [add, remove]);
  }

  lemma CrashedBetween(add: Op, remove: Op, w: World)
    requires w.changes == [Change(add, Pending), Change(remove, Pending)] && w.executions == [0, 1]
    requires w.reports == [] && w.marks == []
    ensures var crashed := Step(w, false, Cycle(Crashed(1)));
            && crashed == World(w.changes, ApplyAll(w.device, [add]), [], [0, 1, 0], [])
            && Step(crashed, false, Cycle(Delivered)).device == ApplyAll(crashed.device, [add, remove])
  {
    var data := [DesiredChange(0, add), DesiredChange(1, remove)];
    TwoPending(add, remove);
    assert IdsOf([]) == [] && MarkAll(w.changes, []) == w.changes && data[..1] == [data[0]];
    assert OpsOf([data[0]]) == [add] && OpsOf(data) == [add, remove] && ChangeIds([data[0]]) == [0];
  }

  lemma TwoPending(add: Op, remove: Op)
    ensures PendingList([Change(add, Pending), Change(remove, Pending)]) ==
            [DesiredChange(0, add), DesiredChange(1, remove)]
  {
    var changes := [Change(add, Pending), Change(remove, Pending)];
    assert PendingAmong(changes, 0) == [];
    assert PendingAmong(changes, 1) == [DesiredChange(0, add)];
  }

  lemma RunOneMore(w: World, readOnly: bool, events: seq<Event>, e: Event)
    ensures Run(w, readOnly, events + [e]) == Step(Run(w, readOnly, events), readOnly, e)
  {
    assert (events + [e])[..|events + [e]| - 1] == events;
  }

  lemma TwoExecuted(add: Op, remove: Op, d: Device, events: seq<Event>, w: World)
    requires events == [Create(add)] + [Create(remove)] + [Cycle(Delivered)] + [Cycle(RequestLost)]
    requires w == Run(Init(d), false, events)
    ensures w == World([Change(add, Pending), Change(remove, Pending)], ApplyAll(d, [add, remove]), [], [0, 1], [])
  {
    var changes := [Change(add, Pending), Change(remove, Pending)];
    var data := [DesiredChange(0, add), DesiredChange(1, remove)];
    RunOneMore(Init(d), false, [], Create(add));
    RunOneMore(Init(d), false, [Create(add)], Create(remove));
    RunOneMore(Init(d), false, [Create(add)] + [Create(remove)], Cycle(Delivered));
    RunOneMore(Init(d), false, [Create(add)] + [Create(remove)] + [Cycle(Delivered)], Cycle(RequestLost));
    assert [] + [Create(add)] == [Create(add)];
    assert Run(Init(d), false, [Create(add)] + [Create(remove)]) == World(changes, d, [], [], []);
    TwoPending(add, remove);
    assert IdsOf([]) == [] && OpsOf(data) == [add, remove] && ChangeIds(data) == [0, 1];
  }
}
