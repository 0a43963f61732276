/**
 * The API's event queue. Events are kept in creation order and named by their position; every
 * statement is one atomic step at the database's clock.
 */
module EventQueue {
  import opened Wrappers

  type Id = nat

  datatype Event = Event(org: nat, kind: string, payload: string, acked: bool,
                         lockedUntil: Option<nat>, lockedBy: string, attempts: nat, lastError: string)

  datatype Op =
    | Enqueue(org: nat, kind: string, payload: string)
    | Poll(now: nat, org: nat, kind: string, max: int, leaseSeconds: int, lockedBy: string)
    | Ack(ids: seq<Id>)
    | Fail(ids: seq<Id>, message: string)

  predicate Ready(e: Event, org: nat, kind: string, now: nat) {
    && e.org == org && e.kind == kind && !e.acked
    && (e.lockedUntil.None? || e.lockedUntil.value < now)
  }

  /** Ten by default, as the handler decides; more than 500 becomes 100, as the query decides. */
  function BatchSize(max: int): nat {
    if max <= 0 then 10 else if max > 500 then 100 else max
  }

  function LeaseTime(leaseSeconds: int): nat {
    if leaseSeconds <= 0 then 60 else leaseSeconds
  }

  /** The first `max` ready events among the first `n`. */
  function OldestReady(q: seq<Event>, n: nat, org: nat, kind: string, now: nat, max: nat): seq<Id>
    requires n <= |q|
  {
    if n == 0 then []
    else
      var older := OldestReady(q, n - 1, org, kind, now, max);
      if |older| < max && Ready(q[n - 1], org, kind, now) then older + [n - 1] else older
  }

  /** What the operation returns: the events a poll leases. */
  function Returned(q: seq<Event>, op: Op): seq<Id> {
    if op.Poll? then OldestReady(q, |q|, op.org, op.kind, op.now, BatchSize(op.max)) else []
  }

  function Touched(e: Event, op: Op): Event {
    match op
    case Poll(now, _, _, _, lease, holder) =>
      e.(lockedUntil := Some(now + LeaseTime(lease)), lockedBy := holder, attempts := e.attempts + 1, lastError := "")
    case Ack(_) => e.(acked := true, lockedUntil := None, lockedBy := "")
    case Fail(_, message) =>
      if e.acked then e
      else e.(lockedUntil := None, lockedBy := "", lastError := if message == "" then "broker delivery failed"
          else message)
    case Enqueue(_, _, _) => e
  }

  function Target(q: seq<Event>, op: Op): seq<Id> {
    match op
    case Poll(_, _, _, _, _, _) => Returned(q, op)
    case Ack(ids) => ids
    case Fail(ids, _) => ids
    case Enqueue(_, _, _) => []
  }

  function Apply(q: seq<Event>, op: Op): seq<Event> {
    if op.Enqueue? then q + [Event(op.org, op.kind, op.payload, false, None, "", 0, "")]
    else Rewrite(q, Target(q, op), op)
  }

  function Rewrite(q: seq<Event>, ids: seq<Id>, op: Op): (r: seq<Event>)
    ensures |r| == |q|
    ensures forall i :: 0 <= i < |q| ==> r[i] == if i in ids then Touched(q[i], op) else q[i]
  {
    seq(|q|, i requires 0 <= i < |q| => if i in ids then Touched(q[i], op) else q[i])
  }

  function Run(q: seq<Event>, ops: seq<Op>): seq<Event> {
    if ops == [] then q else Apply(Run(q, ops[..|ops| - 1]), ops[|ops| - 1])
  }

  /** What the `k`-th operation of a run returned. */
  function ReturnedAt(q: seq<Event>, ops: seq<Op>, k: nat): seq<Id>
    requires k < |ops|
  {
    Returned(Run(q, ops[..k]), ops[k])
  }

  // ---- One poll ------------------------------------------------------------------------------

  lemma {:induction false} OldestReadyMeaning(q: seq<Event>, n: nat, org: nat, kind: string, now: nat, max: nat)
    requires n <= |q|
    ensures var r := OldestReady(q, n, org, kind, now, max);
            && |r| <= max
            && (forall i: Id :: i in r ==> i < n && Ready(q[i], org, kind, now))
            && (forall a, b :: 0 <= a < b < |r| ==> r[a] < r[b])
            && (forall i: Id :: i < n && Ready(q[i], org, kind, now) && i !in r ==>
                |r| == max && forall j :: j in r ==> j < i)
  {
    if n > 0 {
      OldestReadyMeaning(q, n - 1, org, kind, now, max);
      var older := OldestReady(q, n - 1, org, kind, now, max);
      forall a | 0 <= a < |older| ensures older[a] < n - 1 {
        assert older[a] in older;
      }
    }
  }

  /**
   * A poll returns distinct ready events of its organisation and type, oldest first, within its bound;
   * a ready event is passed over only if the bound is filled with older ones.
   */
  lemma PollReturnsOldestReady(q: seq<Event>, op: Op)
    requires op.Poll?
    ensures var r := Returned(q, op);
            && |r| <= BatchSize(op.max) <= 500
            && (forall i :: i in r ==> i < |q| && Ready(q[i], op.org, op.kind, op.now))
            && (forall a, b :: 0 <= a < b < |r| ==> r[a] < r[b])
            && (forall i: Id :: i < |q| && Ready(q[i], op.org, op.kind, op.now) && i !in r ==>
                  |r| == BatchSize(op.max) && forall j :: j in r ==> j < i)
  {
    OldestReadyMeaning(q, |q|, op.org, op.kind, op.now, BatchSize(op.max));
  }

  // ---- Runs ------------------------------------------------------------------------------------

  lemma ApplyKeepsEvents(q: seq<Event>, op: Op)
    ensures |q| <= |Apply(q, op)|
    ensures forall i :: 0 <= i < |q| ==> Apply(q, op)[i].kind == q[i].kind && Apply(q, op)[i].org == q[i].org
    ensures forall i :: 0 <= i < |q| && q[i].acked ==> Apply(q, op)[i].acked
  {
  }

  /** Acknowledging is never undone, and an event keeps its organisation and type. */
  lemma {:induction false} AckedForever(q: seq<Event>, ops: seq<Op>)
    ensures |q| <= |Run(q, ops)|
    ensures forall i :: 0 <= i < |q| ==> Run(q, ops)[i].kind == q[i].kind && Run(q, ops)[i].org == q[i].org
    ensures forall i :: 0 <= i < |q| && q[i].acked ==> Run(q, ops)[i].acked
    decreases |ops|
  {
    if ops != [] {
      AckedForever(q, ops[..|ops| - 1]);
      ApplyKeepsEvents(Run(q, ops[..|ops| - 1]), ops[|ops| - 1]);
    }
  }

  /** An acknowledged event is never leased again. */
  lemma AckedNeverReturned(q: seq<Event>, ops: seq<Op>, k: nat, e: Id)
    requires k < |ops| && e < |q| && q[e].acked
    ensures e !in ReturnedAt(q, ops, k)
  {
    AckedForever(q, ops[..k]);
    if ops[k].Poll? {
      PollReturnsOldestReady(Run(q, ops[..k]), ops[k]);
    }
  }

  /** How many polls of the run returned the event. */
  function TimesReturned(q: seq<Event>, ops: seq<Op>, e: Id): nat {
    if ops == [] then 0
    else
      var front := ops[..|ops| - 1];
      TimesReturned(q, front, e) + if e in Returned(Run(q, front), ops[|ops| - 1]) then 1 else 0
  }

  /** `attempts` counts exactly the polls that returned the event. */
  lemma {:induction false} AttemptsCountPolls(ops: seq<Op>, e: Id)
    ensures e < |Run([], ops)| ==> Run([], ops)[e].attempts == TimesReturned([], ops, e)
    ensures e >= |Run([], ops)| ==> TimesReturned([], ops, e) == 0
    decreases |ops|
  {
    if ops != [] {
      var front, op := ops[..|ops| - 1], ops[|ops| - 1];
      AttemptsCountPolls(front, e);
      StepCountsAttempts(Run([], front), op, e);
    }
  }

  lemma StepCountsAttempts(q: seq<Event>, op: Op, e: Id)
    ensures e < |q| ==> Apply(q, op)[e].attempts == q[e].attempts + if e in Returned(q, op) then 1 else 0
    ensures |q| <= e < |Apply(q, op)| ==> Apply(q, op)[e].attempts == 0
    ensures e >= |q| ==> e !in Returned(q, op)
    ensures |q| <= |Apply(q, op)|
  {
    if op.Poll? {
      PollReturnsOldestReady(q, op);
    }
  }

  /** Polls happen at times that do not go backwards. */
  ghost predicate Monotone(ops: seq<Op>) {
    forall i, j :: 0 <= i < j < |ops| && ops[i].Poll? && ops[j].Poll? ==> ops[i].now <= ops[j].now
  }

  predicate FailsBetween(ops: seq<Op>, i: nat, j: nat, e: Id)
    requires j <= |ops|
  {
    exists k :: i < k < j && ops[k].Fail? && e in ops[k].ids
  }

  /** Since the poll `i` that returned `e`: released by a fail, acknowledged, or locked as long as that lease runs. */
  lemma {:induction false} LeaseHolds(q: seq<Event>, ops: seq<Op>, i: nat, j: nat, e: Id)
    requires Monotone(ops) && i < j <= |ops| && ops[i].Poll? && e in ReturnedAt(q, ops, i)
    ensures |Run(q, ops[..j])| > e
    ensures var now := Run(q, ops[..j])[e];
            FailsBetween(ops, i, j, e) || now.acked ||
            (now.lockedUntil.Some? && now.lockedUntil.value >= ops[i].now + LeaseTime(ops[i].leaseSeconds))
    decreases j
  {
    var before, op := Run(q, ops[..j - 1]), ops[j - 1];
    assert ops[..j][..j - 1] == ops[..j - 1];
    if j - 1 == i {
      LeaseBegins(before, op, e, op.now + LeaseTime(op.leaseSeconds), Run(q, ops[..j]));
    } else {
      LeaseHolds(q, ops, i, j - 1, e);
      if op.Poll? && e in Returned(before, op) {
        ReturnedIsReady(before, op, e);
      } else if op.Fail? && e in op.ids {
        assert FailsBetween(ops, i, j, e);
      }
    }
  }

  /**
   * Lease exclusivity: two polls return the same event only if a fail naming it lies between them or
   * the first one's lease has run out when the second is made.
   */
  lemma LeaseExclusivity(q: seq<Event>, ops: seq<Op>, i: nat, j: nat, e: Id)
    requires Monotone(ops) && i < j < |ops| && ops[i].Poll? && ops[j].Poll?
    requires e in ReturnedAt(q, ops, i) && e in ReturnedAt(q, ops, j)
    ensures FailsBetween(ops, i, j, e) || ops[i].now + LeaseTime(ops[i].leaseSeconds) < ops[j].now
  {
    LeaseHolds(q, ops, i, j, e);
    PollReturnsOldestReady(Run(q, ops[..j]), ops[j]);
  }

  /** Some poll after operation `i` and before operation `j` returned the event. */
  predicate ReturnedBetween(q: seq<Event>, ops: seq<Op>, i: nat, j: nat, e: Id)
    requires j <= |ops|
    decreases j
  {
    i + 1 < j && (ReturnedBetween(q, ops, i, j - 1, e) || e in ReturnedAt(q, ops, j - 1))
  }

  /** Acknowledged, or unlocked if `released`, or else locked until `until`. */
  predicate LockIs(q: seq<Event>, e: Id, released: bool, until: nat) {
    e < |q| && (q[e].acked || q[e].lockedUntil == if released then None else Some(until))
  }

  lemma LockStep(q: seq<Event>, op: Op, e: Id, released: bool, until: nat)
    requires LockIs(q, e, released, until) && e !in Returned(q, op)
    ensures LockIs(Apply(q, op), e, released || (op.Fail? && e in op.ids), until)
  {
    LockAfter(q, op, e);
  }

  lemma RunPrefix(q: seq<Event>, ops: seq<Op>, j: nat)
    requires 0 < j <= |ops|
    ensures Run(q, ops[..j]) == Apply(Run(q, ops[..j - 1]), ops[j - 1])
  {
    assert ops[..j][..j - 1] == ops[..j - 1];
  }

  lemma LeaseBeginsAt(q: seq<Event>, ops: seq<Op>, i: nat, e: Id, until: nat, after: seq<Event>)
    requires i < |ops| && ops[i].Poll? && e in ReturnedAt(q, ops, i)
    requires until == ops[i].now + LeaseTime(ops[i].leaseSeconds) && after == Run(q, ops[..i + 1])
    ensures LockIs(after, e, false, until)
  {
    RunPrefix(q, ops, i + 1);
    LeaseBegins(Run(q, ops[..i]), ops[i], e, until, after);
  }

  lemma LeaseContinues(q: seq<Event>, ops: seq<Op>, j: nat, e: Id, released: bool, until: nat)
    requires j < |ops| && e !in ReturnedAt(q, ops, j) && LockIs(Run(q, ops[..j]), e, released, until)
    ensures LockIs(Run(q, ops[..j + 1]), e, released || (ops[j].Fail? && e in ops[j].ids), until)
  {
    RunPrefix(q, ops, j + 1);
    LockStep(Run(q, ops[..j]), ops[j], e, released, until);
  }

  /** While no later poll returns it: acknowledged, or unlocked by a fail, or locked for the lease of poll `i`. */
  lemma {:induction false} LeaseSince(q: seq<Event>, ops: seq<Op>, i: nat, j: nat, e: Id, until: nat)
    requires i < j <= |ops| && ops[i].Poll? && until == ops[i].now + LeaseTime(ops[i].leaseSeconds)
    requires e in ReturnedAt(q, ops, i) && !ReturnedBetween(q, ops, i, j, e)
    ensures LockIs(Run(q, ops[..j]), e, FailsBetween(ops, i, j, e), until)
    decreases j
  {
    FailsOneMore(ops, i, j, e);
    if j - 1 == i {
      LeaseBeginsAt(q, ops, i, e, until, Run(q, ops[..j]));
    } else {
      LeaseSince(q, ops, i, j - 1, e, until);
      LeaseContinues(q, ops, j - 1, e, FailsBetween(ops, i, j - 1, e), until);
    }
  }

  lemma FailsOneMore(ops: seq<Op>, i: nat, j: nat, e: Id)
    requires i < j <= |ops|
    ensures FailsBetween(ops, i, j, e) <==>
            i < j - 1 && (FailsBetween(ops, i, j - 1, e) || (ops[j - 1].Fail? && e in ops[j - 1].ids))
  {
  }

  lemma LeaseBegins(q: seq<Event>, op: Op, e: Id, until: nat, after: seq<Event>)
    requires op.Poll? && e in Returned(q, op) && until == op.now + LeaseTime(op.leaseSeconds) && after == Apply(q, op)
    ensures LockIs(after, e, false, until)
  {
    ReturnedIsReady(q, op, e);
    RewriteLocks(q, Returned(q, op), op, e, until, after);
  }

  lemma RewriteLocks(q: seq<Event>, ids: seq<Id>, op: Op, e: Id, until: nat, after: seq<Event>)
    requires op.Poll? && e < |q| && e in ids && after == Rewrite(q, ids, op)
    requires until == op.now + LeaseTime(op.leaseSeconds)
    ensures LockIs(after, e, false, until)
  {
    assert after[e] == Touched(q[e], op);
  }

  lemma ReturnedIsReady(q: seq<Event>, op: Op, e: Id)
    requires op.Poll? && e in Returned(q, op)
    ensures e < |q| && Ready(q[e], op.org, op.kind, op.now)
  {
    PollReturnsOldestReady(q, op);
  }

  /** Only a fail or an acknowledgement that names it changes the lock of an event that is not returned. */
  lemma LockAfter(q: seq<Event>, op: Op, e: Id)
    requires e < |q| && e !in Returned(q, op)
    ensures var after := Apply(q, op)[e];
            if q[e].acked || (op.Ack? && e in op.ids) then after.acked
            else !after.acked && after.lockedUntil == if op.Fail? && e in op.ids then None else q[e].lockedUntil
  {
  }

  /**
   * The exact condition, in every run. As long as no later poll returned the event, and until it is
   * acknowledged, it is ready for the next poll of its organisation and type if and only if a fail
   * naming it, sent by anybody, came since, or the lease has run out.
   */
  lemma ReadyAgainIff(q: seq<Event>, ops: seq<Op>, i: nat, j: nat, e: Id)
    requires i < j < |ops| && ops[i].Poll? && ops[j].Poll? && e in ReturnedAt(q, ops, i)
    requires !ReturnedBetween(q, ops, i, j, e)
    ensures |Run(q, ops[..j])| > e
    ensures var now := Run(q, ops[..j])[e];
            !now.acked && now.org == ops[j].org && now.kind == ops[j].kind ==>
              (Ready(now, ops[j].org, ops[j].kind, ops[j].now) <==>
                 FailsBetween(ops, i, j, e) || ops[i].now + LeaseTime(ops[i].leaseSeconds) < ops[j].now)
  {
    LeaseSince(q, ops, i, j, e, ops[i].now + LeaseTime(ops[i].leaseSeconds));
  }

  /** In any queue, a fail makes an event it names ready for every later poll, whoever holds it. */
  lemma FailReleasesAnyHolder(q: seq<Event>, e: Id, ids: seq<Id>, message: string, now: nat)
    requires e < |q| && !q[e].acked && e in ids
    ensures Ready(Apply(q, Fail(ids, message))[e], q[e].org, q[e].kind, now)
  {
  }

  lemma PollOfOne(e: Event, op: Op)
    requires op.Poll? && Ready(e, op.org, op.kind, op.now)
    ensures Returned([e], op) == [0] && Apply([e], op) == [Touched(e, op)]
  {
    assert OldestReady([e], 0, op.org, op.kind, op.now, BatchSize(op.max)) == [];
  }

  lemma RunOneMore(q: seq<Event>, ops: seq<Op>, op: Op)
    ensures Run(q, ops + [op]) == Apply(Run(q, ops), op)
  {
    assert (ops + [op])[..|ops + [op]| - 1] == ops;
  }

  function ByA(org: nat, kind: string): Op { Poll(0, org, kind, 1, 1, "a") }

  function ByB(org: nat, kind: string): Op { Poll(2, org, kind, 1, 60, "b") }

  function ByC(org: nat, kind: string): Op { Poll(3, org, kind, 1, 60, "c") }

  function LateFailFromA(): Op { Fail([0], "") }

  lemma LeasedTwice(org: nat, kind: string, payload: string)
    ensures var create := Enqueue(org, kind, payload);
            var q1 := Run([], [create]);
            var q2 := Run([], [create] + [ByA(org, kind)]);
            && Returned(q1, ByA(org, kind)) == [0] && Returned(q2, ByB(org, kind)) == [0]
            && Run([], [create] + [ByA(org, kind)] + [ByB(org, kind)]) ==
                [Event(org, kind, payload, false, Some(62), "b", 2, "")]
  {
    var create, e := Enqueue(org, kind, payload), Event(org, kind, payload, false, None, "", 0, "");
    RunOneMore([], [], create);
    assert [] + [create] == [create] && Run([], [create]) == [e];
    RunOneMore([], [create], ByA(org, kind));
    PollOfOne(e, ByA(org, kind));
    RunOneMore([], [create] + [ByA(org, kind)], ByB(org, kind));
    PollOfOne(Touched(e, ByA(org, kind)), ByB(org, kind));
  }

  /**
   * A fail does not compare `locked_by`, so the release can be the work of a stranger: "a" leases an
   * event for one second, "b" leases it for a minute after that, the fail that "a" sends late arrives,
   * and "c" is given the event at 3 although "b" holds it until 62.
   */
  lemma LateFailFreesAnotherLease(org: nat, kind: string, payload: string, held: seq<Op>, q: seq<Event>)
    requires held == [Enqueue(org, kind, payload)] + [ByA(org, kind)] + [ByB(org, kind)] && q == Run([], held)
    ensures q == [Event(org, kind, payload, false, Some(62), "b", 2, "")]
    ensures Returned(q, ByC(org, kind)) == []
    ensures Returned(Run([], held + [LateFailFromA()]), ByC(org, kind)) == [0]
  {
    LeasedTwice(org, kind, payload);
    RunOneMore([], held, LateFailFromA());
    var freed := Touched(q[0], LateFailFromA());
    assert Apply(q, LateFailFromA()) == [freed];
    PollOfOne(freed, ByC(org, kind));
    assert OldestReady(q, 0, org, kind, 3, 1) == [];
  }

  // ---- The table as an object ----------------------------------------------------------------

  class Queue {
    var events: seq<Event>

    constructor ()
      ensures events == []
    {
      events := [];
    }

    method EnqueueEvent(org: nat, kind: string, payload: string)
      modifies this
      ensures events == Apply(old(events), Enqueue(org, kind, payload))
    {
      events := events + [Event(org, kind, payload, false, None, "", 0, "")];
    }

    /** The handler and its query: select in creation order up to the bound, then lease what was selected. */
    method PollNext(now: nat, org: nat, kind: string, max: int, leaseSeconds: int, lockedBy: string)
        returns (leased: seq<Id>)
      modifies this
      ensures events == Apply(old(events), Poll(now, org, kind, max, leaseSeconds, lockedBy))
      ensures leased == Returned(old(events), Poll(now, org, kind, max, leaseSeconds, lockedBy))
    {
      var bound := if max <= 0 then 10 else max;
      if bound > 500 { bound := 100; }
      var lease := leaseSeconds;
      if lease <= 0 { lease := 60; }
      leased := [];
      for i := 0 to |events|
        invariant leased == OldestReady(events, i, org, kind, now, bound)
      {
        if |leased| < bound && Ready(events[i], org, kind, now) {
          leased := leased + [i];
        }
      }
      ghost var op := Poll(now, org, kind, max, leaseSeconds, lockedBy);
      for i := 0 to |events|
        invariant |events| == |old(events)|
        invariant forall j :: 0 <= j < |events| ==>
          events[j] == if j < i && j in leased then Touched(old(events)[j], op) else old(events)[j]
      {
        if i in leased {
          events := events[i := events[i].(lockedUntil := Some(now + lease), lockedBy := lockedBy,
                                           attempts := events[i].attempts + 1, lastError := "")];
        }
      }
    }

    method AckEvents(ids: seq<Id>)
      modifies this
      ensures events == Apply(old(events), Ack(ids))
    {
      for i := 0 to |events|
        invariant |events| == |old(events)|
        invariant forall j :: 0 <= j < |events| ==>
          events[j] == if j < i && j in ids then Touched(old(events)[j], Ack(ids)) else old(events)[j]
      {
        if i in ids {
          events := events[i := events[i].(acked := true, lockedUntil := None, lockedBy := "")];
        }
      }
    }

    method FailEvents(ids: seq<Id>, message: string)
      modifies this
      ensures events == Apply(old(events), Fail(ids, message))
    {
      var text := if message == "" then "broker delivery failed" else message;
      for i := 0 to |events|
        invariant |events| == |old(events)|
        invariant forall j :: 0 <= j < |events| ==>
          events[j] == if j < i && j in ids then Touched(old(events)[j], Fail(ids, message)) else old(events)[j]
      {
        if i in ids && !events[i].acked {
          events := events[i := events[i].(lockedUntil := None, lockedBy := "", lastError := text)];
        }
      }
    }
  }
}
