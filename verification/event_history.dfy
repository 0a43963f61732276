/** The event queue told by its operations: what every row says, and exactly what a poll returns. */
module EventHistory {
  import opened Wrappers
  import opened EventQueue

  /** The enqueue operations; the `e`-th of them made event `e`. */
  function Enqueued(ops: seq<Op>): seq<Op> {
    if ops == [] then []
    else Enqueued(ops[..|ops| - 1]) + if ops[|ops| - 1].Enqueue? then [ops[|ops| - 1]] else []
  }

  /** An acknowledgement named the event after it was made. */
  predicate Acked(ops: seq<Op>, e: Id) {
    ops != [] &&
    var front, op := ops[..|ops| - 1], ops[|ops| - 1];
    Acked(front, e) || (op.Ack? && e in op.ids && e < |Enqueued(front)|)
  }

  /** The last operation that touched the event: the poll that leased it, or the fail that freed it. */
  function LastTouch(ops: seq<Op>, e: Id): Option<Op> {
    if ops == [] then None
    else
      var front, op := ops[..|ops| - 1], ops[|ops| - 1];
      if e < |Enqueued(front)| && ((op.Poll? && e in Returned(Run([], front), op)) || (op.Ack? && e in op.ids)
          || (op.Fail? && e in op.ids && !Acked(front, e)))
      then Some(op) else LastTouch(front, e)
  }

  /** The lock it left, with its holder: for the lease of the poll, a minute by default, if that came last. */
  function LockBy(touch: Option<Op>): (Option<nat>, string) {
    match touch
    case Some(Poll(now, _, _, _, lease, holder)) => (Some(now + if lease > 0 then lease else 60), holder)
    case _ => (None, "")
  }

  function LockedUntil(ops: seq<Op>, e: Id): Option<nat> { LockBy(LastTouch(ops, e)).0 }

  /** The message of the last fail, unless the event was polled since. */
  function LastError(ops: seq<Op>, e: Id): string {
    if ops == [] then ""
    else
      var front, op := ops[..|ops| - 1], ops[|ops| - 1];
      if op.Poll? && e in Returned(Run([], front), op) then ""
      else if op.Fail? && e in op.ids && e < |Enqueued(front)| && !Acked(front, e) then
        (if op.message == "" then "broker delivery failed" else op.message)
      else LastError(front, e)
  }

  function RowOf(ops: seq<Op>, e: Id): Event
    requires e < |Enqueued(ops)| && forall i :: 0 <= i < |Enqueued(ops)| ==> Enqueued(ops)[i].Enqueue?
  {
    var made := Enqueued(ops)[e];
    Event(made.org, made.kind, made.payload, Acked(ops, e), LockedUntil(ops, e), LockBy(LastTouch(ops, e)).1,
          TimesReturned([], ops, e), LastError(ops, e))
  }

  lemma {:induction false} EnqueuedAre(ops: seq<Op>)
    ensures forall i :: 0 <= i < |Enqueued(ops)| ==> Enqueued(ops)[i].Enqueue?
    decreases |ops|
  {
    if ops != [] {
      EnqueuedAre(ops[..|ops| - 1]);
    }
  }

  /** What is not made yet has no history. */
  lemma {:induction false} NothingBefore(ops: seq<Op>, e: Id)
    requires e >= |Enqueued(ops)| && |Run([], ops)| == |Enqueued(ops)|
    ensures !Acked(ops, e) && LastTouch(ops, e) == None && LastError(ops, e) == ""
    decreases |ops|
  {
    if ops != [] {
      var front, op := ops[..|ops| - 1], ops[|ops| - 1];
      RowsCounted(front);
      NothingBefore(front, e);
      StepCountsAttempts(Run([], front), op, e);
    }
  }

  lemma {:induction false} RowsCounted(ops: seq<Op>)
    ensures |Run([], ops)| == |Enqueued(ops)|
    decreases |ops|
  {
    if ops != [] {
      RowsCounted(ops[..|ops| - 1]);
    }
  }

  /** What an operation makes of a row, `returned` telling whether it is a poll that returned it. */
  function NextRow(row: Event, op: Op, named: bool, returned: bool): Event {
    match op
    case Enqueue(_, _, _) => row
    case Poll(now, _, _, _, lease, holder) =>
      if returned
      then row.(lockedUntil := Some(now + if lease > 0 then lease else 60), lockedBy := holder,
                attempts := row.attempts + 1, lastError := "")
      else row
    case Ack(_) => if named then row.(acked := true, lockedUntil := None, lockedBy := "") else row
    case Fail(_, message) =>
      if named && !row.acked
      then row.(lockedUntil := None, lockedBy := "",
                lastError := if message == "" then "broker delivery failed" else message)
      else row
  }

  predicate Names(op: Op, e: Id) { (op.Ack? && e in op.ids) || (op.Fail? && e in op.ids) }

  lemma RewrittenRow(q: seq<Event>, ids: seq<Id>, op: Op, e: Id, after: seq<Event>)
    requires e < |q| && after == Rewrite(q, ids, op) && !op.Enqueue?
    requires op.Ack? ==> ids == op.ids
    requires op.Fail? ==> ids == op.ids
    ensures e < |after| && after[e] == NextRow(q[e], op, Names(op, e), op.Poll? && e in ids)
  {
    assert after[e] == if e in ids then Touched(q[e], op) else q[e];
  }

  lemma RowStep(q: seq<Event>, op: Op, e: Id, returned: bool)
    requires e < |q| && returned == (e in Returned(q, op))
    ensures e < |Apply(q, op)| && Apply(q, op)[e] == NextRow(q[e], op, Names(op, e), returned)
  {
    if !op.Enqueue? {
      RewrittenRow(q, Target(q, op), op, e, Apply(q, op));
    }
  }

  lemma MadeStep(q: seq<Event>, op: Op)
    requires op.Enqueue?
    ensures Apply(q, op) == q + [Event(op.org, op.kind, op.payload, false, None, "", 0, "")]
  {
  }

  lemma HistoryStep(front: seq<Op>, op: Op, ops: seq<Op>, e: Id, returned: bool)
    requires ops == front + [op] && e < |Enqueued(front)| <= |Enqueued(ops)|
    requires forall i :: 0 <= i < |Enqueued(ops)| ==> Enqueued(ops)[i].Enqueue?
    requires forall i :: 0 <= i < |Enqueued(front)| ==> Enqueued(front)[i].Enqueue?
    requires returned == (e in Returned(Run([], front), op))
    ensures RowOf(ops, e) == NextRow(RowOf(front, e), op, Names(op, e), returned)
  {
    EnqueuedStep(front, op, ops, e);
    AckedStep(front, op, ops, e, returned);
    TouchStep(front, op, ops, e, returned);
    RowFromTouch(RowOf(front, e), RowOf(ops, e), LastTouch(front, e), LastTouch(ops, e), op, Names(op, e), returned);
  }

  lemma EnqueuedStep(front: seq<Op>, op: Op, ops: seq<Op>, e: Id)
    requires ops == front + [op] && e < |Enqueued(front)|
    ensures e < |Enqueued(ops)| && Enqueued(ops)[e] == Enqueued(front)[e]
  {
    assert ops[..|ops| - 1] == front;
  }

  lemma AckedStep(front: seq<Op>, op: Op, ops: seq<Op>, e: Id, returned: bool)
    requires ops == front + [op] && e < |Enqueued(front)| && returned == (e in Returned(Run([], front), op))
    ensures Acked(ops, e) <==> Acked(front, e) || (op.Ack? && e in op.ids)
    ensures TimesReturned([], ops, e) == TimesReturned([], front, e) + if returned then 1 else 0
  {
    assert ops[..|ops| - 1] == front;
  }

  lemma TouchStep(front: seq<Op>, op: Op, ops: seq<Op>, e: Id, returned: bool)
    requires ops == front + [op] && e < |Enqueued(front)| && returned == (e in Returned(Run([], front), op))
    ensures LastTouch(ops, e) ==
            if (op.Poll? && returned) || (op.Ack? && Names(op, e)) || (op.Fail? && Names(op, e) && !Acked(front, e))
            then Some(op) else LastTouch(front, e)
    ensures LastError(ops, e) ==
            if op.Poll? && returned then ""
            else if op.Fail? && Names(op, e) && !Acked(front, e) then
              (if op.message == "" then "broker delivery failed" else op.message)
            else LastError(front, e)
  {
    assert ops[..|ops| - 1] == front;
  }

  /** A row that differs as the operation says. */
  lemma RowFromTouch(row: Event, after: Event, touch: Option<Op>, touch': Option<Op>, op: Op, named: bool,
      returned: bool)
    requires after.org == row.org && after.kind == row.kind && after.payload == row.payload
    requires (row.lockedUntil, row.lockedBy) == LockBy(touch) && (after.lockedUntil, after.lockedBy) == LockBy(touch')
    requires after.acked <==> row.acked || (op.Ack? && named)
    requires after.attempts == row.attempts + if returned then 1 else 0
    requires returned ==> op.Poll?
    requires touch' == if (op.Poll? && returned) || (op.Ack? && named) || (op.Fail? && named && !row.acked)
                       then Some(op) else touch
    requires after.lastError == if op.Poll? && returned then ""
                                else if op.Fail? && named && !row.acked then
                                  (if op.message == "" then "broker delivery failed" else op.message)
                                else row.lastError
    ensures after == NextRow(row, op, named, returned)
  {
  }

  lemma NewHistory(front: seq<Op>, op: Op, ops: seq<Op>, e: Id)
    requires ops == front + [op] && op.Enqueue? && e == |Enqueued(front)| == |Run([], front)|
    requires forall i :: 0 <= i < |Enqueued(ops)| ==> Enqueued(ops)[i].Enqueue?
    ensures e < |Enqueued(ops)| && RowOf(ops, e) == Event(op.org, op.kind, op.payload, false, None, "", 0, "")
  {
    assert ops[..|ops| - 1] == front;
    NothingBefore(front, e);
    AttemptsCountPolls(front, e);
  }

  /** In every run the rows are as many as were enqueued, and each says what the operations made it say. */
  lemma {:induction false} RowsFollowOps(ops: seq<Op>, e: Id)
    ensures |Run([], ops)| == |Enqueued(ops)| && forall i :: 0 <= i < |Enqueued(ops)| ==> Enqueued(ops)[i].Enqueue?
    ensures e < |Enqueued(ops)| ==> Run([], ops)[e] == RowOf(ops, e)
    decreases |ops|
  {
    EnqueuedAre(ops);
    RowsCounted(ops);
    if ops != [] && e < |Enqueued(ops)| {
      var front, op := ops[..|ops| - 1], ops[|ops| - 1];
      assert ops == front + [op];
      RowsFollowOps(front, e);
      if e < |Enqueued(front)| {
        var returned := e in Returned(Run([], front), op);
        HistoryStep(front, op, ops, e, returned);
        RowStep(Run([], front), op, e, returned);
      } else {
        NewHistory(front, op, ops, e);
        MadeStep(Run([], front), op);
      }
    }
  }

  // ---- Polls -----------------------------------------------------------------------------------------

  /** Of the organisation and type asked for, not acknowledged, and under no running lease. */
  predicate Eligible(ops: seq<Op>, e: Id, poll: Op)
    requires poll.Poll? && e < |Enqueued(ops)| && Enqueued(ops)[e].Enqueue?
  {
    && Enqueued(ops)[e].org == poll.org && Enqueued(ops)[e].kind == poll.kind && !Acked(ops, e)
    && (LockedUntil(ops, e).Some? ==> LockedUntil(ops, e).value < poll.now)
  }

  /** How many of the first `n` events are eligible. */
  function EligibleAmong(ops: seq<Op>, n: nat, poll: Op): nat
    requires poll.Poll? && n <= |Enqueued(ops)| && forall i :: 0 <= i < |Enqueued(ops)| ==> Enqueued(ops)[i].Enqueue?
  {
    if n == 0 then 0 else EligibleAmong(ops, n - 1, poll) + if Eligible(ops, n - 1, poll) then 1 else 0
  }

  lemma ReadyIsEligible(ops: seq<Op>, e: Id, poll: Op)
    requires poll.Poll? && e < |Enqueued(ops)|
    ensures Enqueued(ops)[e].Enqueue? && e < |Run([], ops)|
    ensures Ready(Run([], ops)[e], poll.org, poll.kind, poll.now) <==> Eligible(ops, e, poll)
  {
    RowsFollowOps(ops, e);
  }

  function ReadyAmong(q: seq<Event>, n: nat, poll: Op): nat
    requires poll.Poll? && n <= |q|
  {
    if n == 0 then 0
    else ReadyAmong(q, n - 1, poll) + if Ready(q[n - 1], poll.org, poll.kind, poll.now) then 1 else 0
  }

  lemma {:induction false} OldestAreReady(q: seq<Event>, n: nat, poll: Op, max: nat)
    requires poll.Poll? && n <= |q|
    ensures var r := OldestReady(q, n, poll.org, poll.kind, poll.now, max);
            && |r| == (if ReadyAmong(q, n, poll) < max then ReadyAmong(q, n, poll) else max)
            && forall e: Id :: e in r <==>
                 (e < n && Ready(q[e], poll.org, poll.kind, poll.now) && ReadyAmong(q, e, poll) < max)
    decreases n
  {
    if n > 0 {
      OldestAreReady(q, n - 1, poll, max);
    }
  }

  lemma {:induction false} ReadyAsEligible(q: seq<Event>, ops: seq<Op>, n: nat, poll: Op)
    requires poll.Poll? && n <= |q| == |Enqueued(ops)|
    requires forall i :: 0 <= i < |Enqueued(ops)| ==> Enqueued(ops)[i].Enqueue?
    requires forall e: Id :: e < |q| ==> (Ready(q[e], poll.org, poll.kind, poll.now) <==> Eligible(ops, e, poll))
    ensures ReadyAmong(q, n, poll) == EligibleAmong(ops, n, poll)
  {
    if n > 0 {
      ReadyAsEligible(q, ops, n - 1, poll);
    }
  }

  /**
   * Exactly what a poll returns, in every run: an event is returned if and only if it is eligible and
   * fewer eligible events than the bound are older; oldest first. The bound is ten by default, and 100
   * for whoever asks for more than 500.
   */
  lemma PollReturnsExactly(ops: seq<Op>, poll: Op, r: seq<Id>)
    requires poll.Poll? && r == Returned(Run([], ops), poll)
    ensures forall i :: 0 <= i < |Enqueued(ops)| ==> Enqueued(ops)[i].Enqueue?
    ensures var bound := if poll.max <= 0 then 10 else if poll.max <= 500 then poll.max else 100;
            forall e: Id :: e in r <==>
              (e < |Enqueued(ops)| && Eligible(ops, e, poll) && EligibleAmong(ops, e, poll) < bound)
    ensures forall a, b :: 0 <= a < b < |r| ==> r[a] < r[b]
  {
    RowsFollowOps(ops, 0);
    var q := Run([], ops);
    OldestAreReady(q, |q|, poll, BatchSize(poll.max));
    forall e: Id | e < |q| ensures Ready(q[e], poll.org, poll.kind, poll.now) <==> Eligible(ops, e, poll) {
      ReadyIsEligible(ops, e, poll);
    }
    forall e: Id | e < |q| ensures ReadyAmong(q, e, poll) == EligibleAmong(ops, e, poll) {
      ReadyAsEligible(q, ops, e, poll);
    }
    PollReturnsOldestReady(q, poll);
  }
}
