/**
 * Brokers and the queue together. Any number of brokers poll, send, report and crash in any order;
 * poll answers may be lost, and reports may be lost, delayed without bound, or arrive twice.
 */
module Delivery {
  import opened Wrappers
  import Q = EventQueue
  import B = BrokerCycle

  type Id = nat

  /** One completed distribution: what was polled and which pipe could send. */
  datatype Cycle = Cycle(broker: nat, pipes: seq<B.Pipe>, polled: map<string, seq<B.Event>>, sent: seq<bool>)

  datatype Phase = Polling(polled: map<string, seq<B.Event>>) | Reporting(cycle: nat)

  datatype Broker = Broker(org: nat, pipes: seq<B.Pipe>, phase: Phase)

  datatype Report =
    | AckReport(cycle: nat, kind: string, ids: seq<Id>)
    | FailReport(cycle: nat, kind: string, ids: seq<Id>)

  /** `reports` holds every report ever sent: not delivering one is losing it. */
  datatype World = World(queue: seq<Q.Event>, brokers: map<nat, Broker>, history: seq<Cycle>, reports: set<Report>)

  datatype Event =
    | Enqueued(org: nat, kind: string, payload: string)
    | Started(broker: nat, org: nat, pipes: seq<B.Pipe>)   // also after a crash
    | Polled(broker: nat, now: nat, kind: string, max: int, lease: int, answered: bool)
    | Sent(broker: nat, sent: seq<bool>)
    | Reported(broker: nat, kind: string)
    | Arrived(report: Report)
    | NextCycle(broker: nat)

  function Init(): World { World([], map[], [], {}) }

  function Labelled(kind: string, ids: seq<Id>): (es: seq<B.Event>)
    ensures |es| == |ids| && forall i :: 0 <= i < |ids| ==> es[i] == B.Event(kind, ids[i])
  {
    seq(|ids|, i requires 0 <= i < |ids| => B.Event(kind, ids[i]))
  }

  ghost function Reports(history: seq<Cycle>, c: nat, kind: string): set<Report>
    requires c < |history| && |history[c].sent| == |history[c].pipes| && kind in history[c].polled
  {
    var ack := B.AckOf(history[c].pipes, history[c].sent, kind, history[c].polled[kind]);
    var fail := B.FailOf(history[c].pipes, history[c].sent, kind, history[c].polled[kind]);
    (if ack != [] then {AckReport(c, kind, ack)} else {}) + (if fail != [] then {FailReport(c, kind, fail)} else {})
  }

  ghost predicate Enabled(w: World, e: Event) {
    match e
    case Polled(b, _, _, _, _, _) => b in w.brokers && w.brokers[b].phase.Polling?
    case Sent(b, sent) => b in w.brokers && w.brokers[b].phase.Polling? && |sent| == |w.brokers[b].pipes|
    case Reported(b, kind) =>
      && b in w.brokers && w.brokers[b].phase.Reporting? && w.brokers[b].phase.cycle < |w.history|
      && var c := w.history[w.brokers[b].phase.cycle]; |c.sent| == |c.pipes| && kind in c.polled
    case NextCycle(b) => b in w.brokers && w.brokers[b].phase.Reporting?
    case Arrived(r) => r in w.reports
    case _ => true
  }

  ghost function Step(w: World, e: Event): World
    requires Enabled(w, e)
  {
    match e
    case Enqueued(org, kind, payload) => w.(queue := Q.Apply(w.queue, Q.Enqueue(org, kind, payload)))
    case Started(b, org, pipes) => w.(brokers := w.brokers[b := Broker(org, pipes, Polling(map[]))])
    case Polled(b, now, kind, max, lease, answered) =>
      var broker := w.brokers[b];
      var op := Q.Poll(now, broker.org, kind, max, lease, "");
      var got := Labelled(kind, Q.Returned(w.queue, op));
      var polled := if answered then broker.phase.polled[kind := got] else broker.phase.polled;
      w.(queue := Q.Apply(w.queue, op), brokers := w.brokers[b := broker.(phase := Polling(polled))])
    case Sent(b, sent) =>
      var broker := w.brokers[b];
      w.(history := w.history + [Cycle(b, broker.pipes, broker.phase.polled, sent)],
         brokers := w.brokers[b := broker.(phase := Reporting(|w.history|))])
    case Reported(b, kind) => w.(reports := w.reports + Reports(w.history, w.brokers[b].phase.cycle, kind))
    case Arrived(r) =>
      var op := match r case AckReport(_, _, ids) => Q.Ack(ids) case FailReport(_, _, ids) => Q.Fail(ids, "");
      w.(queue := Q.Apply(w.queue, op))
    case NextCycle(b) => w.(brokers := w.brokers[b := w.brokers[b].(phase := Polling(map[]))])
  }

  ghost predicate Possible(w: World, es: seq<Event>)
    decreases |es|, 0
  {
    es == [] || (Possible(w, es[..|es| - 1]) && Enabled(Run(w, es[..|es| - 1]), es[|es| - 1]))
  }

  ghost function Run(w: World, es: seq<Event>): World
    requires Possible(w, es)
    decreases |es|, 1
  {
    if es == [] then w else Step(Run(w, es[..|es| - 1]), es[|es| - 1])
  }

  // ---- What every step keeps -------------------------------------------------------------------

  /** Polled events are events of the queue, of the type they are filed under. */
  ghost predicate InQueue(queue: seq<Q.Event>, polled: map<string, seq<B.Event>>) {
    forall t :: t in polled ==> forall i :: 0 <= i < |polled[t]| ==>
      polled[t][i].id < |queue| && queue[polled[t][i].id].kind == t
  }

  ghost predicate GoodCycle(queue: seq<Q.Event>, c: Cycle) {
    |c.sent| == |c.pipes| && B.WellPolled(c.polled) && InQueue(queue, c.polled)
  }

  ghost predicate GoodReport(history: seq<Cycle>, r: Report) {
    && r.cycle < |history| && |history[r.cycle].sent| == |history[r.cycle].pipes| && r.kind in history[r.cycle].polled
    && r in Reports(history, r.cycle, r.kind)
  }

  ghost predicate GoodBroker(queue: seq<Q.Event>, history: seq<Cycle>, id: nat, b: Broker) {
    match b.phase
    case Polling(polled) => B.WellPolled(polled) && InQueue(queue, polled)
    case Reporting(c) => c < |history| && history[c].broker == id
  }

  ghost predicate AckReported(reports: set<Report>, id: Id) {
    exists r :: r in reports && r.AckReport? && id in r.ids
  }

  ghost predicate Inv(w: World) {
    && (forall b :: b in w.brokers ==> GoodBroker(w.queue, w.history, b, w.brokers[b]))
    && (forall c :: 0 <= c < |w.history| ==> GoodCycle(w.queue, w.history[c]))
    && (forall r :: r in w.reports ==> GoodReport(w.history, r))
    && (forall i :: 0 <= i < |w.queue| && w.queue[i].acked ==> AckReported(w.reports, i))
  }

  /** Queue operations keep all that is remembered about polled events. */
  lemma QueueGrows(queue: seq<Q.Event>, op: Q.Op, polled: map<string, seq<B.Event>>)
    requires InQueue(queue, polled)
    ensures InQueue(Q.Apply(queue, op), polled)
  {
    Q.ApplyKeepsEvents(queue, op);
  }

  lemma QueueStepKeepsInv(w: World, op: Q.Op)
    requires Inv(w)
    requires op.Ack? ==> forall i :: i in op.ids ==> AckReported(w.reports, i)
    ensures Inv(w.(queue := Q.Apply(w.queue, op)))
  {
    var after := w.(queue := Q.Apply(w.queue, op));
    forall b | b in after.brokers ensures GoodBroker(after.queue, after.history, b, after.brokers[b]) {
      assert GoodBroker(w.queue, w.history, b, w.brokers[b]);
      if w.brokers[b].phase.Polling? {
        QueueGrows(w.queue, op, w.brokers[b].phase.polled);
      }
    }
    forall c | 0 <= c < |after.history| ensures GoodCycle(after.queue, after.history[c]) {
      QueueGrows(w.queue, op, w.history[c].polled);
    }
    forall i | 0 <= i < |after.queue| && after.queue[i].acked ensures AckReported(after.reports, i) {
      AckedBy(w.queue, op, i);
    }
  }

  /** Only an acknowledgement naming it makes an event acknowledged. */
  lemma AckedBy(queue: seq<Q.Event>, op: Q.Op, i: nat)
    requires i < |Q.Apply(queue, op)| && Q.Apply(queue, op)[i].acked
    ensures (i < |queue| && queue[i].acked) || (op.Ack? && i in op.ids)
  {
  }

  lemma {:induction false} PollAnswer(queue: seq<Q.Event>, op: Q.Op, polled: map<string, seq<B.Event>>)
    requires op.Poll? && B.WellPolled(polled) && InQueue(queue, polled)
    ensures var now := polled[op.kind := Labelled(op.kind, Q.Returned(queue, op))];
            B.WellPolled(now) && InQueue(Q.Apply(queue, op), now)
  {
    Q.PollReturnsOldestReady(queue, op);
    QueueGrows(queue, op, polled);
    Q.ApplyKeepsEvents(queue, op);
    var ids := Q.Returned(queue, op);
    var now: map<string, seq<B.Event>> := polled[op.kind := Labelled(op.kind, ids)];
    forall t: string, i: int | t in now && 0 <= i < |now[t]|
      ensures now[t][i].kind == t && now[t][i].id < |queue| && queue[now[t][i].id].kind == t
    {
      if t == op.kind {
        assert ids[i] in ids;
      }
    }
  }

  lemma {:induction false} StepKeepsInv(w: World, e: Event)
    requires Inv(w) && Enabled(w, e)
    ensures Inv(Step(w, e))
  {
    match e
    case Enqueued(org, kind, payload) => QueueStepKeepsInv(w, Q.Enqueue(org, kind, payload));
    case Started(b, org, pipes) =>
    case Polled(b, now, kind, max, lease, answered) => PolledKeepsInv(w, e);
    case Sent(b, sent) => SentKeepsInv(w, e);
    case Reported(b, kind) => ReportedKeepsInv(w, e);
    case Arrived(r) =>
      assert GoodReport(w.history, r);
      var op := match r case AckReport(_, _, ids) => Q.Ack(ids) case FailReport(_, _, ids) => Q.Fail(ids, "");
      QueueStepKeepsInv(w, op);
    case NextCycle(b) =>
  }

  lemma {:induction false} PolledKeepsInv(w: World, e: Event)
    requires Inv(w) && e.Polled? && Enabled(w, e)
    ensures Inv(Step(w, e))
  {
    var broker := w.brokers[e.broker];
    var op := Q.Poll(e.now, broker.org, e.kind, e.max, e.lease, "");
    QueueStepKeepsInv(w, op);
    assert GoodBroker(w.queue, w.history, e.broker, broker);
    PollAnswer(w.queue, op, broker.phase.polled);
    QueueGrows(w.queue, op, broker.phase.polled);
  }

  lemma SentKeepsInv(w: World, e: Event)
    requires Inv(w) && e.Sent? && Enabled(w, e)
    ensures Inv(Step(w, e))
  {
    var after := Step(w, e);
    assert GoodBroker(w.queue, w.history, e.broker, w.brokers[e.broker]);
    assert forall c :: 0 <= c < |w.history| ==> after.history[c] == w.history[c];
    forall r | r in after.reports ensures GoodReport(after.history, r) {
      assert GoodReport(w.history, r);
    }
  }

  lemma ReportedKeepsInv(w: World, e: Event)
    requires Inv(w) && e.Reported? && Enabled(w, e)
    ensures Inv(Step(w, e))
  {
    var after := Step(w, e);
    forall i | 0 <= i < |after.queue| && after.queue[i].acked ensures AckReported(after.reports, i) {
      assert AckReported(w.reports, i);
    }
  }

  lemma {:induction false} RunKeepsInv(es: seq<Event>)
    requires Possible(Init(), es)
    ensures Inv(Run(Init(), es))
    decreases |es|
  {
    if es != [] {
      RunKeepsInv(es[..|es| - 1]);
      StepKeepsInv(Run(Init(), es[..|es| - 1]), es[|es| - 1]);
    }
  }

  // ---- At-least-once delivery -------------------------------------------------------------------

  /** In this cycle the event was polled, and every initialised pipe subscribed to its type sent it. */
  ghost predicate EveryPipeSent(c: Cycle, e: B.Event) {
    && |c.sent| == |c.pipes|
    && e.kind in c.polled && e in c.polled[e.kind]
    && forall p :: 0 <= p < |c.pipes| && e.kind in c.pipes[p].from ==> c.sent[p]
  }

  /** A report of cycle `c` that acknowledges event `id` of type `kind`. */
  ghost predicate AckFrom(w: World, c: nat, kind: string, id: Id) {
    c < |w.history| && exists r :: r in w.reports && r.AckReport? && r.cycle == c && r.kind == kind && id in r.ids
  }

  /**
   * At-least-once delivery. In every run, an acknowledged event owes it to a report of one cycle of
   * one broker, in which every initialised pipe subscribed to the event's type sent that event.
   */
  lemma AckedWasDelivered(es: seq<Event>, id: Id)
    requires Possible(Init(), es)
    requires id < |Run(Init(), es).queue| && Run(Init(), es).queue[id].acked
    ensures var w := Run(Init(), es);
            exists c: nat :: AckFrom(w, c, w.queue[id].kind, id) &&
                EveryPipeSent(w.history[c], B.Event(w.queue[id].kind, id))
  {
    RunKeepsInv(es);
    var w := Run(Init(), es);
    assert AckReported(w.reports, id);
    var r :| r in w.reports && r.AckReport? && id in r.ids;
    AckReportMeans(w, r, id);
    assert AckFrom(w, r.cycle, w.queue[id].kind, id);
  }

  lemma AckReportMeans(w: World, r: Report, id: Id)
    requires Inv(w) && r in w.reports && r.AckReport? && id in r.ids
    ensures id < |w.queue| && r.kind == w.queue[id].kind && r.cycle < |w.history|
    ensures EveryPipeSent(w.history[r.cycle], B.Event(r.kind, id))
  {
    assert GoodReport(w.history, r);
    var c := w.history[r.cycle];
    var events := c.polled[r.kind];
    assert r.ids == B.Ids(events) && !B.SendFailed(c.pipes, c.sent, r.kind);
    var i :| 0 <= i < |r.ids| && r.ids[i] == id;
    assert GoodCycle(w.queue, c);
    assert events[i] == B.Event(r.kind, id);
    assert events[i] in events;
  }

  /**
   * And a fail report means that a pipe subscribed to the event's type could not send it; when the
   * report arrives, however late, the event is free to be polled again unless it is acknowledged.
   */
  lemma FailedWasNotSent(es: seq<Event>, r: Report, id: Id)
    requires Possible(Init(), es) && r in Run(Init(), es).reports && r.FailReport? && id in r.ids
    ensures var w := Run(Init(), es);
            id < |w.queue| && r.kind == w.queue[id].kind && r.cycle < |w.history|
    ensures var c := Run(Init(), es).history[r.cycle];
            && |c.sent| == |c.pipes| && r.kind in c.polled && B.Event(r.kind, id) in c.polled[r.kind]
            && (exists p :: 0 <= p < |c.pipes| && r.kind in c.pipes[p].from && !c.sent[p])
    ensures var before, after := Run(Init(), es).queue, Step(Run(Init(), es), Arrived(r)).queue;
            && id < |after| && (after[id].acked || after[id].lockedUntil == None)
            && (after[id].acked <==> before[id].acked)
  {
    RunKeepsInv(es);
    FailReportMeans(Run(Init(), es), r, id);
  }

  lemma FailReportMeans(w: World, r: Report, id: Id)
    requires Inv(w) && r in w.reports && r.FailReport? && id in r.ids
    ensures id < |w.queue| && r.kind == w.queue[id].kind && r.cycle < |w.history|
    ensures var c := w.history[r.cycle];
            && |c.sent| == |c.pipes| && r.kind in c.polled && B.Event(r.kind, id) in c.polled[r.kind]
            && B.SendFailed(c.pipes, c.sent, r.kind)
    ensures var after := Step(w, Arrived(r)).queue;
            && id < |after| && (after[id].acked || after[id].lockedUntil == None)
            && (after[id].acked <==> w.queue[id].acked)
  {
    assert GoodReport(w.history, r);
    var c := w.history[r.cycle];
    var events := c.polled[r.kind];
    assert r.ids == B.Ids(events);
    var i :| 0 <= i < |r.ids| && r.ids[i] == id;
    assert GoodCycle(w.queue, c);
    assert events[i] == B.Event(r.kind, id) && events[i] in events;
  }

  lemma StepKeepsAcked(w: World, e: Event)
    requires Enabled(w, e)
    ensures |w.queue| <= |Step(w, e).queue|
    ensures forall i :: 0 <= i < |w.queue| && w.queue[i].acked ==> Step(w, e).queue[i].acked
  {
  }

  /** No later step of any broker, late or repeated report included, undoes an acknowledgement. */
  lemma {:induction false} AckedNeverUndone(w: World, es: seq<Event>)
    requires Possible(w, es)
    ensures |w.queue| <= |Run(w, es).queue|
    ensures forall i :: 0 <= i < |w.queue| && w.queue[i].acked ==> Run(w, es).queue[i].acked
    decreases |es|
  {
    if es != [] {
      AckedNeverUndone(w, es[..|es| - 1]);
      StepKeepsAcked(Run(w, es[..|es| - 1]), es[|es| - 1]);
    }
  }
}
