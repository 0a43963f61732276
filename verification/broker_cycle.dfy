/**
 * One cycle of the broker: hand the polled events to the pipes subscribed to their types, count the
 * deliveries, and sort every event into acknowledge or fail.
 */
module BrokerCycle {
  type Id = nat

  datatype Event = Event(kind: string, id: Id)

  /** A configured pipe; the initialised ones are a subset of the configured ones. */
  datatype Pipe = Pipe(from: seq<string>, max: int)

  /** A poll returns distinct events of the type asked for. */
  ghost predicate WellPolled(polled: map<string, seq<Event>>) {
    forall t :: t in polled ==>
      && (forall i :: 0 <= i < |polled[t]| ==> polled[t][i].kind == t)
      && (forall i, j :: 0 <= i < j < |polled[t]| ==> polled[t][i] != polled[t][j])
  }

  function Ids(es: seq<Event>): (ids: seq<Id>)
    ensures |ids| == |es| && forall i :: 0 <= i < |es| ==> ids[i] == es[i].id
  {
    if es == [] then [] else Ids(es[..|es| - 1]) + [es[|es| - 1].id]
  }

  /** The declared meaning of a cycle: a type fails when a pipe subscribed to it could not send. */
  ghost predicate SendFailed(pipes: seq<Pipe>, sent: seq<bool>, t: string)
    requires |sent| == |pipes|
  {
    exists p :: 0 <= p < |pipes| && t in pipes[p].from && !sent[p]
  }

  ghost function AckOf(pipes: seq<Pipe>, sent: seq<bool>, t: string, events: seq<Event>): seq<Id>
    requires |sent| == |pipes|
  {
    if SendFailed(pipes, sent, t) then [] else Ids(events)
  }

  ghost function FailOf(pipes: seq<Pipe>, sent: seq<bool>, t: string, events: seq<Event>): seq<Id>
    requires |sent| == |pipes|
  {
    if SendFailed(pipes, sent, t) then Ids(events) else []
  }

  // ---- What the loops count ------------------------------------------------------------------

  function Count<T(==)>(s: seq<T>, x: T): nat {
    if s == [] then 0 else Count(s[..|s| - 1], x) + if s[|s| - 1] == x then 1 else 0
  }

  /** How many subscriptions to a type the pipes hold, repetitions included. */
  function Required(pipes: seq<Pipe>, t: string): nat {
    if pipes == [] then 0 else Required(pipes[..|pipes| - 1], t) + Count(pipes[|pipes| - 1].from, t)
  }

  /** The events one pipe is sent: those of every type it lists, as often as it lists it. */
  function Batch(polled: map<string, seq<Event>>, from: seq<string>): seq<Event> {
    if from == [] then []
    else Batch(polled, from[..|from| - 1]) + if from[|from| - 1] in polled then polled[from[|from| - 1]] else []
  }

  function Delivered(pipes: seq<Pipe>, polled: map<string, seq<Event>>, sent: seq<bool>, n: nat, e: Event): nat
    requires n <= |pipes| == |sent|
  {
    if n == 0 then 0
    else Delivered(pipes, polled, sent, n - 1, e) +
         if sent[n - 1] then Count(Batch(polled, pipes[n - 1].from), e) else 0
  }

  predicate Failed(pipes: seq<Pipe>, polled: map<string, seq<Event>>, sent: seq<bool>, n: nat, e: Event)
    requires n <= |pipes| == |sent|
  {
    n > 0 && (Failed(pipes, polled, sent, n - 1, e) || (!sent[n - 1] && e in Batch(polled, pipes[n - 1].from)))
  }

  lemma {:induction false} CountConcat<T>(a: seq<T>, b: seq<T>, x: T)
    ensures Count(a + b, x) == Count(a, x) + Count(b, x)
    decreases |b|
  {
    if b == [] {
      assert a + b == a;
    } else {
      assert (a + b)[..|a + b| - 1] == a + b[..|b| - 1];
      CountConcat(a, b[..|b| - 1], x);
    }
  }

  lemma {:induction false} CountOfDistinct<T>(s: seq<T>, x: T)
    requires forall i, j :: 0 <= i < j < |s| ==> s[i] != s[j]
    ensures Count(s, x) == if x in s then 1 else 0
  {
    if s != [] {
      CountOfDistinct(s[..|s| - 1], x);
      assert s == s[..|s| - 1] + [s[|s| - 1]];
    }
  }

  lemma {:induction false} CountIsMembership<T>(s: seq<T>, x: T)
    ensures Count(s, x) > 0 <==> x in s
  {
    if s != [] {
      CountIsMembership(s[..|s| - 1], x);
      assert s == s[..|s| - 1] + [s[|s| - 1]];
    }
  }

  /** A polled event is in a pipe's batch once for each time the pipe lists its type. */
  lemma {:induction false} BatchCounts(polled: map<string, seq<Event>>, from: seq<string>, e: Event)
    requires WellPolled(polled)
    ensures Count(Batch(polled, from), e) == if e.kind in polled && e in polled[e.kind] then Count(from, e.kind) else 0
    decreases |from|
  {
    if from != [] {
      var front, t := from[..|from| - 1], from[|from| - 1];
      BatchCounts(polled, front, e);
      if t in polled {
        CountConcat(Batch(polled, front), polled[t], e);
        CountOfDistinct(polled[t], e);
        assert e in polled[t] ==> e.kind == t;
      } else {
        assert Batch(polled, from) == Batch(polled, front);
      }
    }
  }

  /** Deliveries fall short of the requirement exactly when a subscribed send failed. */
  lemma {:induction false} DeliveriesMeetRequirement(pipes: seq<Pipe>, polled: map<string, seq<Event>>,
      sent: seq<bool>, n: nat, e: Event)
    requires WellPolled(polled) && n <= |pipes| == |sent| && e.kind in polled && e in polled[e.kind]
    ensures Delivered(pipes, polled, sent, n, e) <= Required(pipes[..n], e.kind)
    ensures Delivered(pipes, polled, sent, n, e) == Required(pipes[..n], e.kind) <==>
            !SendFailed(pipes[..n], sent[..n], e.kind)
    ensures Failed(pipes, polled, sent, n, e) <==> SendFailed(pipes[..n], sent[..n], e.kind)
    decreases n
  {
    if n > 0 {
      DeliveriesMeetRequirement(pipes, polled, sent, n - 1, e);
      var p := pipes[n - 1];
      assert pipes[..n][..n - 1] == pipes[..n - 1];
      BatchCounts(polled, p.from, e);
      CountIsMembership(p.from, e.kind);
      CountIsMembership(Batch(polled, p.from), e);
      SendFailedOneMore(pipes[..n - 1], sent[..n - 1], p, sent[n - 1], e.kind);
      assert pipes[..n] == pipes[..n - 1] + [p] && sent[..n] == sent[..n - 1] + [sent[n - 1]];
    }
  }

  lemma SendFailedOneMore(pipes: seq<Pipe>, sent: seq<bool>, p: Pipe, ok: bool, t: string)
    requires |sent| == |pipes|
    ensures SendFailed(pipes + [p], sent + [ok], t) <==> SendFailed(pipes, sent, t) || (t in p.from && !ok)
  {
    var ps, ss := pipes + [p], sent + [ok];
    assert ps[|pipes|] == p && ss[|pipes|] == ok;
    if SendFailed(pipes, sent, t) {
      var q :| 0 <= q < |pipes| && t in pipes[q].from && !sent[q];
      assert ps[q] == pipes[q] && ss[q] == sent[q];
    }
  }

  // ---- The broker's methods -------------------------------------------------------------------

  function Get<K>(m: map<K, nat>, k: K): nat {
    if k in m then m[k] else 0
  }

  /** The types of all configured pipes, each once. */
  method CollectEventTypes(pipes: seq<Pipe>) returns (types: seq<string>)
    ensures forall i, j :: 0 <= i < j < |types| ==> types[i] != types[j]
    ensures forall t :: t in types <==> exists p :: p in pipes && t in p.from
  {
    types := [];
    for i := 0 to |pipes|
      invariant forall a, b :: 0 <= a < b < |types| ==> types[a] != types[b]
      invariant forall t :: t in types <==> exists p :: p in pipes[..i] && t in p.from
    {
      ghost var before := types;
      for j := 0 to |pipes[i].from|
        invariant forall a, b :: 0 <= a < b < |types| ==> types[a] != types[b]
        invariant forall t :: t in types <==> t in before || t in pipes[i].from[..j]
      {
        if pipes[i].from[j] !in types {
          types := types + [pipes[i].from[j]];
        }
      }
      assert pipes[..i + 1] == pipes[..i] + [pipes[i]];
    }
    assert pipes[..|pipes|] == pipes;
  }

  /** The least `max` of the pipes subscribed to a type, and never more than 100. */
  method MaxForType(pipes: seq<Pipe>, t: string) returns (max: int)
    ensures max <= 100 && forall p :: p in pipes && t in p.from ==> max <= p.max
    ensures max == 100 || exists p :: p in pipes && t in p.from && p.max == max
  {
    max := 100;
    for i := 0 to |pipes|
      invariant max <= 100 && forall j :: 0 <= j < i && t in pipes[j].from ==> max <= pipes[j].max
      invariant max == 100 || exists p :: p in pipes && t in p.from && p.max == max
    {
      for j := 0 to |pipes[i].from|
        invariant max <= 100 && forall k :: 0 <= k < i && t in pipes[k].from ==> max <= pipes[k].max
        invariant t in pipes[i].from[..j] ==> max <= pipes[i].max
        invariant max == 100 || exists p :: p in pipes && t in p.from && p.max == max
      {
        if pipes[i].from[j] == t && pipes[i].max < max {
          max := pipes[i].max;
          assert pipes[i] in pipes;
        }
      }
      assert pipes[i].from[..|pipes[i].from|] == pipes[i].from;
    }
  }

  method CountRequired(pipes: seq<Pipe>) returns (required: map<string, nat>)
    ensures forall t :: Get(required, t) == Required(pipes, t)
  {
    required := map[];
    for i := 0 to |pipes|
      invariant forall t :: Get(required, t) == Required(pipes[..i], t)
    {
      ghost var before := required;
      var from := pipes[i].from;
      for j := 0 to |from|
        invariant forall t :: Get(required, t) == Get(before, t) + Count(from[..j], t)
      {
        assert from[..j + 1][..j] == from[..j];
        required := required[from[j] := Get(required, from[j]) + 1];
      }
      assert from[..|from|] == from && pipes[..i + 1][..i] == pipes[..i];
    }
    assert pipes[..|pipes|] == pipes;
  }

  method BatchFor(polled: map<string, seq<Event>>, from: seq<string>) returns (events: seq<Event>)
    ensures events == Batch(polled, from)
  {
    events := [];
    for j := 0 to |from|
      invariant events == Batch(polled, from[..j])
    {
      assert from[..j + 1][..j] == from[..j];
      if from[j] in polled {
        events := events + polled[from[j]];
      }
    }
    assert from[..|from|] == from;
  }

  /** Sends to every pipe that has something to send; `sent[p]` is the outcome for pipe `p`. */
  method Distribute(pipes: seq<Pipe>, polled: map<string, seq<Event>>, sent: seq<bool>)
      returns (delivered: map<Event, nat>, failed: set<Event>)
    requires |sent| == |pipes|
    ensures forall e :: Get(delivered, e) == Delivered(pipes, polled, sent, |pipes|, e)
    ensures forall e :: e in failed <==> Failed(pipes, polled, sent, |pipes|, e)
  {
    delivered, failed := map[], {};
    for i := 0 to |pipes|
      invariant forall e :: Get(delivered, e) == Delivered(pipes, polled, sent, i, e)
      invariant forall e :: e in failed <==> Failed(pipes, polled, sent, i, e)
    {
      var events := BatchFor(polled, pipes[i].from);
      if |events| == 0 {
        continue;
      }
      if !sent[i] {
        ghost var before := failed;
        for k := 0 to |events|
          invariant forall e :: e in failed <==> e in before || e in events[..k]
        {
          failed := failed + {events[k]};
        }
        assert events[..|events|] == events;
      } else {
        ghost var before := delivered;
        for k := 0 to |events|
          invariant forall e :: Get(delivered, e) == Get(before, e) + Count(events[..k], e)
        {
          assert events[..k + 1][..k] == events[..k];
          delivered := delivered[events[k] := Get(delivered, events[k]) + 1];
        }
        assert events[..|events|] == events;
      }
    }
  }

  /** The ids of one type to acknowledge, and those to fail. */
  method Sort(t: string, events: seq<Event>, delivered: map<Event, nat>, failed: set<Event>, required: nat)
      returns (ack: seq<Id>, fail: seq<Id>)
    requires forall i :: 0 <= i < |events| ==> events[i].kind == t
    ensures (forall e :: e in events ==> e !in failed && Get(delivered, e) >= required) ==>
            ack == Ids(events) && fail == []
    ensures (forall e :: e in events ==> e in failed) ==> ack == [] && fail == Ids(events)
  {
    ack, fail := [], [];
    for i := 0 to |events|
      invariant (forall e :: e in events ==> e !in failed && Get(delivered, e) >= required) ==>
        ack == Ids(events[..i]) && fail == []
      invariant (forall e :: e in events ==> e in failed) ==> ack == [] && fail == Ids(events[..i])
    {
      assert events[..i + 1][..i] == events[..i] && events[i] in events;
      if events[i] in failed {
        fail := fail + [events[i].id];
        continue;
      }
      if Get(delivered, events[i]) >= required {
        ack := ack + [events[i].id];
      }
    }
    assert events[..|events|] == events;
  }

  /** The answers of the polls that were made and succeeded. */
  method CollectPolled(types: seq<string>, replies: map<string, seq<Event>>) returns (polled: map<string, seq<Event>>)
    requires WellPolled(replies)
    ensures WellPolled(polled)
    ensures forall t :: t in polled <==> t in replies && t in types
    ensures forall t :: t in polled ==> polled[t] == replies[t]
  {
    polled := map[];
    for i := 0 to |types|
      invariant forall t :: t in polled <==> t in replies && t in types[..i]
      invariant forall t :: t in polled ==> polled[t] == replies[t]
    {
      if types[i] in replies {
        polled := polled[types[i] := replies[types[i]]];
      }
    }
    assert types[..|types|] == types;
  }

  method SortAll(pipes: seq<Pipe>, types: seq<string>, polled: map<string, seq<Event>>, sent: seq<bool>)
      returns (acks: map<string, seq<Id>>, fails: map<string, seq<Id>>)
    requires |sent| == |pipes| && WellPolled(polled)
    ensures forall t :: t in acks <==> t in polled && t in types
    ensures forall t :: t in fails <==> t in polled && t in types
    ensures forall t :: t in acks ==> acks[t] == AckOf(pipes, sent, t, polled[t])
    ensures forall t :: t in fails ==> fails[t] == FailOf(pipes, sent, t, polled[t])
  {
    var required := CountRequired(pipes);
    var delivered, failed := Distribute(pipes, polled, sent);
    acks, fails := map[], map[];
    for i := 0 to |types|
      invariant forall t :: t in acks <==> t in polled && t in types[..i]
      invariant forall t :: t in fails <==> t in polled && t in types[..i]
      invariant forall t :: t in acks ==> acks[t] == AckOf(pipes, sent, t, polled[t])
      invariant forall t :: t in fails ==> fails[t] == FailOf(pipes, sent, t, polled[t])
    {
      var t := types[i];
      if t in polled {
        AllAlike(pipes, polled, sent, t);
        var ack, fail := Sort(t, polled[t], delivered, failed, Get(required, t));
        acks, fails := acks[t := ack], fails[t := fail];
      }
    }
    assert types[..|types|] == types;
  }

  /**
   * The cycle. `replies` holds the answers of the polls that succeeded. Whatever the subscriptions,
   * every polled event lands in exactly one of the two lists of its type: in `fails` exactly when a
   * pipe subscribed to the type could not send, in `acks` otherwise.
   */
  method Cycle(configured: seq<Pipe>, pipes: seq<Pipe>, replies: map<string, seq<Event>>, sent: seq<bool>)
      returns (acks: map<string, seq<Id>>, fails: map<string, seq<Id>>)
    requires |sent| == |pipes| && WellPolled(replies)
    ensures forall t :: t in acks <==> t in replies && exists p :: p in configured && t in p.from
    ensures forall t :: t in fails <==> t in replies && exists p :: p in configured && t in p.from
    ensures forall t :: t in acks ==> acks[t] == AckOf(pipes, sent, t, replies[t])
    ensures forall t :: t in fails ==> fails[t] == FailOf(pipes, sent, t, replies[t])
  {
    var types := CollectEventTypes(configured);
    var polled := CollectPolled(types, replies);
    acks, fails := SortAll(pipes, types, polled, sent);
  }

  /**
   * The two lists of a type: together they hold each of its ids as often as it was polled, and one of
   * them is empty: the one to acknowledge if some pipe that lists the type could not send.
   */
  lemma EachInOneList(pipes: seq<Pipe>, sent: seq<bool>, t: string, events: seq<Event>)
    requires |sent| == |pipes|
    ensures var ack, fail := AckOf(pipes, sent, t, events), FailOf(pipes, sent, t, events);
            var failed := exists p :: 0 <= p < |pipes| && t in pipes[p].from && !sent[p];
            && multiset(ack) + multiset(fail) == multiset(seq(|events|, i requires 0 <= i < |events| => events[i].id))
            && (failed ==> ack == []) && (!failed ==> fail == [])
  {
    assert Ids(events) == seq(|events|, i requires 0 <= i < |events| => events[i].id);
  }

  /** All events of one type share their fate. */
  lemma AllAlike(pipes: seq<Pipe>, polled: map<string, seq<Event>>, sent: seq<bool>, t: string)
    requires |sent| == |pipes| && WellPolled(polled) && t in polled
    ensures forall e :: e in polled[t] ==>
              && (Failed(pipes, polled, sent, |pipes|, e) <==> SendFailed(pipes, sent, t))
              && (SendFailed(pipes, sent, t) || Delivered(pipes, polled, sent, |pipes|, e) == Required(pipes, t))
  {
    forall e | e in polled[t]
      ensures Failed(pipes, polled, sent, |pipes|, e) <==> SendFailed(pipes, sent, t)
      ensures SendFailed(pipes, sent, t) || Delivered(pipes, polled, sent, |pipes|, e) == Required(pipes, t)
    {
      assert e.kind == t;
      DeliveriesMeetRequirement(pipes, polled, sent, |pipes|, e);
      assert pipes[..|pipes|] == pipes && sent[..|sent|] == sent;
    }
  }

  /**
   * Where "acknowledged" falls short of "delivered": an event no send failed for was sent to somebody
   * exactly when an initialised pipe subscribes to its type. A type whose pipes all failed to
   * initialise requires no deliveries, and its events are acknowledged without any.
   */
  lemma AckedMeansDeliveredIff(pipes: seq<Pipe>, polled: map<string, seq<Event>>, sent: seq<bool>, e: Event)
    requires |sent| == |pipes| && WellPolled(polled) && e.kind in polled && e in polled[e.kind]
    requires !SendFailed(pipes, sent, e.kind)
    ensures Delivered(pipes, polled, sent, |pipes|, e) > 0 <==> exists p :: p in pipes && e.kind in p.from
  {
    AllAlike(pipes, polled, sent, e.kind);
    RequiredPositive(pipes, e.kind);
  }

  lemma {:induction false} RequiredPositive(pipes: seq<Pipe>, t: string)
    ensures Required(pipes, t) > 0 <==> exists p :: p in pipes && t in p.from
  {
    if pipes != [] {
      var front, last := pipes[..|pipes| - 1], pipes[|pipes| - 1];
      RequiredPositive(front, t);
      CountIsMembership(last.from, t);
      assert pipes == front + [last];
    }
  }
}
