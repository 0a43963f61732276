/**
 * One sender waits for one answer at a time, while a reader thread looks at whatever the modem says.
 * A step is one critical section of the command mutex.
 */
module MatchingSpec {
  import opened Wrappers
  import opened Bytes

  const Ctl: byte := 0x00
  const Wds: byte := 0x01
  const WdsIpv6: byte := 0x11   // a name of the program's own: the modem only knows Wds

  datatype Header = Header(service: byte, client: byte, tid: nat)

  /** The header as the transport sends it. */
  function OnWire(h: Header): Header {
    if h.service == WdsIpv6 then h.(service := Wds) else h
  }

  /** Same service, same client, same transaction. */
  predicate IsResponse(request: Header, response: Header) {
    request.service == response.service && request.client == response.client && request.tid == response.tid
  }

  /** A request object: what its buffer holds now, and how often it was freed. */
  datatype Object = Object(held: Header, frees: nat)

  /** What a finished wait gave its caller, and for which request. */
  datatype Handed = Handed(request: nat, answer: Option<Header>)

  datatype State = State(
    qmux: nat, qctl: nat,                 // transaction counters
    asked: seq<Header>,                   // every request ever composed and sent
    objects: seq<Object>,                 // and the object that carried it
    outstanding: Option<nat>,             // the one the reader compares with
    response: Option<Header>,
    waiting: bool,                        // the sender is waiting for the condition
    handed: seq<Handed>)

  datatype Device = Closed | Refused | Written

  /** A wake-up may be spurious, and may report a timeout although an answer has just come. */
  datatype Event =
    | Send(service: byte, client: byte, device: Device)
    | Wake(timedOut: bool, wanted: bool)
    | Receive(h: Header)
    | Quit

  function Init(): State { State(0, 0, [], [], None, None, false, []) }

  function Cycle(ctl: bool): nat { if ctl then 0xFF else 0xFFFF }

  function Advance(counter: nat, cycle: nat): nat { if counter + 1 > cycle then 1 else counter + 1 }

  predicate Enabled(s: State, e: Event) {
    match e
    case Send(_, _, _) => !s.waiting
    case Wake(_, _) => s.waiting
    case _ => true
  }

  predicate IsOutstanding(s: State) { s.outstanding.Some? && s.outstanding.value < |s.objects| }

  function Free(s: State): State {
    if IsOutstanding(s) then
      var i := s.outstanding.value;
      s.(objects := s.objects[i := s.objects[i].(frees := s.objects[i].frees + 1)], outstanding := None)
    else s
  }

  function Latest(s: State): nat { if s.asked == [] then 0 else |s.asked| - 1 }

  function Step(s: State, e: Event): State {
    match e
    case Send(service, client, device) =>
      var tid := Advance(if service == Ctl then s.qctl else s.qmux, Cycle(service == Ctl));
      var asked := Header(service, client, tid);
      s.(qctl := if service == Ctl then tid else s.qctl, qmux := if service == Ctl then s.qmux else tid,
         asked := s.asked + [asked],
         objects := s.objects + [Object(if device.Closed? then asked else OnWire(asked), 0)],
         outstanding := Some(|s.objects|), response := None, waiting := device.Written?)
    case Wake(timedOut, wanted) =>
      s.(waiting := false, response := if timedOut || wanted then s.response else None,
         handed := s.handed + [Handed(Latest(s), if timedOut || !wanted then None else s.response)])
    case Receive(h) =>
      if IsOutstanding(s) && IsResponse(s.objects[s.outstanding.value].held, h) then Free(s).(response := Some(h))
          else s
    case Quit =>
      if IsOutstanding(s) then Free(s).(response := None) else s
  }

  predicate Possible(es: seq<Event>)
    decreases |es|, 0
  {
    es == [] || (Possible(es[..|es| - 1]) && Enabled(Run(es[..|es| - 1]), es[|es| - 1]))
  }

  function Run(es: seq<Event>): State
    requires Possible(es)
    decreases |es|, 1
  {
    if es == [] then Init() else Step(Run(es[..|es| - 1]), es[|es| - 1])
  }

  // ---- What every step keeps -----------------------------------------------------------------------

  /** An answer handed for a request carries that request's service, client and transaction. */
  predicate Answers(asked: seq<Header>, objects: seq<Object>, h: Handed) {
    && h.request < |asked| == |objects|
    && (h.answer.Some? ==> h.answer.value == OnWire(asked[h.request]) && objects[h.request].frees == 1)
  }

  ghost predicate Inv(s: State) {
    && |s.asked| == |s.objects|
    && (forall i :: 0 <= i < |s.objects| ==>
        s.objects[i].frees <= 1 && (s.objects[i].held == s.asked[i] || s.objects[i].held == OnWire(s.asked[i])))
    && (s.outstanding.Some? ==>
          && s.outstanding.value < |s.objects| && s.outstanding.value == |s.objects| - 1
          && s.objects[s.outstanding.value].frees == 0)
    && (s.waiting ==> s.asked != [] && s.objects[|s.objects| - 1].held == OnWire(s.asked[|s.asked| - 1]))
    && (s.waiting && s.outstanding.Some? ==> s.response.None?)
    && (s.waiting && s.response.Some? ==>
          s.response.value == OnWire(s.asked[|s.asked| - 1]) && s.objects[|s.objects| - 1].frees == 1)
    && (forall k :: 0 <= k < |s.handed| ==> Answers(s.asked, s.objects, s.handed[k]))
    && (forall k :: 0 <= k < |s.handed| && s.waiting ==> s.handed[k].request < |s.asked| - 1)
    && (forall j, k :: 0 <= j < k < |s.handed| ==> s.handed[j].request < s.handed[k].request)
  }

  lemma FreeKeepsInv(s: State)
    requires Inv(s) && IsOutstanding(s)
    requires s.waiting ==> s.response.None?
    ensures var after := Free(s);
            && |after.asked| == |after.objects| && after.outstanding.None?
            && (forall i :: 0 <= i < |after.objects| ==>
                after.objects[i].held == s.objects[i].held && after.objects[i].frees <= 1)
            && (forall k :: 0 <= k < |after.handed| ==> Answers(after.asked, after.objects, after.handed[k]))
  {
    var after := Free(s);
    forall k | 0 <= k < |after.handed| ensures Answers(after.asked, after.objects, after.handed[k]) {
      assert Answers(s.asked, s.objects, s.handed[k]);
    }
  }

  lemma StepKeepsInv(s: State, e: Event)
    requires Inv(s) && Enabled(s, e)
    ensures Inv(Step(s, e))
  {
    var after := Step(s, e);
    match e
    case Send(service, client, device) =>
      forall k | 0 <= k < |after.handed| ensures Answers(after.asked, after.objects, after.handed[k]) {
        assert Answers(s.asked, s.objects, s.handed[k]);
      }
    case Wake(timedOut, wanted) =>
    case Receive(h) =>
      if IsOutstanding(s) {
        FreeKeepsInv(s);
      }
    case Quit =>
      if IsOutstanding(s) {
        FreeKeepsInv(s);
      }
  }

  lemma {:induction false} RunKeepsInv(es: seq<Event>)
    requires Possible(es)
    ensures Inv(Run(es))
    decreases |es|
  {
    if es != [] {
      RunKeepsInv(es[..|es| - 1]);
      StepKeepsInv(Run(es[..|es| - 1]), es[|es| - 1]);
    }
  }

  /**
   * Matching. In every interleaving of sends, answers, indications, timeouts, spurious wake-ups and
   * shutdown: an answer handed to a sender has the service, client and transaction of that sender's
   * own request, as it went out on the wire; every request gets at most one; and no request is freed
   * twice.
   */
  lemma AnswersMatch(es: seq<Event>)
    requires Possible(es)
    ensures var s := Run(es);
            && |s.asked| == |s.objects|
            && (forall i :: 0 <= i < |s.objects| ==> s.objects[i].frees <= 1)
            && (forall k :: 0 <= k < |s.handed| ==> Answers(s.asked, s.objects, s.handed[k]))
            && (forall j, k :: 0 <= j < k < |s.handed| ==> s.handed[j].request != s.handed[k].request)
  {
    RunKeepsInv(es);
  }

  // ---- Late answers ---------------------------------------------------------------------------------

  /** Requests of the control service, or of all others, among `asked`. */
  function Count(asked: seq<Header>, ctl: bool): nat {
    if asked == [] then 0
    else Count(asked[..|asked| - 1], ctl) + if (asked[|asked| - 1].service == Ctl) == ctl then 1 else 0
  }

  /** The `n`-th transaction id of a kind, counting from zero. */
  function Tid(n: nat, ctl: bool): nat { if n == 0 then 1 else Advance(Tid(n - 1, ctl), Cycle(ctl)) }

  /** Ids run from 1 up to the length of the cycle, then start at 1 again. */
  lemma {:induction false} TidCycles(n: nat, ctl: bool)
    ensures Tid(n, ctl) == 1 + n % Cycle(ctl) && Cycle(ctl) == if ctl then 255 else 65535
  {
    if n > 0 {
      TidCycles(n - 1, ctl);
      ModNext(n - 1, Cycle(ctl));
    }
  }

  lemma {:induction false} ModNext(n: nat, c: nat)
    requires c > 1
    ensures (n + 1) % c == if n % c + 1 == c then 0 else n % c + 1
  {
    var q, r := n / c, n % c;
    assert n == q * c + r;
    if r + 1 == c {
      assert n + 1 == (q + 1) * c;
      ModUnique(q + 1, 0, c);
    } else {
      ModUnique(q, r + 1, c);
    }
  }

  lemma {:induction false} ModUnique(q: int, r: int, c: nat)
    requires 0 <= r < c
    ensures (q * c + r) % c == r
  {
    var n := q * c + r;
    var q', r' := n / c, n % c;
    assert (q - q') * c == r' - r;
    MulAtLeast(q - q', c);
    MulAtLeast(q' - q, c);
  }

  lemma MulAtLeast(k: int, c: nat)
    ensures k >= 1 ==> k * c >= c
  {
    if k >= 1 {
      assert k * c == c + (k - 1) * c;
    }
  }

  /** Every request carries the id its position among the requests of its kind gives it. */
  predicate InOrder(asked: seq<Header>) {
    asked == [] ||
    (InOrder(asked[..|asked| - 1]) &&
     var last := asked[|asked| - 1];
     last.tid == Tid(Count(asked[..|asked| - 1], last.service == Ctl), last.service == Ctl))
  }

  lemma {:induction false} InOrderAt(asked: seq<Header>, i: nat)
    requires InOrder(asked) && i < |asked|
    ensures asked[i].tid == Tid(Count(asked[..i], asked[i].service == Ctl), asked[i].service == Ctl)
  {
    if i < |asked| - 1 {
      InOrderAt(asked[..|asked| - 1], i);
      assert asked[..|asked| - 1][..i] == asked[..i];
    }
  }

  /** The value a counter has after these requests. */
  function Counter(asked: seq<Header>, ctl: bool): nat {
    var n := Count(asked, ctl);
    if n == 0 then 0 else Tid(n - 1, ctl)
  }

  ghost predicate Numbered(s: State) {
    s.qmux == Counter(s.asked, false) && s.qctl == Counter(s.asked, true) && InOrder(s.asked)
  }

  lemma {:induction false} RunIsNumbered(es: seq<Event>)
    requires Possible(es)
    ensures Numbered(Run(es))
    decreases |es|
  {
    if es != [] {
      var before, e := Run(es[..|es| - 1]), es[|es| - 1];
      RunIsNumbered(es[..|es| - 1]);
      if e.Send? {
        StepNumbers(before, e);
      } else {
        OtherStepsNumberNothing(before, e);
      }
    }
  }

  lemma OtherStepsNumberNothing(s: State, e: Event)
    requires !e.Send?
    ensures Step(s, e).asked == s.asked && Step(s, e).qmux == s.qmux && Step(s, e).qctl == s.qctl
  {
  }

  lemma StepNumbers(s: State, e: Event)
    requires Numbered(s) && e.Send?
    ensures Numbered(Step(s, e))
  {
    var after := Step(s, e);
    AppendNumbers(s.asked, after.asked[|s.asked|]);
  }

  lemma AppendNumbers(asked: seq<Header>, h: Header)
    requires InOrder(asked) && h.tid == Advance(Counter(asked, h.service == Ctl), Cycle(h.service == Ctl))
    ensures InOrder(asked + [h])
    ensures Counter(asked + [h], h.service == Ctl) == h.tid
    ensures Counter(asked + [h], h.service != Ctl) == Counter(asked, h.service != Ctl)
  {
    assert (asked + [h])[..|asked + [h]| - 1] == asked;
  }

  lemma {:induction false} CountGrows(asked: seq<Header>, i: nat, j: nat, ctl: bool)
    requires i <= j <= |asked|
    ensures Count(asked[..i], ctl) <= Count(asked[..j], ctl) <= Count(asked[..i], ctl) + (j - i)
    decreases j
  {
    if i < j {
      CountGrows(asked, i, j - 1, ctl);
      assert asked[..j][..j - 1] == asked[..j - 1];
    }
  }

  /** Two numbers leave the same remainder exactly when the cycle divides their difference. */
  lemma SameTid(m: nat, n: nat, ctl: bool)
    requires m <= n
    ensures Tid(m, ctl) == Tid(n, ctl) <==> (n - m) % Cycle(ctl) == 0
  {
    var c := Cycle(ctl);
    TidCycles(m, ctl);
    TidCycles(n, ctl);
    if m % c == n % c {
      assert n - m == (n / c - m / c) * c;
      ModUnique(n / c - m / c, 0, c);
    }
    if (n - m) % c == 0 {
      assert n == ((n - m) / c + m / c) * c + m % c;
      ModUnique((n - m) / c + m / c, m % c, c);
    }
  }

  /**
   * Late answers. The answer to request `i`, arriving while a later request `j` is outstanding, is
   * taken for `j`'s exactly when both have the same service on the wire and the same client, and the
   * number of requests of their kind from `i` up to `j` is a multiple of the cycle: 255 for the
   * control service, 65535 for all others.
   */
  lemma LateAnswerTakenIff(es: seq<Event>, s: State, i: nat, j: nat)
    requires Possible(es) && s == Run(es) && i < j < |s.asked|
    ensures var ctl := s.asked[i].service == Ctl;
            IsResponse(OnWire(s.asked[j]), OnWire(s.asked[i])) <==>
              && OnWire(s.asked[j]).service == OnWire(s.asked[i]).service && s.asked[j].client == s.asked[i].client
              && (Count(s.asked[..j], ctl) - Count(s.asked[..i], ctl)) % Cycle(ctl) == 0
  {
    RunIsNumbered(es);
    LateAnswer(s, i, j);
  }

  lemma LateAnswer(s: State, i: nat, j: nat)
    requires Numbered(s) && i < j < |s.asked|
    ensures var ctl := s.asked[i].service == Ctl;
            IsResponse(OnWire(s.asked[j]), OnWire(s.asked[i])) <==>
              && OnWire(s.asked[j]).service == OnWire(s.asked[i]).service && s.asked[j].client == s.asked[i].client
              && (Count(s.asked[..j], ctl) - Count(s.asked[..i], ctl)) % Cycle(ctl) == 0
  {
    var ctl := s.asked[i].service == Ctl;
    CountGrows(s.asked, i, j, ctl);
    InOrderAt(s.asked, i);
    InOrderAt(s.asked, j);
    SameTid(Count(s.asked[..i], ctl), Count(s.asked[..j], ctl), ctl);
  }

  /** So none of the next 65534 requests to any service but control can receive it. */
  lemma LateAnswerIsIgnored(es: seq<Event>, s: State, i: nat, j: nat)
    requires Possible(es) && s == Run(es) && i < j < |s.asked| && s.outstanding == Some(j) && s.waiting
    requires s.asked[i].service != Ctl && Count(s.asked[..j + 1], false) - Count(s.asked[..i + 1], false) <= 65534
    ensures Step(s, Receive(OnWire(s.asked[i]))) == s
  {
    RunKeepsInv(es);
    RunIsNumbered(es);
    LateAnswerDiffers(s, i, j);
  }

  lemma LateAnswerDiffers(s: State, i: nat, j: nat)
    requires Numbered(s) && i < j < |s.asked| && s.asked[i].service != Ctl
    requires Count(s.asked[..j + 1], false) - Count(s.asked[..i + 1], false) <= 65534
    ensures !IsResponse(OnWire(s.asked[j]), OnWire(s.asked[i]))
  {
    assert s.asked[..i + 1][..i] == s.asked[..i] && s.asked[..j + 1][..j] == s.asked[..j];
    CountGrows(s.asked, i + 1, j, false);
    InOrderAt(s.asked, i);
    InOrderAt(s.asked, j);
    if s.asked[j].service != Ctl {
      NearTidsDiffer(Count(s.asked[..i], false), Count(s.asked[..j], false), false);
    }
  }

  lemma NearTidsDiffer(m: nat, n: nat, ctl: bool)
    requires 0 < n - m < Cycle(ctl)
    ensures Tid(m, ctl) != Tid(n, ctl)
  {
    SameTid(m, n, ctl);
    ModUnique(0, n - m, Cycle(ctl));
  }
}
