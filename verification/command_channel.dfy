/**
 * The command channel on the heap: the sender and the reader share a pointer to the request object,
 * which the transport rewrites in place and the reader frees.
 */
module CommandChannel {
  import opened Wrappers
  import opened Bytes
  import Spec = MatchingSpec

  /** A composed request; `frees` counts the calls of `free` on it. */
  class Message {
    var service: byte
    var client: byte
    var tid: nat
    var frees: nat

    constructor (service: byte, client: byte, tid: nat)
      ensures this.service == service && this.client == client && this.tid == tid && frees == 0
    {
      this.service, this.client, this.tid, frees := service, client, tid, 0;
    }

    function Object(): Spec.Object
      reads this
    {
      Spec.Object(Spec.Header(service, client, tid), frees)
    }
  }

  ghost function Objects(ms: seq<Message>): (os: seq<Spec.Object>)
    reads ms
    ensures |os| == |ms| && forall i :: 0 <= i < |ms| ==> os[i] == ms[i].Object()
  {
    if ms == [] then [] else Objects(ms[..|ms| - 1]) + [ms[|ms| - 1].Object()]
  }

  class Channel {
    var qmux: nat
    var qctl: nat
    var request: Message?
    var response: Option<Spec.Header>   // the reader's own copy of the answer
    var waiting: bool
    ghost var asked: seq<Spec.Header>
    ghost var requests: seq<Message>
    ghost var outstanding: Option<nat>
    ghost var handed: seq<Spec.Handed>

    ghost predicate Valid()
      reads this
    {
      && |asked| == |requests|
      && (forall i, j :: 0 <= i < j < |requests| ==> requests[i] != requests[j])
      && (request == null <==> outstanding.None?)
      && (outstanding.Some? ==> outstanding.value < |requests| && requests[outstanding.value] == request)
    }

    ghost function State(): Spec.State
      reads this, requests
    {
      Spec.State(qmux, qctl, asked, Objects(requests), outstanding, response, waiting, handed)
    }

    constructor ()
      ensures Valid() && State() == Spec.Init() && requests == []
    {
      qmux, qctl, request, response, waiting := 0, 0, null, None, false;
      asked, requests, outstanding, handed := [], [], None, [];
    }

    method NextTransactionId(ctl: bool) returns (tid: nat)
      modifies this`qmux, this`qctl
      ensures tid == Spec.Advance(if ctl then old(qctl) else old(qmux), Spec.Cycle(ctl))
      ensures qctl == (if ctl then tid else old(qctl)) && qmux == if ctl then old(qmux) else tid
    {
      if ctl {
        qctl := qctl + 1;
        if qctl > 0xFF { qctl := 1; }
        tid := qctl;
      } else {
        qmux := qmux + 1;
        if qmux > 0xFFFF { qmux := 1; }
        tid := qmux;
      }
    }

    /** The transport: the program's own service number is replaced in the caller's buffer. */
    method Transmit(m: Message, device: Spec.Device) returns (ok: bool)
      modifies m
      ensures m.Object() == Spec.Object(if device.Closed? then old(m.Object()).held
              else Spec.OnWire(old(m.Object()).held), old(m.frees))
      ensures ok == device.Written?
    {
      if device.Closed? {
        return false;
      }
      if m.service == Spec.WdsIpv6 {
        m.service := Spec.Wds;
      }
      ok := device.Written?;
    }

    /** Composes a request and sends it, up to the wait for the condition. */
    method Send(service: byte, client: byte, device: Spec.Device)
      requires Valid() && !waiting
      modifies this
      ensures Valid() && State() == Spec.Step(old(State()), Spec.Send(service, client, device))
      ensures fresh(set m | m in requests && m !in old(requests))
    {
      var tid := NextTransactionId(service == Spec.Ctl);
      var m := new Message(service, client, tid);
      SendComposed(m, Spec.Header(service, client, tid), device);
    }

    /** Sends a composed request. */
    method SendComposed(m: Message, ghost header: Spec.Header, device: Spec.Device)
      requires Valid() && m !in requests && m.frees == 0
      modifies this`request, this`response, this`asked, this`requests, this`outstanding, this`waiting, m
      ensures Valid() && requests == old(requests) + [m]
      ensures State() == old(State()).(asked := old(asked) + [header], objects := old(Objects(requests)) + [m.Object()],
                                       outstanding := Some(|old(requests)|), response := None,
                                       waiting := device.Written?)
      ensures m.Object() == Spec.Object(if device.Closed? then old(m.Object()).held
              else Spec.OnWire(old(m.Object()).held), 0)
    {
      ghost var before := requests;
      Begin(m, header);
      var ok := Transmit(m, device);
      waiting := ok;
      assert requests[..|requests| - 1] == before;
    }

    /** Makes `m` the request the reader compares with. */
    method Begin(m: Message, ghost header: Spec.Header)
      requires Valid() && m !in requests
      modifies this`request, this`response, this`asked, this`requests, this`outstanding
      ensures Valid() && request == m && response == None
      ensures asked == old(asked) + [header] && requests == old(requests) + [m] && outstanding == Some(|old(requests)|)
    {
      request, response := m, None;
      asked, requests, outstanding := asked + [header], requests + [m], Some(|requests|);
    }

    /** The end of the wait; `wanted` says whether the caller gave a place for the answer. */
    method Wake(timedOut: bool, wanted: bool) returns (answer: Option<Spec.Header>)
      requires Valid() && waiting
      modifies this
      ensures Valid() && State() == Spec.Step(old(State()), Spec.Wake(timedOut, wanted))
      ensures requests == old(requests) && handed == old(handed) + [Spec.Handed(Spec.Latest(State()), answer)]
    {
      answer := None;
      waiting := false;
      if !timedOut {
        if response.Some? && wanted {
          answer := response;
        } else if response.Some? {
          response := None;
        }
      }
      handed := handed + [Spec.Handed(if asked == [] then 0 else |asked| - 1, answer)];
    }

    method FreeRequest()
      requires Valid() && request != null
      modifies this, request
      ensures Valid() && State() == Spec.Free(old(State())) && requests == old(requests) && request == null
    {
      request.frees := request.frees + 1;
      request, outstanding := null, None;
    }

    /** The reader: an answer to the outstanding request is kept; anything else is not. */
    method Receive(h: Spec.Header)
      requires Valid()
      modifies this, requests
      ensures Valid() && State() == Spec.Step(old(State()), Spec.Receive(h)) && requests == old(requests)
    {
      if request != null && Spec.IsResponse(Spec.Header(request.service, request.client, request.tid), h) {
        assert Objects(requests)[outstanding.value] == request.Object();
        FreeRequest();
        response := Some(h);
      }
    }

    /** The reader ends: whoever waits is let go without an answer. */
    method Quit()
      requires Valid()
      modifies this, requests
      ensures Valid() && State() == Spec.Step(old(State()), Spec.Quit) && requests == old(requests)
    {
      if request != null {
        FreeRequest();
        response := None;
      }
    }
  }
}
