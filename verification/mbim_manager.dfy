/** The MBIM manager's command channel, and the loop that brings the connection up step by step. */
module MbimManager {
  import opened Wrappers
  import Spec = MbimCommands
  import opened MbimRounds

  class Channel {
    var transactionId: nat
    var request: Option<nat>             // the transaction id waited for
    var response: Option<Spec.Message>
    ghost var session: nat
    ghost var commands: seq<Spec.Command>
    ghost var waitingFor: Option<nat>
    ghost var completed: seq<Spec.Completion>

    ghost predicate Valid()
      reads this
    {
      match waitingFor
      case None => request == None
      case Some(i) => i < |commands| && request == Some(commands[i].tid)
    }

    ghost function State(): Spec.State
      reads this
    {
      Spec.State(session, transactionId, commands, waitingFor, response, completed)
    }

    constructor ()
      ensures Valid() && State() == Spec.Init()
    {
      transactionId, request, response := 1, None, None;
      session, commands, waitingFor, completed := 0, [], None, [];
    }

    method OpenDevice()
      requires Valid() && request == None
      modifies this`transactionId, this`session
      ensures Valid() && State() == Spec.Step(old(State()), Spec.Open)
    {
      transactionId := 1;
      session := session + 1;
    }

    /** Composes a command, which takes the next id, and writes it. */
    method Send(written: bool) returns (tid: nat)
      requires Valid() && request == None
      modifies this
      ensures Valid() && State() == Spec.Step(old(State()), Spec.Send(written)) && tid == old(transactionId)
    {
      tid := transactionId;
      transactionId := (transactionId + 1) % Spec.Width;
      commands := commands + [Spec.Command(session, tid)];
      request, response := if written then Some(tid) else None, None;
      waitingFor := if written then Some(|commands| - 1) else None;
    }

    /** The reader compares ids only; `tid` is the id the message carries. */
    method Receive(m: Spec.Message, tid: nat)
      requires Valid() && tid == Spec.TidOf(State(), m)
      modifies this`response
      ensures Valid() && State() == Spec.Step(old(State()), Spec.Receive(m))
    {
      if request.Some? && request.value == tid {
        response := Some(m);
      }
    }

    /** The end of the wait: whatever came, nothing is waited for any more. */
    method Wake(timedOut: bool) returns (done: Option<Spec.Message>)
      requires Valid() && request.Some?
      modifies this
      ensures Valid() && State() == Spec.Step(old(State()), Spec.Wake(timedOut))
      ensures done == if timedOut then None else old(response)
    {
      done := if timedOut then None else response;
      if done.Some? {
        completed := completed + [Spec.Completion(waitingFor.value, done.value)];
      }
      request, response, waitingFor := None, None, None;
    }
  }

  // ---- Bring-up --------------------------------------------------------------------------------------

  /** The manager's variables; every method also returns what it sent, read and heard. */
  class BringUp {
    var openState: bool
    var states: States

    function Now(): Machine
      reads this
    {
      Machine(openState, states)
    }

    constructor ()
      ensures Now() == Machine(false, Blank())
    {
      openState, states := false, Blank();
    }

    /** The reader thread has run in the meantime. */
    method Indicated(s: Option<States>)
      modifies this`states
      ensures Now() == Indicate(old(Now()), s)
    {
      if s.Some? {
        states := s.value;
      }
    }

    /** A reply that says the device is not open makes the next round open it again; this one goes on. */
    method Reply(notOpened: bool) returns (acts: seq<Act>)
      modifies this`openState
      ensures Now() == Hear(old(Now()), notOpened) && acts == HearActs(notOpened)
    {
      acts := [];
      if notOpened {
        openState := false;
        acts := [NotOpened];
      }
    }

    method EnsureOpen(r: Round) returns (acts: seq<Act>, next: Next)
      modifies this
      ensures Result(Now(), acts, next) == OpenGate(old(Now()), r)
    {
      acts := [RoundBegins, ReadOpen(openState)];
      next := GoOn;
      if !openState {
        acts := acts + [Sent(OpenDevice)];
        if r.open != 0 {
          return acts, Quit;
        }
        openState := true;
        states := Blank();
        acts := acts + [Opened, Sent(QueryCaps)];
        var heard := Reply(r.caps.notOpened);
        acts := acts + heard;
        if r.caps.err != 0 {
          return acts, Quit;
        }
      }
    }

    method EnsureReady(r: Round) returns (acts: seq<Act>, next: Next)
      modifies this
      ensures Result(Now(), acts, next) == ReadyGate(old(Now()), r)
    {
      acts := [];
      Indicated(r.indicated(0));
      if states.ready != Initialized {
        var heard := Reply(r.ready.notOpened);
        acts := [Sent(QueryReady)] + heard;
        if r.ready.err != 0 {
          return acts, Quit;
        }
        if r.ready.value.Some? {
          states := states.(ready := r.ready.value.value);
        }
      }
      Indicated(r.indicated(1));
      acts := acts + [ReadReady(states.ready)];
      next := if states.ready == Initialized then GoOn else EndRound(Day);
    }

    method EnsureRegistered(r: Round) returns (acts: seq<Act>, next: Next)
      modifies this
      ensures Result(Now(), acts, next) == RegisterGate(old(Now()), r)
    {
      acts := [];
      Indicated(r.indicated(2));
      if states.register != Home && states.register != Roaming {
        var heard := Reply(r.register.notOpened);
        acts := [Sent(QueryRegister)] + heard;
        if r.register.err != 0 {
          return acts, Quit;
        }
        if r.register.value.Some? {
          states := states.(register := r.register.value.value);
        }
      }
      Indicated(r.indicated(3));
      acts := acts + [ReadRegister(states.register)];
      next := if states.register == Home || states.register == Roaming then GoOn else EndRound(Day);
    }

    method EnsureAttached(r: Round) returns (acts: seq<Act>, next: Next)
      modifies this
      ensures Result(Now(), acts, next) == PacketGate(old(Now()), r)
    {
      acts := [];
      Indicated(r.indicated(4));
      if states.packet != Attached {
        var heard := Reply(r.packet.notOpened);
        acts := [Sent(QueryPacket)] + heard;
        if r.packet.err != 0 {
          return acts, Quit;
        }
        if r.packet.value.Some? {
          states := states.(packet := r.packet.value.value);
        }
        Indicated(r.indicated(5));
        if states.packet == Detached {
          heard := Reply(r.attach.notOpened);
          acts := acts + ([Sent(Attach)] + heard);
          if r.attach.err != 0 {
            return acts, Quit;
          }
          if r.attach.value.Some? {
            states := states.(packet := r.attach.value.value);
          }
        }
      }
      Indicated(r.indicated(6));
      acts := acts + [ReadPacket(states.packet)];
      next := if states.packet == Attached then GoOn else EndRound(Day);
    }

    method EnsureActivationKnown(r: Round) returns (acts: seq<Act>, next: Next)
      modifies this
      ensures Result(Now(), acts, next) == ActivationGate(old(Now()), r)
    {
      acts := [];
      Indicated(r.indicated(7));
      if states.activation == UnknownActivation {
        var heard := Reply(r.connect.notOpened);
        acts := [Sent(QueryConnect)] + heard;
        if r.connect.err != 0 {
          return acts, Quit;
        }
        if r.connect.value.Some? {
          states := states.(activation := r.connect.value.value);
        }
      }
      Indicated(r.indicated(8));
      acts := acts + [ReadActivation(states.activation)];
      next := if Idle(states.activation) then GoOn else EndRound(Day);
    }

    /** Activates, and configures addresses if that was done at once; else the next round comes soon. */
    method Connect(r: Round) returns (acts: seq<Act>, next: Next)
      modifies this
      ensures Result(Now(), acts, next) == Connecting(old(Now()), r)
    {
      var heard := Reply(r.activate.notOpened);
      acts := [Sent(Activate)] + heard;
      if r.activate.err != 0 {
        return acts, Quit;
      }
      if r.activate.value.Some? {
        states := states.(activation := r.activate.value.value);
      }
      Indicated(r.indicated(9));
      if states.activation != Activated {
        return acts, EndRound(30);
      }
      heard := Reply(r.ip.notOpened);
      acts := acts + ([Sent(QueryIp)] + heard);
      next := if r.ip.err != 0 then Quit else EndRound(Day);
    }

    /** One round: each gate either lets the round go on, ends it, or ends the program. */
    method DoRound(r: Round) returns (acts: seq<Act>, next: Next)
      modifies this
      ensures Result(Now(), acts, next) == OneRound(old(Now()), r)
    {
      acts, next := EnsureOpen(r);
      if next != GoOn {
        return;
      }
      var more;
      more, next := EnsureReady(r);
      acts := acts + more;
      if next != GoOn {
        return;
      }
      more, next := EnsureRegistered(r);
      acts := acts + more;
      if next != GoOn {
        return;
      }
      more, next := EnsureAttached(r);
      acts := acts + more;
      if next != GoOn {
        return;
      }
      more, next := EnsureActivationKnown(r);
      acts := acts + more;
      if next != GoOn {
        return;
      }
      more, next := Connect(r);
      acts := acts + more;
    }

    /** The loop, until a round quits. */
    method DoRounds(rounds: seq<Round>) returns (acts: seq<Act>)
      modifies this
      ensures Now() == Rounds(old(Now()), rounds).m && acts == Rounds(old(Now()), rounds).acts
    {
      acts := [];
      var next := EndRound(Day);
      var i := 0;
      while i < |rounds| && next != Quit
        invariant 0 <= i <= |rounds|
        invariant Result(Now(), acts, next) == Rounds(old(Now()), rounds[..i])
        decreases |rounds| - i
      {
        assert rounds[..i + 1][..i] == rounds[..i];
        var more;
        more, next := DoRound(rounds[i]);
        acts := acts + more;
        i := i + 1;
      }
      QuitStays(old(Now()), rounds, i);
    }

    /** The way out: what is active is deactivated, the device closed. */
    method Leave(readerAlive: bool) returns (acts: seq<Act>)
      ensures acts == Leaving(Now(), readerAlive)
    {
      acts := [];
      if readerAlive {
        if states.activation == Activated || states.activation == Activating {
          acts := [Sent(Deactivate)];
        }
        acts := acts + [Sent(CloseDevice)];
      }
    }

    /** The whole program: rounds, then the way out. */
    method RunLoop(rounds: seq<Round>, readerAlive: bool) returns (acts: seq<Act>)
      modifies this
      ensures var run := Rounds(old(Now()), rounds);
              Now() == run.m && acts == run.acts + Leaving(run.m, readerAlive)
    {
      acts := DoRounds(rounds);
      var last := Leave(readerAlive);
      acts := acts + last;
    }
  }
}
