/**
 * Bringing an MBIM connection up, round by round: what a round sends, reads and hears, as a function of
 * the manager's variables and of what the device answers and indicates.
 */
module MbimRounds {
  import opened Wrappers

  datatype Ready = NotInitialized | Initialized | OtherReady
  datatype Register = UnknownRegister | Home | Roaming | OtherRegister
  datatype Packet = UnknownPacket | Attached | Detached | OtherPacket
  datatype Activation = UnknownActivation | Activated | Activating | OtherActivation

  datatype States = States(ready: Ready, register: Register, packet: Packet, activation: Activation)

  datatype Machine = Machine(open: bool, states: States)

  /**
   * What a command brings back: an error of the channel, perhaps a value, and whether the reply says
   * that the device is not open.
   */
  datatype Answer<T> = Answer(err: int, value: Option<T>, notOpened: bool)

  /** One round as the device sees it; `indicated(k)` is what has been indicated by its point `k`. */
  datatype Round = Round(
    indicated: int -> Option<States>,
    open: int, caps: Answer<()>, ready: Answer<Ready>, register: Answer<Register>,
    packet: Answer<Packet>, attach: Answer<Packet>, connect: Answer<Activation>,
    activate: Answer<Activation>, ip: Answer<()>)

  datatype Command =
    | OpenDevice | QueryCaps | QueryReady | QueryRegister | QueryPacket | Attach
    | QueryConnect | Activate | QueryIp | Deactivate | CloseDevice

  /** What the loop sends, what it hears about the device being open, and the values its gates read. */
  datatype Act =
    | RoundBegins
    | Sent(command: Command)
    | Opened
    | NotOpened
    | ReadOpen(open: bool)
    | ReadReady(ready: Ready)
    | ReadRegister(register: Register)
    | ReadPacket(packet: Packet)
    | ReadActivation(activation: Activation)

  const Day: nat := 24 * 60 * 60

  /** How a stage ends: with the next one, with a wait of some seconds, or with the program. */
  datatype Next = GoOn | EndRound(wait: nat) | Quit

  datatype Result = Result(m: Machine, acts: seq<Act>, next: Next)

  function Blank(): States { States(NotInitialized, UnknownRegister, UnknownPacket, UnknownActivation) }

  predicate Idle(a: Activation) { a != Activated && a != Activating }

  function Indicate(m: Machine, s: Option<States>): Machine {
    if s.Some? then m.(states := s.value) else m
  }

  function Hear(m: Machine, notOpened: bool): Machine { m.(open := m.open && !notOpened) }

  function HearActs(notOpened: bool): seq<Act> { if notOpened then [NotOpened] else [] }

  function Asked(c: Command, notOpened: bool): seq<Act> { [Sent(c)] + HearActs(notOpened) }

  // ---- The gates --------------------------------------------------------------------------------------

  function OpenGate(m: Machine, r: Round): Result {
    if m.open then Result(m, [RoundBegins, ReadOpen(true)], GoOn)
    else if r.open != 0 then Result(m, [RoundBegins, ReadOpen(false), Sent(OpenDevice)], Quit)
    else Result(Machine(!r.caps.notOpened, Blank()),
                [RoundBegins, ReadOpen(false), Sent(OpenDevice), Opened] + Asked(QueryCaps, r.caps.notOpened),
                if r.caps.err != 0 then Quit else GoOn)
  }

  function ReadyGate(m: Machine, r: Round): Result {
    var before := Indicate(m, r.indicated(0));
    var ask := before.states.ready != Initialized;
    var heard := if ask then Hear(before, r.ready.notOpened) else before;
    var asked := if ask then Asked(QueryReady, r.ready.notOpened) else [];
    if ask && r.ready.err != 0 then Result(heard, asked, Quit)
    else
      var taken := if ask && r.ready.value.Some?
                   then heard.(states := heard.states.(ready := r.ready.value.value)) else heard;
      var now := Indicate(taken, r.indicated(1));
      Result(now, asked + [ReadReady(now.states.ready)],
             if now.states.ready == Initialized then GoOn else EndRound(Day))
  }

  predicate Registered(x: Register) { x == Home || x == Roaming }

  function RegisterGate(m: Machine, r: Round): Result {
    var before := Indicate(m, r.indicated(2));
    var ask := !Registered(before.states.register);
    var heard := if ask then Hear(before, r.register.notOpened) else before;
    var asked := if ask then Asked(QueryRegister, r.register.notOpened) else [];
    if ask && r.register.err != 0 then Result(heard, asked, Quit)
    else
      var taken := if ask && r.register.value.Some?
                   then heard.(states := heard.states.(register := r.register.value.value)) else heard;
      var now := Indicate(taken, r.indicated(3));
      Result(now, asked + [ReadRegister(now.states.register)],
             if Registered(now.states.register) then GoOn else EndRound(Day))
  }

  /** Asks for the packet service unless attached, and attaches if the answer is that it is detached. */
  function PacketGate(m: Machine, r: Round): Result {
    var before := Indicate(m, r.indicated(4));
    if before.states.packet == Attached then ReadPacketNow(before, r, [])
    else
      var heard, asked := Hear(before, r.packet.notOpened), Asked(QueryPacket, r.packet.notOpened);
      if r.packet.err != 0 then Result(heard, asked, Quit)
      else
        var taken := if r.packet.value.Some?
                     then heard.(states := heard.states.(packet := r.packet.value.value)) else heard;
        AttachIfDetached(Indicate(taken, r.indicated(5)), r, asked)
  }

  function AttachIfDetached(m: Machine, r: Round, acts: seq<Act>): Result {
    if m.states.packet != Detached then ReadPacketNow(m, r, acts)
    else
      var heard, asked := Hear(m, r.attach.notOpened), acts + Asked(Attach, r.attach.notOpened);
      if r.attach.err != 0 then Result(heard, asked, Quit)
      else
        var taken := if r.attach.value.Some?
                     then heard.(states := heard.states.(packet := r.attach.value.value)) else heard;
        ReadPacketNow(taken, r, asked)
  }

  function ReadPacketNow(m: Machine, r: Round, acts: seq<Act>): Result {
    var now := Indicate(m, r.indicated(6));
    Result(now, acts + [ReadPacket(now.states.packet)], if now.states.packet == Attached then GoOn else EndRound(Day))
  }

  function ActivationGate(m: Machine, r: Round): Result {
    var before := Indicate(m, r.indicated(7));
    var ask := before.states.activation == UnknownActivation;
    var heard := if ask then Hear(before, r.connect.notOpened) else before;
    var asked := if ask then Asked(QueryConnect, r.connect.notOpened) else [];
    if ask && r.connect.err != 0 then Result(heard, asked, Quit)
    else
      var taken := if ask && r.connect.value.Some?
                   then heard.(states := heard.states.(activation := r.connect.value.value)) else heard;
      var now := Indicate(taken, r.indicated(8));
      Result(now, asked + [ReadActivation(now.states.activation)],
             if Idle(now.states.activation) then GoOn else EndRound(Day))
  }

  function Connecting(m: Machine, r: Round): Result {
    var heard, asked := Hear(m, r.activate.notOpened), Asked(Activate, r.activate.notOpened);
    if r.activate.err != 0 then Result(heard, asked, Quit)
    else
      var taken := if r.activate.value.Some?
                   then heard.(states := heard.states.(activation := r.activate.value.value)) else heard;
      var now := Indicate(taken, r.indicated(9));
      if now.states.activation != Activated then Result(now, asked, EndRound(30))
      else Result(Hear(now, r.ip.notOpened), asked + Asked(QueryIp, r.ip.notOpened),
                  if r.ip.err != 0 then Quit else EndRound(Day))
  }

  function After(a: Result, b: Result): Result { Result(b.m, a.acts + b.acts, b.next) }

  /** The next stage, unless the one before ended the round. */
  function Then(a: Result, b: Result): Result { if a.next == GoOn then After(a, b) else a }

  function UpToReady(m: Machine, r: Round): Result {
    var a := OpenGate(m, r);
    Then(a, ReadyGate(a.m, r))
  }

  function UpToRegister(m: Machine, r: Round): Result {
    var a := UpToReady(m, r);
    Then(a, RegisterGate(a.m, r))
  }

  function UpToPacket(m: Machine, r: Round): Result {
    var a := UpToRegister(m, r);
    Then(a, PacketGate(a.m, r))
  }

  /** The stages up to the decision to activate. */
  function Gates(m: Machine, r: Round): Result {
    var a := UpToPacket(m, r);
    Then(a, ActivationGate(a.m, r))
  }

  function OneRound(m: Machine, r: Round): Result {
    var a := Gates(m, r);
    Then(a, Connecting(a.m, r))
  }

  /** Rounds until one of them quits. */
  function Rounds(m: Machine, rounds: seq<Round>): Result {
    if rounds == [] then Result(m, [], EndRound(Day))
    else
      var before := Rounds(m, rounds[..|rounds| - 1]);
      if before.next == Quit then before else After(before, OneRound(before.m, rounds[|rounds| - 1]))
  }

  function Leaving(m: Machine, readerAlive: bool): seq<Act> {
    if !readerAlive then []
    else (if Idle(m.states.activation) then [] else [Sent(Deactivate)]) + [Sent(CloseDevice)]
  }

  lemma {:induction false} QuitStays(m: Machine, rounds: seq<Round>, n: nat)
    requires n <= |rounds| && (n == |rounds| || Rounds(m, rounds[..n]).next == Quit)
    ensures Rounds(m, rounds) == Rounds(m, rounds[..n])
    decreases |rounds|
  {
    if n < |rounds| {
      var front := rounds[..|rounds| - 1];
      assert front[..n] == rounds[..n];
      if n == |front| {
        assert front == rounds[..n];
      }
      QuitStays(m, front, n);
    } else {
      assert rounds[..n] == rounds;
    }
  }
}
