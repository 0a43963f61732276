/** Which commands a round of the MBIM manager sends, what its gates read, and how it ends. */
module MbimSends {
  import opened Wrappers
  import opened MbimRounds

  /** What was indicated last, or else answered, or else known before. */
  function Newest<T>(indicated: Option<T>, answered: Option<T>, known: T): T {
    if indicated.Some? then indicated.value else if answered.Some? then answered.value else known
  }

  function ReadyIn(s: Option<States>): Option<Ready> { if s.Some? then Some(s.value.ready) else None }

  function RegisterIn(s: Option<States>): Option<Register> { if s.Some? then Some(s.value.register) else None }

  function PacketIn(s: Option<States>): Option<Packet> { if s.Some? then Some(s.value.packet) else None }

  function ActivationIn(s: Option<States>): Option<Activation> { if s.Some? then Some(s.value.activation) else None }

  /** The device is open for the gates that follow: it was, or was opened and told its capabilities. */
  predicate Opens(m: Machine, r: Round) { m.open || (r.open == 0 && r.caps.err == 0) }

  /** What has been indicated by point `k`, or what was known when the gates began; not what was answered. */
  function Told(m: Machine, r: Round, k: nat): States {
    if r.indicated(k).Some? && (k == 5 ==> Told(m, r, 4).packet != Attached) then r.indicated(k).value
    else if k > 0 then Told(m, r, k - 1)
    else Began(m)
  }

  /** Opening the device forgets all states. */
  function Began(m: Machine): States {
    if m.open then m.states else States(NotInitialized, UnknownRegister, UnknownPacket, UnknownActivation)
  }

  /** The packet service as the query for it left it. */
  function PacketHeld(r: Round, known: Packet): Packet {
    if known == Attached then Attached else Newest(PacketIn(r.indicated(5)), r.packet.value, known)
  }

  predicate Failed(r: Round, c: Command) {
    match c
    case OpenDevice => r.open != 0
    case QueryCaps => r.caps.err != 0
    case QueryReady => r.ready.err != 0
    case QueryRegister => r.register.err != 0
    case QueryPacket => r.packet.err != 0
    case Attach => r.attach.err != 0
    case QueryConnect => r.connect.err != 0
    case Activate => r.activate.err != 0
    case QueryIp => r.ip.err != 0
    case _ => false
  }

  /** Not sent, or sent and answered without an error. */
  predicate Unhindered(acts: seq<Act>, r: Round, c: Command) { Sent(c) in acts ==> !Failed(r, c) }

  // ---- Stage by stage ------------------------------------------------------------------------------

  /** The stage sends these commands, and quits exactly when one of them failed. */
  ghost predicate Sends(s: Result, r: Round, commands: set<Command>) {
    && (forall c :: Sent(c) in s.acts <==> c in commands)
    && (s.next == Quit <==> exists c :: c in commands && Failed(r, c))
  }

  /** Its own readings apart, the stage reads nothing; and it does not end the round soon. */
  predicate NoReading(a: Act) { !a.ReadReady? && !a.ReadRegister? && !a.ReadPacket? && !a.ReadActivation? }

  predicate Waits(s: Result) { s.next == GoOn || s.next == Quit || s.next == EndRound(Day) }

  ghost predicate OpenStage(s: Result, m: Machine, r: Round) {
    && Sends(s, r, if m.open then {} else if r.open != 0 then {OpenDevice} else {OpenDevice, QueryCaps})
    && (forall a :: a in s.acts ==> NoReading(a)) && Waits(s) && (s.next == GoOn <==> Opens(m, r))
  }

  ghost predicate ReadyStage(s: Result, r: Round, known: Ready) {
    && Sends(s, r, if known != Initialized then {QueryReady} else {})
    && (forall x :: ReadReady(x) in s.acts <==> (Unhindered(s.acts, r, QueryReady) &&
          x == Newest(ReadyIn(r.indicated(1)), if known != Initialized then r.ready.value else None, known)))
    && (forall a :: a in s.acts ==> a.ReadReady? || NoReading(a)) && Waits(s)
    && (s.next == GoOn <==> ReadReady(Initialized) in s.acts)
  }

  ghost predicate RegisterStage(s: Result, r: Round, known: Register) {
    var ask := known != Home && known != Roaming;
    && Sends(s, r, if ask then {QueryRegister} else {})
    && (forall x :: ReadRegister(x) in s.acts <==> (Unhindered(s.acts, r, QueryRegister) &&
          x == Newest(RegisterIn(r.indicated(3)), if ask then r.register.value else None, known)))
    && (forall a :: a in s.acts ==> a.ReadRegister? || NoReading(a)) && Waits(s)
    && (s.next == GoOn <==> ReadRegister(Home) in s.acts || ReadRegister(Roaming) in s.acts)
  }

  predicate Attaches(r: Round, known: Packet) {
    known != Attached && r.packet.err == 0 && PacketHeld(r, known) == Detached
  }

  ghost predicate PacketStage(s: Result, r: Round, known: Packet) {
    && Sends(s, r, (if known != Attached then {QueryPacket} else {}) + if Attaches(r, known) then {Attach} else {})
    && (forall x :: ReadPacket(x) in s.acts <==>
          (Unhindered(s.acts, r, QueryPacket) && Unhindered(s.acts, r, Attach) && x == Newest(
              PacketIn(r.indicated(6)), if Attaches(r, known) then r.attach.value else None, PacketHeld(r, known))))
    && (forall a :: a in s.acts ==> a.ReadPacket? || NoReading(a)) && Waits(s)
    && (s.next == GoOn <==> ReadPacket(Attached) in s.acts)
  }

  ghost predicate ActivationStage(s: Result, r: Round, known: Activation) {
    var ask := known == UnknownActivation;
    && Sends(s, r, if ask then {QueryConnect} else {})
    && (forall x :: ReadActivation(x) in s.acts <==> (Unhindered(s.acts, r, QueryConnect) &&
          x == Newest(ActivationIn(r.indicated(8)), if ask then r.connect.value else None, known)))
    && (forall a :: a in s.acts ==> a.ReadActivation? || NoReading(a)) && Waits(s)
    && (s.next == GoOn <==> ReadActivation(UnknownActivation) in s.acts || ReadActivation(OtherActivation) in s.acts)
  }

  /** The device is told to be active after the activate command. */
  predicate NowActive(r: Round) {
    Newest(ActivationIn(r.indicated(9)), r.activate.value, OtherActivation) == Activated
  }

  ghost predicate ConnectStage(s: Result, r: Round) {
    && Sends(s, r, {Activate} + if r.activate.err == 0 && NowActive(r) then {QueryIp} else {})
    && (forall a :: a in s.acts ==> NoReading(a)) && s.next != GoOn
    && (s.next == EndRound(30) <==> r.activate.err == 0 && !NowActive(r)) && (Waits(s) || s.next == EndRound(30))
  }

  lemma OpenSends(m: Machine, r: Round)
    ensures OpenStage(OpenGate(m, r), m, r)
    ensures Opens(m, r) ==> OpenGate(m, r).m.states == Began(m)
  {
    var s := OpenGate(m, r);
    if !m.open {
      assert Sent(OpenDevice) in s.acts && (r.open == 0 ==> Sent(QueryCaps) in s.acts);
    }
  }

  lemma ReadySends(m: Machine, r: Round)
    ensures ReadyStage(ReadyGate(m, r), r, Newest(ReadyIn(r.indicated(0)), None, m.states.ready))
  {
    var known := Newest(ReadyIn(r.indicated(0)), None, m.states.ready);
    var asked := if known != Initialized then Asked(QueryReady, r.ready.notOpened) else [];
    var s := ReadyGate(m, r);
    AskedSends(QueryReady, r.ready.notOpened);
    assert s.acts == asked || s.acts == asked + [ReadReady(s.m.states.ready)];
  }

  lemma RegisterSends(m: Machine, r: Round)
    ensures RegisterStage(RegisterGate(m, r), r, Newest(RegisterIn(r.indicated(2)), None, m.states.register))
  {
    var known := Newest(RegisterIn(r.indicated(2)), None, m.states.register);
    var asked := if !Registered(known) then Asked(QueryRegister, r.register.notOpened) else [];
    var s := RegisterGate(m, r);
    AskedSends(QueryRegister, r.register.notOpened);
    assert s.acts == asked || s.acts == asked + [ReadRegister(s.m.states.register)];
  }

  lemma ActivationSends(m: Machine, r: Round)
    ensures ActivationStage(ActivationGate(m, r), r, Newest(ActivationIn(r.indicated(7)), None, m.states.activation))
    ensures ActivationGate(m, r).next == GoOn ==> ActivationGate(m, r).m.states.activation != Activated
  {
    var known := Newest(ActivationIn(r.indicated(7)), None, m.states.activation);
    var asked := if known == UnknownActivation then Asked(QueryConnect, r.connect.notOpened) else [];
    var s := ActivationGate(m, r);
    AskedSends(QueryConnect, r.connect.notOpened);
    assert s.acts == asked || s.acts == asked + [ReadActivation(s.m.states.activation)];
  }

  lemma ConnectingSends(m: Machine, r: Round)
    requires m.states.activation != Activated
    ensures ConnectStage(Connecting(m, r), r)
  {
    assert Connecting(m, r).acts[0] == Sent(Activate);
  }

  /** The last reading of the packet service, after the commands `cs` were sent. */
  lemma ReadNowSends(m: Machine, r: Round, acts: seq<Act>, cs: set<Command>)
    requires (forall c :: Sent(c) in acts <==> c in cs) && (forall a :: a in acts ==> NoReading(a))
    ensures var s := ReadPacketNow(m, r, acts);
            && (forall c :: Sent(c) in s.acts <==> c in cs) && Waits(s) && s.next != Quit
            && (forall x :: ReadPacket(x) in s.acts <==> x == Newest(PacketIn(r.indicated(6)), None, m.states.packet))
            && (forall a :: a in s.acts ==> a.ReadPacket? || NoReading(a))
            && (s.next == GoOn <==> ReadPacket(Attached) in s.acts)
  {
  }

  lemma AskedSends(c: Command, notOpened: bool)
    ensures forall d :: Sent(d) in Asked(c, notOpened) <==> d == c
    ensures forall a :: a in Asked(c, notOpened) ==> NoReading(a)
  {
    assert Asked(c, notOpened)[0] == Sent(c);
  }

  lemma AttachSends(m: Machine, r: Round, acts: seq<Act>)
    requires (forall c :: Sent(c) in acts <==> c == QueryPacket) && (forall a :: a in acts ==> NoReading(a))
    requires r.packet.err == 0
    ensures var s, attach := AttachIfDetached(m, r, acts), m.states.packet == Detached;
            && Sends(s, r, if attach then {QueryPacket, Attach} else {QueryPacket})
            && (forall x :: ReadPacket(x) in s.acts <==> (Unhindered(s.acts, r, Attach) && x ==
                  Newest(PacketIn(r.indicated(6)), if attach then r.attach.value else None, m.states.packet)))
            && (forall a :: a in s.acts ==> a.ReadPacket? || NoReading(a)) && Waits(s)
            && (s.next == GoOn <==> ReadPacket(Attached) in s.acts)
  {
    AskedSends(Attach, r.attach.notOpened);
    if m.states.packet == Detached {
      var heard := Hear(m, r.attach.notOpened);
      var taken := if r.attach.value.Some?
                   then heard.(states := heard.states.(packet := r.attach.value.value)) else heard;
      ReadNowSends(taken, r, acts + Asked(Attach, r.attach.notOpened), {QueryPacket, Attach});
    } else {
      ReadNowSends(m, r, acts, {QueryPacket});
    }
  }

  lemma PacketSends(m: Machine, r: Round)
    ensures PacketStage(PacketGate(m, r), r, Newest(PacketIn(r.indicated(4)), None, m.states.packet))
  {
    var before := Indicate(m, r.indicated(4));
    AskedSends(QueryPacket, r.packet.notOpened);
    if before.states.packet == Attached {
      ReadNowSends(before, r, [], {});
    } else if r.packet.err == 0 {
      var heard := Hear(before, r.packet.notOpened);
      var taken := if r.packet.value.Some?
                   then heard.(states := heard.states.(packet := r.packet.value.value)) else heard;
      AttachSends(Indicate(taken, r.indicated(5)), r, Asked(QueryPacket, r.packet.notOpened));
    }
  }

  // ---- The round as a chain of stages ---------------------------------------------------------------

  datatype Stages = Stages(open: Result, ready: Result, register: Result, packet: Result, activation: Result,
                           connect: Result)

  function InTurn(s: Stages): Result {
    Then(Then(Then(Then(Then(s.open, s.ready), s.register), s.packet), s.activation), s.connect)
  }

  /** How many of the stages come to pass. */
  function Reached(s: Stages): nat {
    if s.open.next != GoOn then 1
    else if s.ready.next != GoOn then 2
    else if s.register.next != GoOn then 3
    else if s.packet.next != GoOn then 4
    else if s.activation.next != GoOn then 5
    else 6
  }

  function Last(s: Stages): Result {
    match Reached(s)
    case 1 => s.open
    case 2 => s.ready
    case 3 => s.register
    case 4 => s.packet
    case 5 => s.activation
    case _ => s.connect
  }

  /** An act is done by one of the stages that come to pass. */
  predicate DoneIn(s: Stages, a: Act) {
    || a in s.open.acts
    || (Reached(s) > 1 && a in s.ready.acts) || (Reached(s) > 2 && a in s.register.acts)
    || (Reached(s) > 3 && a in s.packet.acts) || (Reached(s) > 4 && a in s.activation.acts)
    || (Reached(s) > 5 && a in s.connect.acts)
  }

  ghost predicate Chained(whole: Result, s: Stages) {
    whole.next == Last(s).next && forall a :: a in whole.acts <==> DoneIn(s, a)
  }

  lemma InTurnIsChained(s: Stages)
    ensures Chained(InTurn(s), s)
  {
  }

  function StagesOf(m: Machine, r: Round): Stages {
    var a := OpenGate(m, r);
    Stages(a, ReadyGate(a.m, r), RegisterGate(UpToReady(m, r).m, r), PacketGate(UpToRegister(m, r).m, r),
           ActivationGate(UpToPacket(m, r).m, r), Connecting(Gates(m, r).m, r))
  }

  /** Each stage that comes to pass does what it does from what was told before it. */
  ghost predicate Staged(s: Stages, m: Machine, r: Round) {
    && OpenStage(s.open, m, r)
    && (Reached(s) > 1 ==> ReadyStage(s.ready, r, Told(m, r, 0).ready))
    && (Reached(s) > 2 ==> RegisterStage(s.register, r, Told(m, r, 2).register))
    && (Reached(s) > 3 ==> PacketStage(s.packet, r, Told(m, r, 4).packet))
    && (Reached(s) > 4 ==> ActivationStage(s.activation, r, Told(m, r, 7).activation))
    && (Reached(s) > 5 ==> ConnectStage(s.connect, r))
  }

  lemma ReadyTells(x: Machine, m: Machine, r: Round)
    requires x.states == Began(m) && ReadyGate(x, r).next == GoOn
    ensures Newest(ReadyIn(r.indicated(0)), None, x.states.ready) == Told(m, r, 0).ready
    ensures var now, told := ReadyGate(x, r).m.states, Told(m, r, 1);
            now.register == told.register && now.packet == told.packet && now.activation == told.activation
  {
    assert Told(m, r, 0) == if r.indicated(0).Some? then r.indicated(0).value else x.states;
  }

  lemma RegisterTells(x: Machine, m: Machine, r: Round)
    requires var told := Told(m, r, 1);
             x.states.register == told.register && x.states.packet == told.packet &&
                 x.states.activation == told.activation
    ensures Newest(RegisterIn(r.indicated(2)), None, x.states.register) == Told(m, r, 2).register
    ensures var s, told := RegisterGate(x, r), Told(m, r, 3);
            s.next == GoOn ==> s.m.states.packet == told.packet && s.m.states.activation == told.activation
  {
    assert Told(m, r, 2) == if r.indicated(2).Some? then r.indicated(2).value else Told(m, r, 1);
  }

  lemma PacketTells(x: Machine, m: Machine, r: Round)
    requires x.states.packet == Told(m, r, 3).packet && x.states.activation == Told(m, r, 3).activation
    ensures Newest(PacketIn(r.indicated(4)), None, x.states.packet) == Told(m, r, 4).packet
    ensures PacketGate(x, r).next == GoOn ==> PacketGate(x, r).m.states.activation == Told(m, r, 6).activation
  {
    assert Told(m, r, 4) == if r.indicated(4).Some? then r.indicated(4).value else Told(m, r, 3);
    assert Told(m, r, 5) == if r.indicated(5).Some? && Told(m, r, 4).packet != Attached then r.indicated(5).value
        else Told(m, r, 4);
    assert Told(m, r, 6) == if r.indicated(6).Some? then r.indicated(6).value else Told(m, r, 5);
  }

  lemma ActivationTells(x: Machine, m: Machine, r: Round)
    requires x.states.activation == Told(m, r, 6).activation
    ensures Newest(ActivationIn(r.indicated(7)), None, x.states.activation) == Told(m, r, 7).activation
  {
  }

  lemma ReadyPart(x: Machine, m: Machine, r: Round)
    requires x.states == Began(m)
    ensures ReadyStage(ReadyGate(x, r), r, Told(m, r, 0).ready)
  {
    ReadySends(x, r);
    assert Told(m, r, 0) == if r.indicated(0).Some? then r.indicated(0).value else x.states;
  }

  lemma RegisterPart(x: Machine, m: Machine, r: Round)
    requires x == ReadyGate(OpenGate(m, r).m, r).m && OpenGate(m, r).m.states == Began(m)
    requires ReadyGate(OpenGate(m, r).m, r).next == GoOn
    ensures var s, told := RegisterGate(x, r), Told(m, r, 3);
            RegisterStage(s, r, Told(m, r, 2).register) && (s.next == GoOn ==>
                s.m.states.packet == told.packet && s.m.states.activation == told.activation)
  {
    ReadyTells(OpenGate(m, r).m, m, r);
    RegisterTells(x, m, r);
    RegisterSends(x, r);
  }

  lemma PacketPart(x: Machine, m: Machine, r: Round)
    requires x.states.packet == Told(m, r, 3).packet && x.states.activation == Told(m, r, 3).activation
    ensures PacketStage(PacketGate(x, r), r, Told(m, r, 4).packet)
  {
    PacketTells(x, m, r);
    PacketSends(x, r);
  }

  lemma ActivationPart(x: Machine, m: Machine, r: Round)
    requires x.states.packet == Told(m, r, 3).packet && x.states.activation == Told(m, r, 3).activation
    requires PacketGate(x, r).next == GoOn
    ensures var s := ActivationGate(PacketGate(x, r).m, r);
            ActivationStage(s, r, Told(m, r, 7).activation) && (s.next == GoOn ==> ConnectStage(Connecting(s.m, r), r))
  {
    PacketTells(x, m, r);
    var y := PacketGate(x, r).m;
    ActivationTells(y, m, r);
    ActivationSends(y, r);
    if ActivationGate(y, r).next == GoOn {
      ConnectingSends(ActivationGate(y, r).m, r);
    }
  }

  lemma StagesAreStaged(m: Machine, r: Round)
    ensures Staged(StagesOf(m, r), m, r)
  {
    var s := StagesOf(m, r);
    OpenSends(m, r);
    if Reached(s) > 1 {
      ReadyPart(s.open.m, m, r);
    }
    if Reached(s) > 2 {
      RegisterPart(s.ready.m, m, r);
    }
    if Reached(s) > 3 {
      PacketPart(s.register.m, m, r);
    }
    if Reached(s) > 4 {
      ActivationPart(s.register.m, m, r);
    }
  }

  lemma RoundIsStaged(m: Machine, r: Round) returns (s: Stages)
    ensures Chained(OneRound(m, r), s) && Staged(s, m, r)
  {
    s := StagesOf(m, r);
    StagesAreStaged(m, r);
    InTurnIsChained(s);
    assert OneRound(m, r) == InTurn(s);
  }

  // ---- Main results -----------------------------------------------------------------------------------

  /** When a command is sent, from what was read before it, what was told, and what was answered. */
  ghost predicate Due(acts: seq<Act>, m: Machine, r: Round, c: Command) {
    match c
    case OpenDevice => !m.open
    case QueryCaps => !m.open && r.open == 0
    case QueryReady => Opens(m, r) && Told(m, r, 0).ready != Initialized
    case QueryRegister =>
      ReadReady(Initialized) in acts && Told(m, r, 2).register != Home && Told(m, r, 2).register != Roaming
    case QueryPacket =>
      (ReadRegister(Home) in acts || ReadRegister(Roaming) in acts) && Told(m, r, 4).packet != Attached
    case Attach =>
      Sent(QueryPacket) in acts && r.packet.err == 0 &&
      Newest(PacketIn(r.indicated(5)), r.packet.value, Told(m, r, 4).packet) == Detached
    case QueryConnect => ReadPacket(Attached) in acts && Told(m, r, 7).activation == UnknownActivation
    case Activate => ReadActivation(UnknownActivation) in acts || ReadActivation(OtherActivation) in acts
    case QueryIp => Sent(Activate) in acts && r.activate.err == 0 && NowActive(r)
    case _ => false
  }

  /** A round sends exactly the commands that are due. */
  lemma RoundSends(m: Machine, r: Round, c: Command)
    ensures Sent(c) in OneRound(m, r).acts <==> Due(OneRound(m, r).acts, m, r, c)
  {
    var s := RoundIsStaged(m, r);
    StagedSends(OneRound(m, r), s, m, r, c);
  }

  lemma StagedSends(whole: Result, s: Stages, m: Machine, r: Round, c: Command)
    requires Chained(whole, s) && Staged(s, m, r)
    ensures Sent(c) in whole.acts <==> Due(whole.acts, m, r, c)
  {
    match c
    case QueryRegister => PassesReady(whole, s, m, r);
    case QueryPacket => PacketCommands(whole, s, m, r);
    case Attach => PacketCommands(whole, s, m, r);
    case QueryConnect => PassesPacket(whole, s, m, r);
    case Activate => PassesActivation(whole, s, m, r);
    case QueryIp => ConnectCommands(whole, s, m, r);
    case _ =>
      FirstCommands(whole, s, m, r);
      NeverSent(whole, s, m, r);
  }

  lemma FirstCommands(whole: Result, s: Stages, m: Machine, r: Round)
    requires Chained(whole, s) && Staged(s, m, r)
    ensures Sent(OpenDevice) in whole.acts <==> !m.open
    ensures Sent(QueryCaps) in whole.acts <==> !m.open && r.open == 0
    ensures Sent(QueryReady) in whole.acts <==> Opens(m, r) && Told(m, r, 0).ready != Initialized
  {
  }

  lemma NeverSent(whole: Result, s: Stages, m: Machine, r: Round)
    requires Chained(whole, s) && Staged(s, m, r)
    ensures Sent(Deactivate) !in whole.acts && Sent(CloseDevice) !in whole.acts
  {
  }

  lemma PacketCommands(whole: Result, s: Stages, m: Machine, r: Round)
    requires Chained(whole, s) && Staged(s, m, r)
    ensures Sent(QueryPacket) in whole.acts <==>
            (ReadRegister(Home) in whole.acts || ReadRegister(Roaming) in whole.acts) &&
            Told(m, r, 4).packet != Attached
    ensures Sent(Attach) in whole.acts <==> Sent(QueryPacket) in whole.acts && Attaches(r, Told(m, r, 4).packet)
  {
    PassesRegister(whole, s, m, r);
  }

  lemma ConnectCommands(whole: Result, s: Stages, m: Machine, r: Round)
    requires Chained(whole, s) && Staged(s, m, r)
    ensures Sent(Activate) in whole.acts <==> Reached(s) > 5
    ensures Sent(QueryIp) in whole.acts <==> Sent(Activate) in whole.acts && r.activate.err == 0 && NowActive(r)
  {
  }

  lemma PassesReady(whole: Result, s: Stages, m: Machine, r: Round)
    requires Chained(whole, s) && Staged(s, m, r)
    ensures ReadReady(Initialized) in whole.acts <==> Reached(s) > 2
  {
  }

  lemma PassesPacket(whole: Result, s: Stages, m: Machine, r: Round)
    requires Chained(whole, s) && Staged(s, m, r)
    ensures ReadPacket(Attached) in whole.acts <==> Reached(s) > 4
  {
  }

  lemma PassesRegister(whole: Result, s: Stages, m: Machine, r: Round)
    requires Chained(whole, s) && Staged(s, m, r)
    ensures ReadRegister(Home) in whole.acts || ReadRegister(Roaming) in whole.acts <==> Reached(s) > 3
  {
  }

  lemma PassesActivation(whole: Result, s: Stages, m: Machine, r: Round)
    requires Chained(whole, s) && Staged(s, m, r)
    ensures ReadActivation(UnknownActivation) in whole.acts || ReadActivation(OtherActivation) in whole.acts <==>
            Reached(s) > 5
  {
  }

  /** What the gates read: the newest word, if the gate is come to and no query of its own failed. */
  lemma RoundReads(m: Machine, r: Round, acts: seq<Act>)
    requires acts == OneRound(m, r).acts
    ensures forall x :: ReadReady(x) in acts <==> (Opens(m, r) && Unhindered(acts, r, QueryReady) && x == Newest(
              ReadyIn(r.indicated(1)), if Sent(QueryReady) in acts then r.ready.value else None, Told(m, r, 0).ready))
    ensures forall x :: ReadRegister(x) in acts <==>
              (ReadReady(Initialized) in acts && Unhindered(acts, r, QueryRegister) && x == Newest(
              RegisterIn(r.indicated(3)), if Sent(QueryRegister) in acts then r.register.value else None,
              Told(m, r, 2).register))
    ensures forall x :: ReadPacket(x) in acts <==>
              ((ReadRegister(Home) in acts || ReadRegister(Roaming) in acts) && Unhindered(acts, r, QueryPacket) &&
              Unhindered(acts, r, Attach) && x == Newest(
              PacketIn(r.indicated(6)), if Sent(Attach) in acts then r.attach.value else None,
              PacketHeld(r, Told(m, r, 4).packet)))
    ensures forall x :: ReadActivation(x) in acts <==>
              (ReadPacket(Attached) in acts && Unhindered(acts, r, QueryConnect) && x == Newest(
              ActivationIn(r.indicated(8)), if Sent(QueryConnect) in acts then r.connect.value else None,
              Told(m, r, 7).activation))
  {
    var s := RoundIsStaged(m, r);
    var whole := OneRound(m, r);
    StagedReadsReady(whole, s, m, r);
    StagedReadsRegister(whole, s, m, r);
    StagedReadsPacket(whole, s, m, r);
    StagedReadsActivation(whole, s, m, r);
  }

  lemma StagedReadsReady(whole: Result, s: Stages, m: Machine, r: Round)
    requires Chained(whole, s) && Staged(s, m, r)
    ensures var acts := whole.acts;
            forall x :: ReadReady(x) in acts <==> (Opens(m, r) && Unhindered(acts, r, QueryReady) && x == Newest(
              ReadyIn(r.indicated(1)), if Sent(QueryReady) in acts then r.ready.value else None, Told(m, r, 0).ready))
  {
    FirstCommands(whole, s, m, r);
  }

  lemma StagedReadsRegister(whole: Result, s: Stages, m: Machine, r: Round)
    requires Chained(whole, s) && Staged(s, m, r)
    ensures var acts := whole.acts;
            forall x :: ReadRegister(x) in acts <==>
              (ReadReady(Initialized) in acts && Unhindered(acts, r, QueryRegister) && x == Newest(
              RegisterIn(r.indicated(3)), if Sent(QueryRegister) in acts then r.register.value else None,
              Told(m, r, 2).register))
  {
    PassesReady(whole, s, m, r);
    assert Sent(QueryRegister) in whole.acts <==> Reached(s) > 2 && Sent(QueryRegister) in s.register.acts;
  }

  lemma StagedReadsPacket(whole: Result, s: Stages, m: Machine, r: Round)
    requires Chained(whole, s) && Staged(s, m, r)
    ensures var acts := whole.acts;
            forall x :: ReadPacket(x) in acts <==>
              ((ReadRegister(Home) in acts || ReadRegister(Roaming) in acts) && Unhindered(acts, r, QueryPacket) &&
              Unhindered(acts, r, Attach) && x == Newest(
              PacketIn(r.indicated(6)), if Sent(Attach) in acts then r.attach.value else None,
              PacketHeld(r, Told(m, r, 4).packet)))
  {
    PassesRegister(whole, s, m, r);
    PacketCommands(whole, s, m, r);
  }

  lemma StagedReadsActivation(whole: Result, s: Stages, m: Machine, r: Round)
    requires Chained(whole, s) && Staged(s, m, r)
    ensures var acts := whole.acts;
            forall x :: ReadActivation(x) in acts <==>
              (ReadPacket(Attached) in acts && Unhindered(acts, r, QueryConnect) && x == Newest(
              ActivationIn(r.indicated(8)), if Sent(QueryConnect) in acts then r.connect.value else None,
              Told(m, r, 7).activation))
  {
    PassesPacket(whole, s, m, r);
    assert Sent(QueryConnect) in whole.acts <==> Reached(s) > 4 && Sent(QueryConnect) in s.activation.acts;
  }

  /** A detached device that answers the attach command passes, unless something else is indicated at once. */
  lemma AttachedPasses(m: Machine, r: Round)
    requires Sent(Attach) in OneRound(m, r).acts && r.attach.err == 0 && r.attach.value == Some(Attached)
    requires r.indicated(6) == None || r.indicated(6).value.packet == Attached
    ensures ReadPacket(Attached) in OneRound(m, r).acts
  {
    var s := RoundIsStaged(m, r);
    StagedAttaches(OneRound(m, r), s, m, r);
  }

  lemma StagedAttaches(whole: Result, s: Stages, m: Machine, r: Round)
    requires Chained(whole, s) && Staged(s, m, r)
    requires Sent(Attach) in whole.acts && r.attach.err == 0 && r.attach.value == Some(Attached)
    requires r.indicated(6) == None || r.indicated(6).value.packet == Attached
    ensures ReadPacket(Attached) in whole.acts
  {
    PacketCommands(whole, s, m, r);
    StagedReadsPacket(whole, s, m, r);
  }

  /**
   * The program quits after a round exactly if a command sent in it failed; the next round comes in 30
   * seconds exactly if the activate command was answered but did not make the connection active; and
   * otherwise in a day, or with the next indication.
   */
  lemma RoundEnds(m: Machine, r: Round)
    ensures var w := OneRound(m, r);
            && (w.next == Quit <==> exists c :: Sent(c) in w.acts && Failed(r, c))
            && (w.next == EndRound(30) <==> Sent(Activate) in w.acts && r.activate.err == 0 && !NowActive(r))
            && (w.next == Quit || w.next == EndRound(30) || w.next == EndRound(24 * 60 * 60))
  {
    var s := RoundIsStaged(m, r);
    StagedEnds(OneRound(m, r), s, m, r);
  }

  lemma StagedEnds(whole: Result, s: Stages, m: Machine, r: Round)
    requires Chained(whole, s) && Staged(s, m, r)
    ensures whole.next == Quit <==> exists c :: Sent(c) in whole.acts && Failed(r, c)
    ensures whole.next == EndRound(30) <==> Sent(Activate) in whole.acts && r.activate.err == 0 && !NowActive(r)
    ensures whole.next == Quit || whole.next == EndRound(30) || whole.next == EndRound(Day)
  {
    ConnectCommands(whole, s, m, r);
    if whole.next == Quit {
      var c :| Sent(c) in Last(s).acts && Failed(r, c);
      assert DoneIn(s, Sent(c));
    }
    forall c | Sent(c) in whole.acts && Failed(r, c) ensures whole.next == Quit {
      assert DoneIn(s, Sent(c));
    }
  }

  /** On the way out a reader that still runs is told to deactivate what is active, and last to close. */
  lemma LeavingSends(m: Machine, readerAlive: bool)
    ensures var acts := Leaving(m, readerAlive);
            var active := m.states.activation == Activated || m.states.activation == Activating;
            && (acts == [] <==> !readerAlive)
            && (readerAlive ==> acts[|acts| - 1] == Sent(CloseDevice))
            && (Sent(Deactivate) in acts <==> readerAlive && active)
            && |acts| == (if readerAlive then 1 else 0) + if readerAlive && active then 1 else 0
  {
  }

  // ---- The order --------------------------------------------------------------------------------------

  /** The place of an act in a round. */
  function Rank(a: Act): nat {
    match a
    case RoundBegins => 0
    case ReadOpen(_) => 1
    case Opened => 3
    case NotOpened => 0
    case ReadReady(_) => 6
    case ReadRegister(_) => 8
    case ReadPacket(_) => 11
    case ReadActivation(_) => 13
    case Sent(c) => (
      match c
      case OpenDevice => 2
      case QueryCaps => 4
      case QueryReady => 5
      case QueryRegister => 7
      case QueryPacket => 9
      case Attach => 10
      case QueryConnect => 12
      case Activate => 14
      case QueryIp => 15
      case _ => 16)
  }

  /** Between `lo` and `hi`, each act at most once and in its place; a reply may be heard anywhere. */
  ghost predicate Ordered(acts: seq<Act>, lo: nat, hi: nat) {
    && (forall i :: 0 <= i < |acts| && acts[i] != NotOpened ==> lo <= Rank(acts[i]) < hi)
    && (forall i, j :: 0 <= i < j < |acts| && acts[i] != NotOpened && acts[j] != NotOpened ==>
          Rank(acts[i]) < Rank(acts[j]))
  }

  lemma OrderedConcat(a: seq<Act>, b: seq<Act>, lo: nat, mid: nat, hi: nat)
    requires Ordered(a, lo, mid) && Ordered(b, mid, hi) && lo <= mid <= hi
    ensures Ordered(a + b, lo, hi)
  {
  }

  lemma OrderedThen(a: Result, s: Result, lo: nat, mid: nat, hi: nat)
    requires Ordered(a.acts, lo, mid) && Ordered(s.acts, mid, hi) && lo <= mid <= hi
    ensures Ordered(Then(a, s).acts, lo, hi)
  {
    OrderedConcat(a.acts, s.acts, lo, mid, hi);
  }

  /** A command with its reply, or nothing; and then perhaps a reading. */
  lemma AskedOrdered(asked: seq<Act>, c: Command, notOpened: bool, a: Act, lo: nat, hi: nat)
    requires asked == Asked(c, notOpened) || asked == []
    requires a != NotOpened && lo <= Rank(Sent(c)) < Rank(a) < hi
    ensures Ordered(asked, lo, hi) && Ordered(asked, lo, Rank(a)) && Ordered(asked + [a], lo, hi)
  {
    assert Ordered([a], Rank(a), hi);
    OrderedConcat(asked, [a], lo, Rank(a), hi);
  }

  lemma OpenInOrder(m: Machine, r: Round)
    ensures Ordered(OpenGate(m, r).acts, 0, 5)
  {
    if !m.open && r.open == 0 {
      HeadInOrder();
      SentOrdered(QueryCaps, r.caps.notOpened);
      OrderedConcat([RoundBegins, ReadOpen(false), Sent(OpenDevice), Opened], Asked(QueryCaps, r.caps.notOpened), 0, 4,
          5);
    }
  }

  lemma HeadInOrder()
    ensures Ordered([RoundBegins, ReadOpen(false), Sent(OpenDevice), Opened], 0, 4)
  {
  }

  lemma SentOrdered(c: Command, notOpened: bool)
    ensures Ordered(Asked(c, notOpened), Rank(Sent(c)), Rank(Sent(c)) + 1)
  {
  }

  lemma ReadyInOrder(m: Machine, r: Round)
    ensures Ordered(ReadyGate(m, r).acts, 5, 7)
  {
    var ask := Indicate(m, r.indicated(0)).states.ready != Initialized;
    var asked := if ask then Asked(QueryReady, r.ready.notOpened) else [];
    AskedOrdered(asked, QueryReady, r.ready.notOpened, ReadReady(ReadyGate(m, r).m.states.ready), 5, 7);
  }

  lemma RegisterInOrder(m: Machine, r: Round)
    ensures Ordered(RegisterGate(m, r).acts, 7, 9)
  {
    var ask := !Registered(Indicate(m, r.indicated(2)).states.register);
    var asked := if ask then Asked(QueryRegister, r.register.notOpened) else [];
    AskedOrdered(asked, QueryRegister, r.register.notOpened, ReadRegister(RegisterGate(m, r).m.states.register), 7, 9);
  }

  lemma ActivationInOrder(m: Machine, r: Round)
    ensures Ordered(ActivationGate(m, r).acts, 12, 14)
  {
    var ask := Indicate(m, r.indicated(7)).states.activation == UnknownActivation;
    var asked := if ask then Asked(QueryConnect, r.connect.notOpened) else [];
    AskedOrdered(asked, QueryConnect, r.connect.notOpened, ReadActivation(ActivationGate(m, r).m.states.activation),
        12, 14);
  }

  lemma ConnectingInOrder(m: Machine, r: Round)
    ensures Ordered(Connecting(m, r).acts, 14, 16)
  {
    var first, second := Asked(Activate, r.activate.notOpened), Asked(QueryIp, r.ip.notOpened);
    SentOrdered(Activate, r.activate.notOpened);
    SentOrdered(QueryIp, r.ip.notOpened);
    OrderedConcat(first, second, 14, 15, 16);
  }

  lemma PacketInOrder(m: Machine, r: Round)
    ensures Ordered(PacketGate(m, r).acts, 9, 12)
  {
    var before := Indicate(m, r.indicated(4));
    var asked := Asked(QueryPacket, r.packet.notOpened);
    SentOrdered(QueryPacket, r.packet.notOpened);
    if before.states.packet == Attached {
      ReadNowInOrder(before, r, []);
    } else if r.packet.err == 0 {
      var heard := Hear(before, r.packet.notOpened);
      var taken := if r.packet.value.Some?
                   then heard.(states := heard.states.(packet := r.packet.value.value)) else heard;
      AttachInOrder(Indicate(taken, r.indicated(5)), r, asked);
    }
  }

  lemma ReadNowInOrder(m: Machine, r: Round, acts: seq<Act>)
    requires Ordered(acts, 9, 11)
    ensures Ordered(ReadPacketNow(m, r, acts).acts, 9, 12)
  {
    var a := ReadPacket(Indicate(m, r.indicated(6)).states.packet);
    assert Ordered([a], 11, 12);
    OrderedConcat(acts, [a], 9, 11, 12);
  }

  lemma AttachInOrder(m: Machine, r: Round, acts: seq<Act>)
    requires Ordered(acts, 9, 10)
    ensures Ordered(AttachIfDetached(m, r, acts).acts, 9, 12)
  {
    var asked := Asked(Attach, r.attach.notOpened);
    SentOrdered(Attach, r.attach.notOpened);
    OrderedConcat(acts, asked, 9, 10, 11);
    if m.states.packet != Detached {
      ReadNowInOrder(m, r, acts);
    } else if r.attach.err == 0 {
      var heard := Hear(m, r.attach.notOpened);
      var taken := if r.attach.value.Some?
                   then heard.(states := heard.states.(packet := r.attach.value.value)) else heard;
      ReadNowInOrder(taken, r, acts + asked);
    }
  }

  /** In a round every command is sent and every value read at most once, and in the order of the gates. */
  lemma RoundInOrder(m: Machine, r: Round, acts: seq<Act>)
    requires acts == OneRound(m, r).acts
    ensures forall i, j :: 0 <= i < j < |acts| && acts[i] != NotOpened && acts[j] != NotOpened ==>
              Rank(acts[i]) < Rank(acts[j])
  {
    var s := StagesOf(m, r);
    OpenInOrder(m, r);
    ReadyInOrder(s.open.m, r);
    RegisterInOrder(UpToReady(m, r).m, r);
    PacketInOrder(UpToRegister(m, r).m, r);
    ActivationInOrder(UpToPacket(m, r).m, r);
    ConnectingInOrder(Gates(m, r).m, r);
    InTurnInOrder(s);
    assert OneRound(m, r) == InTurn(s);
  }

  lemma InTurnInOrder(s: Stages)
    requires Ordered(s.open.acts, 0, 5) && Ordered(s.ready.acts, 5, 7) && Ordered(s.register.acts, 7, 9)
    requires Ordered(s.packet.acts, 9, 12) && Ordered(s.activation.acts, 12, 14) && Ordered(s.connect.acts, 14, 16)
    ensures Ordered(InTurn(s).acts, 0, 16)
  {
    var a := Then(s.open, s.ready);
    OrderedThen(s.open, s.ready, 0, 5, 7);
    var b := Then(a, s.register);
    OrderedThen(a, s.register, 0, 7, 9);
    var c := Then(b, s.packet);
    OrderedThen(b, s.packet, 0, 9, 12);
    var d := Then(c, s.activation);
    OrderedThen(c, s.activation, 0, 12, 14);
    OrderedThen(d, s.connect, 0, 14, 16);
  }
}
