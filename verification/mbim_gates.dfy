/** When a round of the MBIM manager activates, and what it knows of the device then. */
module MbimGates {
  import opened Wrappers
  import opened MbimRounds

  // ---- What licenses an activate command -----------------------------------------------------------

  datatype Gate = DeviceOpen | SimReady | InNetwork | PacketAttached | NotYetActive

  /** The act is a reading for the gate, or begins a new round. */
  predicate Concerns(a: Act, g: Gate) {
    a == RoundBegins ||
    match g
    case DeviceOpen => a.ReadOpen? || a == Opened
    case SimReady => a.ReadReady?
    case InNetwork => a.ReadRegister?
    case PacketAttached => a.ReadPacket?
    case NotYetActive => a.ReadActivation?
  }

  predicate Grants(a: Act, g: Gate) {
    match g
    case DeviceOpen => a == ReadOpen(true) || a == Opened
    case SimReady => a == ReadReady(Initialized)
    case InNetwork => a.ReadRegister? && Registered(a.register)
    case PacketAttached => a == ReadPacket(Attached)
    case NotYetActive => a.ReadActivation? && Idle(a.activation)
  }

  /** The last act that concerns the gate grants it. */
  predicate Seen(acts: seq<Act>, g: Gate) {
    acts != [] &&
    var last := acts[|acts| - 1];
    if Concerns(last, g) then Grants(last, g) else Seen(acts[..|acts| - 1], g)
  }

  /** Every activate command comes after all gates have been seen granted. */
  ghost predicate Guarded(acts: seq<Act>) {
    acts == [] ||
    var front := acts[..|acts| - 1];
    Guarded(front) && (acts[|acts| - 1] == Sent(Activate) ==> forall g :: Seen(front, g))
  }

  /** What is seen was read in the present round, at `k`, and nothing read since denies it. */
  lemma {:induction false} SeenMeans(acts: seq<Act>, g: Gate) returns (k: nat)
    requires Seen(acts, g)
    ensures k < |acts| && Grants(acts[k], g)
    ensures forall j :: k < j < |acts| ==> !Concerns(acts[j], g)
  {
    k := |acts| - 1;
    if !Concerns(acts[k], g) {
      k := SeenMeans(acts[..k], g);
    }
  }

  lemma {:induction false} GuardedAt(acts: seq<Act>, i: nat)
    requires Guarded(acts) && i < |acts| && acts[i] == Sent(Activate)
    ensures forall g :: Seen(acts[..i], g)
  {
    if i < |acts| - 1 {
      GuardedAt(acts[..|acts| - 1], i);
      assert acts[..|acts| - 1][..i] == acts[..i];
    }
  }

  ghost predicate Silent(acts: seq<Act>, g: Gate) { forall a :: a in acts ==> !Concerns(a, g) }

  lemma {:induction false} SeenInSilence(acts: seq<Act>, g: Gate)
    requires Silent(acts, g)
    ensures !Seen(acts, g)
  {
    if acts != [] {
      assert acts[|acts| - 1] in acts;
      SeenInSilence(acts[..|acts| - 1], g);
    }
  }

  lemma {:induction false} SeenConcat(a: seq<Act>, b: seq<Act>, g: Gate)
    ensures Seen(a + b, g) == (Seen(b, g) || (Silent(b, g) && Seen(a, g)))
    decreases |b|
  {
    if b == [] {
      assert a + b == a;
    } else {
      var front, last := b[..|b| - 1], b[|b| - 1];
      assert (a + b)[..|a + b| - 1] == a + front && last in b;
      assert b == front + [last];
      SeenConcat(a, front, g);
      assert Silent(b, g) <==> Silent(front, g) && !Concerns(last, g);
    }
  }

  lemma SeenAfterSilence(a: seq<Act>, b: seq<Act>, g: Gate)
    requires Silent(b, g)
    ensures Seen(a + b, g) == Seen(a, g)
  {
    SeenConcat(a, b, g);
    SeenInSilence(b, g);
  }

  lemma {:induction false} GuardedWithoutActivate(a: seq<Act>, b: seq<Act>)
    requires Guarded(a) && Sent(Activate) !in b
    ensures Guarded(a + b)
    decreases |b|
  {
    if b == [] {
      assert a + b == a;
    } else {
      assert (a + b)[..|a + b| - 1] == a + b[..|b| - 1];
      assert b[|b| - 1] in b;
      GuardedWithoutActivate(a, b[..|b| - 1]);
    }
  }

  /** Rounds do not lean on what was read before them. */
  lemma {:induction false} GuardedConcat(a: seq<Act>, b: seq<Act>)
    requires Guarded(a) && Guarded(b) && (b != [] ==> b[0] == RoundBegins)
    ensures Guarded(a + b)
    decreases |b|
  {
    if b == [] {
      assert a + b == a;
    } else {
      var front := b[..|b| - 1];
      assert (a + b)[..|a + b| - 1] == a + front;
      GuardedConcat(a, front);
      if b[|b| - 1] == Sent(Activate) {
        forall g: Gate ensures Seen(a + front, g) {
          SeenConcat(a, front, g);
        }
      }
    }
  }

  // ---- What each stage contributes ------------------------------------------------------------------

  /** The gates seen granted. */
  ghost function Granted(acts: seq<Act>): set<Gate> { set g: Gate | Seen(acts, g) }

  const AllGates: set<Gate> := {DeviceOpen, SimReady, InNetwork, PacketAttached, NotYetActive}

  ghost predicate Quiet(acts: seq<Act>) {
    Sent(Activate) !in acts && Opened !in acts && forall g :: Silent(acts, g)
  }

  lemma QuietConcat(a: seq<Act>, b: seq<Act>)
    requires Quiet(a) && Quiet(b)
    ensures Quiet(a + b)
  {
    forall g ensures Silent(a + b, g) {
      assert Silent(a, g) && Silent(b, g);
    }
  }

  lemma AskedIsQuiet(c: Command, notOpened: bool)
    requires c != Activate
    ensures Quiet(Asked(c, notOpened)) && Quiet([]) && Quiet(HearActs(notOpened))
  {
  }

  /** A stage's acts speak of no gate but its own, activate nothing, and grant it exactly when it passes. */
  ghost predicate StageOf(s: Result, g: Gate) {
    && Sent(Activate) !in s.acts && Opened !in s.acts
    && (forall h: Gate :: h != g ==> Silent(s.acts, h))
    && (s.next == GoOn <==> Seen(s.acts, g))
  }

  lemma StageThatReads(asked: seq<Act>, a: Act, g: Gate, m: Machine, next: Next)
    requires Quiet(asked) && Concerns(a, g) && !a.RoundBegins? && !a.Sent? && a != Opened
    requires next == GoOn <==> Grants(a, g)
    ensures StageOf(Result(m, asked + [a], next), g)
  {
    forall h: Gate | h != g ensures Silent(asked + [a], h) {
      assert Silent(asked, h) && !Concerns(a, h);
    }
    SeenLast(asked, a, g);
  }

  lemma StageThatFails(asked: seq<Act>, g: Gate, m: Machine)
    requires Quiet(asked)
    ensures StageOf(Result(m, asked, Quit), g)
  {
    assert forall h :: Silent(asked, h);
    SeenInSilence(asked, g);
  }

  lemma ReadyStage(m: Machine, r: Round)
    ensures StageOf(ReadyGate(m, r), SimReady)
  {
    var s := ReadyGate(m, r);
    var ask := Indicate(m, r.indicated(0)).states.ready != Initialized;
    var asked := if ask then Asked(QueryReady, r.ready.notOpened) else [];
    AskedIsQuiet(QueryReady, r.ready.notOpened);
    if ask && r.ready.err != 0 {
      StageThatFails(asked, SimReady, s.m);
    } else {
      StageThatReads(asked, ReadReady(s.m.states.ready), SimReady, s.m, s.next);
    }
  }

  lemma RegisterStage(m: Machine, r: Round)
    ensures StageOf(RegisterGate(m, r), InNetwork)
  {
    var s := RegisterGate(m, r);
    var ask := !Registered(Indicate(m, r.indicated(2)).states.register);
    var asked := if ask then Asked(QueryRegister, r.register.notOpened) else [];
    AskedIsQuiet(QueryRegister, r.register.notOpened);
    if ask && r.register.err != 0 {
      StageThatFails(asked, InNetwork, s.m);
    } else {
      StageThatReads(asked, ReadRegister(s.m.states.register), InNetwork, s.m, s.next);
    }
  }

  lemma ReadPacketStage(m: Machine, r: Round, acts: seq<Act>)
    requires Quiet(acts)
    ensures StageOf(ReadPacketNow(m, r, acts), PacketAttached)
  {
    var s := ReadPacketNow(m, r, acts);
    StageThatReads(acts, ReadPacket(s.m.states.packet), PacketAttached, s.m, s.next);
  }

  lemma AttachStage(m: Machine, r: Round, acts: seq<Act>)
    requires Quiet(acts)
    ensures StageOf(AttachIfDetached(m, r, acts), PacketAttached)
  {
    var s := AttachIfDetached(m, r, acts);
    var asked := acts + Asked(Attach, r.attach.notOpened);
    AskedIsQuiet(Attach, r.attach.notOpened);
    QuietConcat(acts, Asked(Attach, r.attach.notOpened));
    if m.states.packet != Detached {
      ReadPacketStage(m, r, acts);
    } else if r.attach.err != 0 {
      StageThatFails(asked, PacketAttached, s.m);
    } else {
      var heard := Hear(m, r.attach.notOpened);
      var taken := if r.attach.value.Some?
                   then heard.(states := heard.states.(packet := r.attach.value.value)) else heard;
      ReadPacketStage(taken, r, asked);
    }
  }

  lemma PacketStage(m: Machine, r: Round)
    ensures StageOf(PacketGate(m, r), PacketAttached)
  {
    var before := Indicate(m, r.indicated(4));
    var heard, asked := Hear(before, r.packet.notOpened), Asked(QueryPacket, r.packet.notOpened);
    AskedIsQuiet(QueryPacket, r.packet.notOpened);
    if before.states.packet == Attached {
      ReadPacketStage(before, r, []);
    } else if r.packet.err != 0 {
      StageThatFails(asked, PacketAttached, heard);
    } else {
      var taken := if r.packet.value.Some?
                   then heard.(states := heard.states.(packet := r.packet.value.value)) else heard;
      AttachStage(Indicate(taken, r.indicated(5)), r, asked);
    }
  }

  lemma ActivationStage(m: Machine, r: Round)
    ensures StageOf(ActivationGate(m, r), NotYetActive)
  {
    var s := ActivationGate(m, r);
    var ask := Indicate(m, r.indicated(7)).states.activation == UnknownActivation;
    var asked := if ask then Asked(QueryConnect, r.connect.notOpened) else [];
    AskedIsQuiet(QueryConnect, r.connect.notOpened);
    if ask && r.connect.err != 0 {
      StageThatFails(asked, NotYetActive, s.m);
    } else {
      StageThatReads(asked, ReadActivation(s.m.states.activation), NotYetActive, s.m, s.next);
    }
  }

  /** So far the gates in `granted`, and nothing has been activated. */
  ghost predicate Passed(a: Result, granted: set<Gate>) {
    && a.acts != [] && a.acts[0] == RoundBegins && Sent(Activate) !in a.acts
    && (a.next == GoOn ==> Granted(a.acts) == granted)
    && (a.next != GoOn ==> Granted(a.acts) < AllGates)
  }

  /** A stage adds its gate to those granted exactly when it passes. */
  lemma PassStage(a: Result, s: Result, g: Gate, granted: set<Gate>)
    requires Passed(a, granted) && StageOf(s, g) && g !in granted
    ensures Passed(Then(a, s), granted + {g})
  {
    if a.next == GoOn {
      forall h ensures Seen(a.acts + s.acts, h) == (Seen(a.acts, h) || (h == g && s.next == GoOn)) {
        SeenConcat(a.acts, s.acts, h);
        if h != g {
          SeenInSilence(s.acts, h);
        } else {
          assert h !in Granted(a.acts);
        }
      }
      assert Granted(a.acts + s.acts) == granted + if s.next == GoOn then {g} else {};
      assert g in AllGates && Granted(a.acts + s.acts) <= AllGates;
    }
  }

  lemma SeenLast(acts: seq<Act>, a: Act, g: Gate)
    requires Concerns(a, g)
    ensures Seen(acts + [a], g) == Grants(a, g)
  {
    assert (acts + [a])[..|acts + [a]| - 1] == acts;
  }

  lemma OnlyDeviceOpen(acts: seq<Act>)
    requires acts != [] && acts[0] == RoundBegins && forall g: Gate :: g != DeviceOpen ==> Silent(acts[1..], g)
    ensures Granted(acts) <= {DeviceOpen}
  {
    forall g: Gate | g != DeviceOpen ensures !Seen(acts, g) {
      assert [RoundBegins][..0] == [] && acts == [RoundBegins] + acts[1..];
      SeenInSilence(acts[1..], g);
      SeenConcat([RoundBegins], acts[1..], g);
    }
  }

  lemma OpenStage(m: Machine, r: Round)
    ensures Passed(OpenGate(m, r), {DeviceOpen})
  {
    var head := [RoundBegins, ReadOpen(false), Sent(OpenDevice)];
    if m.open {
      var acts := [RoundBegins] + [ReadOpen(true)];
      assert OpenGate(m, r).acts == acts;
      OnlyDeviceOpen(acts);
      SeenLast([RoundBegins], ReadOpen(true), DeviceOpen);
    } else if r.open != 0 {
      OnlyDeviceOpen(head);
      assert SimReady !in Granted(head);
    } else {
      var tail := Asked(QueryCaps, r.caps.notOpened);
      var acts := head + [Opened] + tail;
      assert OpenGate(m, r).acts == acts;
      AskedIsQuiet(QueryCaps, r.caps.notOpened);
      assert acts[1..] == head[1..] + [Opened] + tail;
      OnlyDeviceOpen(acts);
      SeenLast(head, Opened, DeviceOpen);
      SeenAfterSilence(head + [Opened], tail, DeviceOpen);
      assert SimReady !in Granted(acts);
    }
  }

  lemma ReadyAdds(a: Result, s: Result)
    requires Passed(a, {DeviceOpen}) && StageOf(s, SimReady)
    ensures Passed(Then(a, s), {DeviceOpen, SimReady})
  {
    var granted: set<Gate> := {DeviceOpen};
    assert granted + {SimReady} == {DeviceOpen, SimReady};
    PassStage(a, s, SimReady, granted);
  }

  lemma RegisterAdds(a: Result, s: Result)
    requires Passed(a, {DeviceOpen, SimReady}) && StageOf(s, InNetwork)
    ensures Passed(Then(a, s), {DeviceOpen, SimReady, InNetwork})
  {
    var granted: set<Gate> := {DeviceOpen, SimReady};
    assert granted + {InNetwork} == {DeviceOpen, SimReady, InNetwork};
    PassStage(a, s, InNetwork, granted);
  }

  lemma PacketAdds(a: Result, s: Result)
    requires Passed(a, {DeviceOpen, SimReady, InNetwork}) && StageOf(s, PacketAttached)
    ensures Passed(Then(a, s), {DeviceOpen, SimReady, InNetwork, PacketAttached})
  {
    var granted: set<Gate> := {DeviceOpen, SimReady, InNetwork};
    assert granted + {PacketAttached} == {DeviceOpen, SimReady, InNetwork, PacketAttached};
    PassStage(a, s, PacketAttached, granted);
  }

  lemma ActivationAdds(a: Result, s: Result)
    requires Passed(a, {DeviceOpen, SimReady, InNetwork, PacketAttached}) && StageOf(s, NotYetActive)
    ensures Passed(Then(a, s), AllGates)
  {
    var granted: set<Gate> := {DeviceOpen, SimReady, InNetwork, PacketAttached};
    assert granted + {NotYetActive} == AllGates;
    PassStage(a, s, NotYetActive, granted);
  }

  lemma ReadyAfter(a: Result, r: Round)
    requires Passed(a, {DeviceOpen})
    ensures Passed(Then(a, ReadyGate(a.m, r)), {DeviceOpen, SimReady})
  {
    ReadyStage(a.m, r);
    ReadyAdds(a, ReadyGate(a.m, r));
  }

  lemma RegisterAfter(a: Result, r: Round)
    requires Passed(a, {DeviceOpen, SimReady})
    ensures Passed(Then(a, RegisterGate(a.m, r)), {DeviceOpen, SimReady, InNetwork})
  {
    RegisterStage(a.m, r);
    RegisterAdds(a, RegisterGate(a.m, r));
  }

  lemma PacketAfter(a: Result, r: Round)
    requires Passed(a, {DeviceOpen, SimReady, InNetwork})
    ensures Passed(Then(a, PacketGate(a.m, r)), {DeviceOpen, SimReady, InNetwork, PacketAttached})
  {
    PacketStage(a.m, r);
    PacketAdds(a, PacketGate(a.m, r));
  }

  lemma ActivationAfter(a: Result, r: Round)
    requires Passed(a, {DeviceOpen, SimReady, InNetwork, PacketAttached})
    ensures Passed(Then(a, ActivationGate(a.m, r)), AllGates)
  {
    ActivationStage(a.m, r);
    ActivationAdds(a, ActivationGate(a.m, r));
  }

  /** The gates are passed exactly when all have been granted, and nothing is activated before. */
  lemma GatesGrantAll(m: Machine, r: Round)
    ensures Passed(Gates(m, r), AllGates)
  {
    OpenStage(m, r);
    ReadyAfter(OpenGate(m, r), r);
    RegisterAfter(UpToReady(m, r), r);
    PacketAfter(UpToRegister(m, r), r);
    ActivationAfter(UpToPacket(m, r), r);
  }

  lemma ConnectingActs(m: Machine, r: Round)
    ensures var s := Connecting(m, r);
            s.acts != [] && s.acts[0] == Sent(Activate) && Quiet(s.acts[1..])
  {
    AskedIsQuiet(QueryIp, r.ip.notOpened);
    AskedIsQuiet(QueryCaps, r.activate.notOpened);
    QuietConcat(HearActs(r.activate.notOpened), Asked(QueryIp, r.ip.notOpened));
    var s := Connecting(m, r);
    assert s.acts[1..] == HearActs(r.activate.notOpened)
        || s.acts[1..] == HearActs(r.activate.notOpened) + Asked(QueryIp, r.ip.notOpened);
  }

  /** A round's acts: those of its gates, and if they pass an activate command and what follows it. */
  ghost predicate MadeUp(g: Result, acts: seq<Act>) {
    && Passed(g, AllGates)
    && (g.next != GoOn ==> acts == g.acts)
    && (g.next == GoOn ==>
          && |acts| > |g.acts| && acts[..|g.acts|] == g.acts && acts[|g.acts|] == Sent(Activate)
          && Quiet(acts[|g.acts| + 1..]))
  }

  lemma RoundMadeUp(m: Machine, r: Round)
    ensures MadeUp(Gates(m, r), OneRound(m, r).acts)
  {
    GatesGrantAll(m, r);
    var g := Gates(m, r);
    if g.next == GoOn {
      ConnectingActs(g.m, r);
      MadeUpOf(g, Connecting(g.m, r));
    }
  }

  lemma MadeUpOf(g: Result, s: Result)
    requires Passed(g, AllGates) && g.next == GoOn && s.acts != [] && s.acts[0] == Sent(Activate) && Quiet(s.acts[1..])
    ensures MadeUp(g, After(g, s).acts)
  {
    assert (g.acts + s.acts)[|g.acts| + 1..] == s.acts[1..];
  }

  // ---- Main results ------------------------------------------------------------------------------------

  /**
   * A round sends the activate command if and only if its readings grant all five gates: it found or
   * made the device open, and read Initialized, Home or Roaming, Attached, and not active.
   */
  lemma RoundActivatesIff(m: Machine, r: Round)
    ensures Sent(Activate) in OneRound(m, r).acts <==> forall g :: Seen(OneRound(m, r).acts, g)
  {
    RoundMadeUp(m, r);
    MadeUpActivatesIff(Gates(m, r), OneRound(m, r).acts);
  }

  lemma MadeUpActivatesIff(g: Result, acts: seq<Act>)
    requires MadeUp(g, acts)
    ensures Sent(Activate) in acts <==> forall h :: Seen(acts, h)
  {
    if g.next == GoOn {
      var rest := [Sent(Activate)] + acts[|g.acts| + 1..];
      assert acts == g.acts + rest;
      forall h: Gate ensures Seen(acts, h) {
        assert h in AllGates && h in Granted(g.acts);
        assert Silent(acts[|g.acts| + 1..], h);
        SeenAfterSilence(g.acts, rest, h);
      }
    } else {
      var h :| h in AllGates && h !in Granted(g.acts);
      assert !Seen(acts, h);
    }
  }

  lemma RoundIsGuarded(m: Machine, r: Round)
    ensures var acts := OneRound(m, r).acts; Guarded(acts) && acts != [] && acts[0] == RoundBegins
  {
    RoundMadeUp(m, r);
    MadeUpIsGuarded(Gates(m, r), OneRound(m, r).acts);
  }

  lemma MadeUpIsGuarded(g: Result, acts: seq<Act>)
    requires MadeUp(g, acts)
    ensures Guarded(acts) && acts != [] && acts[0] == RoundBegins
  {
    assert [] + g.acts == g.acts;
    GuardedWithoutActivate([], g.acts);
    if g.next == GoOn {
      var head := g.acts + [Sent(Activate)];
      assert head[..|head| - 1] == g.acts;
      forall h: Gate ensures Seen(g.acts, h) {
        assert h in AllGates && h in Granted(g.acts);
      }
      GuardedWithoutActivate(head, acts[|g.acts| + 1..]);
      assert acts == head + acts[|g.acts| + 1..];
    }
  }

  lemma {:induction false} RunIsGuarded(m: Machine, rounds: seq<Round>)
    ensures Guarded(Rounds(m, rounds).acts)
    decreases |rounds|
  {
    if rounds != [] {
      var before := Rounds(m, rounds[..|rounds| - 1]);
      RunIsGuarded(m, rounds[..|rounds| - 1]);
      if before.next != Quit {
        RoundIsGuarded(before.m, rounds[|rounds| - 1]);
        GuardedConcat(before.acts, OneRound(before.m, rounds[|rounds| - 1]).acts);
      }
    }
  }

  /**
   * In every run, every activate command is licensed: for each gate there is a reading that grants it,
   * before the command and in the same round, and no later reading before the command denies it.
   */
  lemma ActivateIsLicensed(m: Machine, rounds: seq<Round>, acts: seq<Act>, i: nat, g: Gate) returns (k: nat)
    requires acts == Rounds(m, rounds).acts && i < |acts| && acts[i] == Sent(Activate)
    ensures k < i && Grants(acts[k], g)
    ensures forall j :: k < j < i ==> !Concerns(acts[j], g) && acts[j] != RoundBegins
  {
    RunIsGuarded(m, rounds);
    GuardedAt(acts, i);
    k := SeenMeans(acts[..i], g);
    assert acts[..i][k] == acts[k];
    assert forall j :: k < j < i ==> acts[..i][j] == acts[j];
  }

  // ---- Whether the device is still believed open ----------------------------------------------------

  /** Whether the reply to a command says that the device is not open. */
  predicate Denied(r: Round, c: Command) {
    match c
    case QueryCaps => r.caps.notOpened
    case QueryReady => r.ready.notOpened
    case QueryRegister => r.register.notOpened
    case QueryPacket => r.packet.notOpened
    case Attach => r.attach.notOpened
    case QueryConnect => r.connect.notOpened
    case Activate => r.activate.notOpened
    case QueryIp => r.ip.notOpened
    case _ => false
  }

  /** A denial is heard exactly when a command was sent whose reply is one. */
  ghost predicate Faithful(r: Round, acts: seq<Act>) {
    NotOpened in acts <==> exists c :: Sent(c) in acts && Denied(r, c)
  }

  lemma FaithfulConcat(r: Round, a: seq<Act>, b: seq<Act>)
    requires Faithful(r, a) && Faithful(r, b)
    ensures Faithful(r, a + b)
  {
    if NotOpened in a {
      var c :| Sent(c) in a && Denied(r, c);
      assert Sent(c) in a + b;
    } else if NotOpened in b {
      var c :| Sent(c) in b && Denied(r, c);
      assert Sent(c) in a + b;
    }
  }

  lemma AskedIsFaithful(r: Round, c: Command)
    ensures Faithful(r, Asked(c, Denied(r, c)))
  {
    if Denied(r, c) {
      assert Sent(c) in Asked(c, true);
    }
  }

  lemma ReadingIsFaithful(r: Round, a: Act)
    requires !a.Sent? && a != NotOpened
    ensures Faithful(r, [a]) && Faithful(r, [])
  {
  }

  /** The stage keeps the belief in step with what was heard. */
  ghost predicate Honest(r: Round, before: Machine, s: Result) {
    Faithful(r, s.acts) && s.m.open == (before.open && NotOpened !in s.acts)
  }

  lemma ReadyIsHonest(m: Machine, r: Round)
    ensures Honest(r, m, ReadyGate(m, r))
  {
    var s := ReadyGate(m, r);
    AskedIsFaithful(r, QueryReady);
    ReadingIsFaithful(r, ReadReady(s.m.states.ready));
    FaithfulConcat(r, Asked(QueryReady, r.ready.notOpened), [ReadReady(s.m.states.ready)]);
    assert [] + [ReadReady(s.m.states.ready)] == [ReadReady(s.m.states.ready)];
  }

  lemma RegisterIsHonest(m: Machine, r: Round)
    ensures Honest(r, m, RegisterGate(m, r))
  {
    var s := RegisterGate(m, r);
    AskedIsFaithful(r, QueryRegister);
    ReadingIsFaithful(r, ReadRegister(s.m.states.register));
    FaithfulConcat(r, Asked(QueryRegister, r.register.notOpened), [ReadRegister(s.m.states.register)]);
    assert [] + [ReadRegister(s.m.states.register)] == [ReadRegister(s.m.states.register)];
  }

  lemma ActivationIsHonest(m: Machine, r: Round)
    ensures Honest(r, m, ActivationGate(m, r))
  {
    var s := ActivationGate(m, r);
    AskedIsFaithful(r, QueryConnect);
    ReadingIsFaithful(r, ReadActivation(s.m.states.activation));
    FaithfulConcat(r, Asked(QueryConnect, r.connect.notOpened), [ReadActivation(s.m.states.activation)]);
    assert [] + [ReadActivation(s.m.states.activation)] == [ReadActivation(s.m.states.activation)];
  }

  lemma ReadPacketIsHonest(m: Machine, r: Round, acts: seq<Act>, before: Machine)
    requires Honest(r, before, Result(m, acts, GoOn))
    ensures Honest(r, before, ReadPacketNow(m, r, acts))
  {
    var s := ReadPacketNow(m, r, acts);
    ReadingIsFaithful(r, ReadPacket(s.m.states.packet));
    FaithfulConcat(r, acts, [ReadPacket(s.m.states.packet)]);
  }

  lemma AttachIsHonest(m: Machine, r: Round, acts: seq<Act>, before: Machine)
    requires Honest(r, before, Result(m, acts, GoOn))
    ensures Honest(r, before, AttachIfDetached(m, r, acts))
  {
    AskedIsFaithful(r, Attach);
    FaithfulConcat(r, acts, Asked(Attach, r.attach.notOpened));
    if m.states.packet != Detached {
      ReadPacketIsHonest(m, r, acts, before);
    } else if r.attach.err == 0 {
      var heard := Hear(m, r.attach.notOpened);
      var taken := if r.attach.value.Some?
                   then heard.(states := heard.states.(packet := r.attach.value.value)) else heard;
      ReadPacketIsHonest(taken, r, acts + Asked(Attach, r.attach.notOpened), before);
    }
  }

  lemma PacketIsHonest(m: Machine, r: Round)
    ensures Honest(r, m, PacketGate(m, r))
  {
    var before := Indicate(m, r.indicated(4));
    AskedIsFaithful(r, QueryPacket);
    ReadingIsFaithful(r, RoundBegins);
    if before.states.packet == Attached {
      ReadPacketIsHonest(before, r, [], m);
    } else if r.packet.err == 0 {
      var heard := Hear(before, r.packet.notOpened);
      var taken := if r.packet.value.Some?
                   then heard.(states := heard.states.(packet := r.packet.value.value)) else heard;
      AttachIsHonest(Indicate(taken, r.indicated(5)), r, Asked(QueryPacket, r.packet.notOpened), m);
    }
  }

  /** Up to here the belief is right: no denial has been heard in this round, if it goes on. */
  ghost predicate InStep(r: Round, a: Result) {
    Faithful(r, a.acts) && (a.next == GoOn ==> a.m.open == (NotOpened !in a.acts))
  }

  lemma OpenIsHonest(m: Machine, r: Round)
    ensures InStep(r, OpenGate(m, r))
  {
    if !m.open && r.open == 0 {
      var head, tail := [RoundBegins, ReadOpen(false), Sent(OpenDevice), Opened], Asked(QueryCaps, r.caps.notOpened);
      assert Faithful(r, head);
      AskedIsFaithful(r, QueryCaps);
      FaithfulConcat(r, head, tail);
    }
  }

  lemma HonestThen(r: Round, a: Result, s: Result)
    requires InStep(r, a) && Honest(r, a.m, s)
    ensures InStep(r, Then(a, s))
  {
    FaithfulConcat(r, a.acts, s.acts);
  }

  lemma RegisterInStep(m: Machine, r: Round)
    ensures InStep(r, UpToRegister(m, r))
  {
    var a := OpenGate(m, r);
    OpenIsHonest(m, r);
    ReadyIsHonest(a.m, r);
    HonestThen(r, a, ReadyGate(a.m, r));
    var b := UpToReady(m, r);
    RegisterIsHonest(b.m, r);
    HonestThen(r, b, RegisterGate(b.m, r));
  }

  lemma GatesAreHonest(m: Machine, r: Round)
    ensures InStep(r, Gates(m, r))
  {
    RegisterInStep(m, r);
    var c := UpToRegister(m, r);
    PacketIsHonest(c.m, r);
    HonestThen(r, c, PacketGate(c.m, r));
    var d := UpToPacket(m, r);
    ActivationIsHonest(d.m, r);
    HonestThen(r, d, ActivationGate(d.m, r));
  }

  /**
   * A round goes on after a reply that says the device is not open. When it sends the activate command
   * (`Gates(m, r).m` is what it holds then), it still believes the device open if and only if no command
   * it sent before, in this round, was answered so.
   */
  lemma StillOpenAtActivateIff(m: Machine, r: Round, acts: seq<Act>, i: nat)
    requires acts == OneRound(m, r).acts && i < |acts| && acts[i] == Sent(Activate)
    ensures Gates(m, r).next == GoOn && acts[..i] == Gates(m, r).acts
    ensures Gates(m, r).m.open <==> forall c :: Sent(c) in acts[..i] ==> !Denied(r, c)
  {
    RoundMadeUp(m, r);
    ActivateIsWhere(Gates(m, r), acts, i);
    GatesAreHonest(m, r);
  }

  lemma ActivateIsWhere(g: Result, acts: seq<Act>, i: nat)
    requires MadeUp(g, acts) && i < |acts| && acts[i] == Sent(Activate)
    ensures g.next == GoOn && i == |g.acts|
  {
    assert forall j :: 0 <= j < |g.acts| ==> acts[j] == acts[..|g.acts|][j] && acts[..|g.acts|][j] in acts[..|g.acts|];
    if g.next == GoOn {
      var n := |g.acts| + 1;
      assert forall j :: n <= j < |acts| ==> acts[j] == acts[n..][j - n] && acts[n..][j - n] in acts[n..];
    }
  }

  /** And such rounds exist: the answer to the query for the connection says so, and it activates all the same. */
  lemma ActivatesThoughNotOpen(m: Machine, r: Round)
    requires m == Machine(true, States(Initialized, Home, Attached, UnknownActivation))
    requires (forall k :: r.indicated(k) == None) && r.connect == Answer(0, None, true)
    ensures Gates(m, r) == Result(m.(open := false),
              [RoundBegins, ReadOpen(true), ReadReady(Initialized), ReadRegister(Home), ReadPacket(Attached),
               Sent(QueryConnect), NotOpened, ReadActivation(UnknownActivation)], GoOn)
    ensures Sent(Activate) in OneRound(m, r).acts
  {
    var g := Gates(m, r);
    assert g.acts == [RoundBegins, ReadOpen(true)] + [ReadReady(Initialized)] + [ReadRegister(Home)]
                     + [ReadPacket(Attached)] + ([Sent(QueryConnect)] + [NotOpened]
                         + [ReadActivation(UnknownActivation)]);
    assert Connecting(g.m, r).acts[0] == Sent(Activate);
  }
}
