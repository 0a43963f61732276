/** The QMI connection manager's event machine: link flag, connection status, and redial delays. */
module RedialSpec {
  import opened Wrappers
  import opened Bytes

  const Disconnected: byte := 1
  const Connected: byte := 2
  const Unknown: byte := 0xff

  datatype Config = Config(v4: bool, v6: bool, credentials: bool)

  /** What the world sees of the link: DHCP clients started and stopped, and modem resets in between. */
  datatype Act = DhcpStart | DhcpStop | ModemReset

  /** What a start did about one family: nothing, or a dial from a status, with its result. */
  datatype Attempt = NotTried | Tried(status: byte, ok: bool)

  /** What bears on redialling: dials, told by their results alone, and times set anew by the network. */
  datatype Entry =
    | Dialled(at: nat, v4: Attempt, v6: Attempt, wasUp: bool)
    | Released

  datatype State = State(
    link: int,              // -1 until first set
    v4: byte, v6: byte,
    attached: byte,
    fails: nat,
    allow: nat,             // no dial before this time, in milliseconds
    auth: int,
    acts: seq<Act>,
    log: seq<Entry>)

  /** Results of setting up a call, of trying again with the other authentication, of asking the address. */
  datatype Dial = Dial(first: int, second: int, address: int)

  datatype Event =
    | Start(now: nat, d4: Dial, d6: Dial)
    | Check(q4: Option<byte>, sameAddress: bool, q6: Option<byte>)
    | Stop
    | DeviceGone(attached: byte)   // the registration is read again once the device is back
    | NetworkChanged(now: nat, attached: byte)
    | DataCallChanged(now: nat)
    | Reset(attached: byte)

  function Init(now: nat, auth: int, attached: byte): State {
    State(-1, Unknown, Unknown, attached, 0, now, auth, [], [])
  }

  function Delay(fails: nat): nat {
    if fails < 5 then [5, 10, 20, 40, 60][fails] else 60
  }

  function ChangeLink(s: State, link: int): State {
    if s.link == link then s
    else s.(link := link, acts := s.acts + [if link != 0 then DhcpStart else DhcpStop])
  }

  /** With a wrong-looking authentication a dial is tried once more; then the address must be had. */
  predicate Succeeds4(c: Config, d: Dial) {
    (if d.first > 0 && c.credentials then d.second else d.first) == 0 && d.address == 0
  }

  predicate Succeeds6(d: Dial) { d.first == 0 && d.address == 0 }

  function Attempt4(c: Config, s: State, d: Dial): Attempt {
    if !c.v4 || s.v4 == Connected then NotTried else Tried(s.v4, Succeeds4(c, d))
  }

  function Attempt6(c: Config, s: State, d: Dial): Attempt {
    if !c.v6 || s.v6 == Connected then NotTried else Tried(s.v6, Succeeds6(d))
  }

  function Dial4(c: Config, s: State, d: Dial): State {
    if !c.v4 || s.v4 == Connected then s
    else
      var retry := d.first > 0 && c.credentials;
      var err := if retry then d.second else d.first;
      s.(auth := if retry && d.second == 0 then (if s.auth == 1 then 2 else 1) else s.auth,
         v4 := if err == 0 && d.address == 0 then Connected else s.v4)
  }

  function Dial6(c: Config, s: State, d: Dial): State {
    if c.v6 && s.v6 != Connected && d.first == 0 && d.address == 0 then s.(v6 := Connected) else s
  }

  /** An enabled family is known to be down. */
  predicate Lacking(c: Config, s: State) {
    (c.v4 && s.v4 == Disconnected) || (c.v6 && s.v6 == Disconnected)
  }

  predicate AnyUp(s: State) { s.v4 == Connected || s.v6 == Connected }

  predicate MayDial(s: State, now: nat) { s.attached == 1 && s.allow <= now }

  function Settle(c: Config, s: State, now: nat): State {
    if Lacking(c, s) then s.(allow := now + 1000 * Delay(s.fails), fails := s.fails + 1)
    else if AnyUp(s) then s.(fails := 0, allow := now)
    else s
  }

  function Query(c: Config, s: State, q4: Option<byte>, sameAddress: bool, q6: Option<byte>): State {
    var v4 := if !c.v4 then Disconnected
              else
                var asked := if q4.Some? then q4.value else s.v4;
                if asked == Connected && !sameAddress then Disconnected else asked;
    var v6 := if !c.v6 then Disconnected else if q6.Some? then q6.value else s.v6;
    s.(v4 := v4, v6 := v6)
  }

  function EntryOf(c: Config, s: State, now: nat, d4: Dial, d6: Dial): Entry {
    Dialled(now, Attempt4(c, s, d4), Attempt6(c, s, d6), AnyUp(s))
  }

  function Step(c: Config, s: State, e: Event): State {
    match e
    case Start(now, d4, d6) =>
      if MayDial(s, now)
      then Settle(c, Dial6(c, Dial4(c, s, d4), d6), now).(log := s.log + [EntryOf(c, s, now, d4, d6)])
      else s
    case Check(q4, same, q6) =>
      var asked := Query(c, s, q4, same, q6);
      if asked.v4 == Disconnected && asked.v6 == Disconnected then ChangeLink(asked, 0)
      else if AnyUp(asked) then ChangeLink(asked, 1)
      else asked
    case Stop => ChangeLink(s, 0)
    case DeviceGone(attached) => ChangeLink(s, 0).(attached := attached)
    case NetworkChanged(now, attached) =>
      var heard := s.(attached := attached);
      if attached == 1 then heard else heard.(allow := now, log := heard.log + [Released])
    case DataCallChanged(now) =>
      if AnyUp(s) then s.(allow := now + 1000, log := s.log + [Released]) else s
    case Reset(attached) => s.(link := 0, attached := attached, acts := s.acts + [ModemReset])
  }

  function Run(c: Config, s: State, es: seq<Event>): State {
    if es == [] then s else Step(c, Run(c, s, es[..|es| - 1]), es[|es| - 1])
  }

  // ---- The link ---------------------------------------------------------------------------------------

  /** No two starts and no two stops follow each other directly. */
  predicate Alternating(acts: seq<Act>) {
    |acts| < 2 ||
    (Alternating(acts[..|acts| - 1]) && (acts[|acts| - 1].ModemReset? || acts[|acts| - 1] != acts[|acts| - 2]))
  }

  /** And after a reset the first thing to happen to DHCP is a start. */
  predicate StartsAfterReset(acts: seq<Act>) {
    |acts| < 2 ||
    (StartsAfterReset(acts[..|acts| - 1]) && (acts[|acts| - 2].ModemReset? ==> !acts[|acts| - 1].DhcpStop?))
  }

  /** The flag tells what was done last. */
  ghost predicate FlagTells(link: int, acts: seq<Act>) {
    && Alternating(acts) && StartsAfterReset(acts)
    && (link == -1 <==> acts == [])
    && (link == 1 <==> acts != [] && acts[|acts| - 1].DhcpStart?)
    && (link == -1 || link == 0 || link == 1)
  }

  ghost predicate LinkInv(s: State) { FlagTells(s.link, s.acts) }

  /** All that a step can do to the link: nothing, change it, or clear it in a reset. */
  lemma StepOnLink(c: Config, s: State, e: Event)
    ensures var after := Step(c, s, e);
            || (after.link == s.link && after.acts == s.acts)
            || (after.link == 0 && s.link != 0 && after.acts == s.acts + [DhcpStop])
            || (after.link == 1 && s.link != 1 && after.acts == s.acts + [DhcpStart])
            || (after.link == 0 && after.acts == s.acts + [ModemReset])
  {
  }

  lemma StepKeepsLinkInv(c: Config, s: State, e: Event)
    requires LinkInv(s)
    ensures LinkInv(Step(c, s, e))
  {
    StepOnLink(c, s, e);
    FlagTellsNext(s.link, s.acts, Step(c, s, e).link, Step(c, s, e).acts);
  }

  lemma FlagTellsNext(link: int, acts: seq<Act>, link': int, acts': seq<Act>)
    requires FlagTells(link, acts)
    requires || (link' == link && acts' == acts)
             || (link' == 0 && link != 0 && acts' == acts + [DhcpStop])
             || (link' == 1 && link != 1 && acts' == acts + [DhcpStart])
             || (link' == 0 && acts' == acts + [ModemReset])
    ensures FlagTells(link', acts')
  {
    assert acts' != acts ==> acts'[..|acts'| - 1] == acts;
  }

  /** DHCP starts and stops strictly alternate between modem resets, in every run. */
  lemma {:induction false} StartsAndStopsAlternate(c: Config, now: nat, auth: int, attached: byte, es: seq<Event>)
    ensures LinkInv(Run(c, Init(now, auth, attached), es))
    decreases |es|
  {
    if es != [] {
      StartsAndStopsAlternate(c, now, auth, attached, es[..|es| - 1]);
      StepKeepsLinkInv(c, Run(c, Init(now, auth, attached), es[..|es| - 1]), es[|es| - 1]);
    }
  }

  ghost predicate Decided(s: State) {
    (s.v4 == Connected || s.v4 == Disconnected) && (s.v6 == Connected || s.v6 == Disconnected)
  }

  /**
   * In every run, right after a check that leaves both families either up or down, the flag is 1 exactly
   * when one is up, and DHCP is running exactly then.
   */
  lemma CheckSettlesLink(c: Config, now: nat, auth: int, attached: byte, es: seq<Event>, after: State)
    requires es != [] && es[|es| - 1].Check? && after == Run(c, Init(now, auth, attached), es) && Decided(after)
    ensures (after.link == 1 <==> AnyUp(after)) && (after.link == 0 <==> !AnyUp(after))
    ensures AnyUp(after) <==> after.acts != [] && after.acts[|after.acts| - 1].DhcpStart?
  {
    StartsAndStopsAlternate(c, now, auth, attached, es);
  }

  /**
   * A check takes the status of an enabled family from the modem's answer, keeping the old one if none
   * came; a connection whose address is not the interface's counts as down, and so does a family that
   * is not enabled. (1 is disconnected and 2 connected.)
   */
  lemma CheckTakesAnswers(c: Config, s: State, q4: Option<byte>, same: bool, q6: Option<byte>)
    ensures var after := Step(c, s, Check(q4, same, q6));
            && (!c.v4 ==> after.v4 == 1) && (!c.v6 ==> after.v6 == 1)
            && (c.v4 && q4.Some? && (q4.value != 2 || same) ==> after.v4 == q4.value)
            && (c.v4 && q4.None? && (s.v4 != 2 || same) ==> after.v4 == s.v4)
            && (c.v4 && !same && (q4 == Some(2) || (q4.None? && s.v4 == 2)) ==> after.v4 == 1)
            && (c.v6 && q6.Some? ==> after.v6 == q6.value) && (c.v6 && q6.None? ==> after.v6 == s.v6)
            && (after.v4 == 1 && after.v6 == 1 ==> after.link == 0)
            && (after.v4 == 2 || after.v6 == 2 ==> after.link == 1)
            && (after.v4 != 2 && after.v6 != 2 && (after.v4 != 1 || after.v6 != 1) ==> after.link == s.link)
            && after.auth == s.auth && after.attached == s.attached
  {
  }

  /** A start that may dial brings up exactly the families whose dial got through and got an address. */
  lemma StartTakesResults(c: Config, s: State, now: nat, d4: Dial, d6: Dial)
    requires s.attached == 1 && s.allow <= now
    ensures var after := Step(c, s, Start(now, d4, d6));
            var last := if d4.first > 0 && c.credentials then d4.second else d4.first;
            && after.v4 == (if c.v4 && last == 0 && d4.address == 0 then 2 else s.v4)
            && after.v6 == (if c.v6 && d6.first == 0 && d6.address == 0 then 2 else s.v6)
            && after.auth == (if c.v4 && s.v4 != 2 && c.credentials && d4.first > 0 && d4.second == 0
                              then (if s.auth == 1 then 2 else 1) else s.auth)
            && after.link == s.link && after.attached == 1
  {
  }

  /** The registration last read or heard of. */
  function Heard(first: byte, es: seq<Event>): byte {
    if es == [] then first
    else
      match es[|es| - 1]
      case NetworkChanged(_, attached) => attached
      case DeviceGone(attached) => attached
      case Reset(attached) => attached
      case _ => Heard(first, es[..|es| - 1])
  }

  /** In every run a start dials only while the registration last heard of is a registration. */
  lemma {:induction false} DialsOnlyWhenRegistered(c: Config, now: nat, auth: int, first: byte, es: seq<Event>)
    ensures Run(c, Init(now, auth, first), es).attached == Heard(first, es)
    ensures forall at, d4, d6 :: Heard(first, es) != 1 ==>
              Step(c, Run(c, Init(now, auth, first), es), Start(at, d4, d6)) == Run(c, Init(now, auth, first), es)
    decreases |es|
  {
    if es != [] {
      DialsOnlyWhenRegistered(c, now, auth, first, es[..|es| - 1]);
      AttachedStep(c, Run(c, Init(now, auth, first), es[..|es| - 1]), es[|es| - 1]);
    }
  }

  lemma AttachedStep(c: Config, s: State, e: Event)
    ensures Step(c, s, e).attached ==
            match e
            case NetworkChanged(_, attached) => attached
            case DeviceGone(attached) => attached
            case Reset(attached) => attached
            case _ => s.attached
  {
  }

  /** After the registration is lost the next dial may come at once; after a call changed, in a second. */
  lemma NetworkReleases(c: Config, s: State, now: nat, attached: byte, at: nat, d4: Dial, d6: Dial)
    ensures var lost := Step(c, Step(c, s, NetworkChanged(now, attached)), NetworkChanged(now, 1));
            attached != 1 && at >= now ==>
              Step(c, lost, Start(at, d4, d6)).log == lost.log + [EntryOf(c, lost, at, d4, d6)]
    ensures var changed := Step(c, s, DataCallChanged(now));
            (s.v4 == 2 || s.v6 == 2) && s.attached == 1 ==>
              (at < now + 1000 ==> Step(c, changed, Start(at, d4, d6)) == changed) &&
              (at >= now + 1000 ==>
                 Step(c, changed, Start(at, d4, d6)).log == changed.log + [EntryOf(c, changed, at, d4, d6)])
    ensures !(s.v4 == 2 || s.v6 == 2) ==> Step(c, s, DataCallChanged(now)) == s
  {
  }

  // ---- Redialling ----------------------------------------------------------------------------------

  predicate FailedFrom(a: Attempt, status: byte) { a.Tried? && !a.ok && a.status == status }

  predicate FailedAtAll(e: Entry) {
    e.Dialled? && ((e.v4.Tried? && !e.v4.ok) || (e.v6.Tried? && !e.v6.ok))
  }

  /** A dial failed for a family that was known to be down. */
  predicate FailedDown(e: Entry) {
    e.Dialled? && (FailedFrom(e.v4, Disconnected) || FailedFrom(e.v6, Disconnected))
  }

  /** Some family is up after the dial: it was before, or it was dialled with success. */
  predicate EndsUp(e: Entry) {
    e.Dialled? && (e.wasUp || (e.v4.Tried? && e.v4.ok) || (e.v6.Tried? && e.v6.ok))
  }

  /**
   * The exact condition. A start that may dial counts a failure and puts off the next dial if and only
   * if an enabled family was known to be down before it and the dial of that family did not succeed.
   * Otherwise the next dial may come at once, and the count is cleared if some family is up.
   */
  lemma StartIsDelayedIff(c: Config, s: State, now: nat, d4: Dial, d6: Dial)
    requires MayDial(s, now)
    ensures var after, e := Step(c, s, Start(now, d4, d6)), EntryOf(c, s, now, d4, d6);
            && (!MayDial(after, now) <==> FailedDown(e)) && (after.fails == s.fails + 1 <==> FailedDown(e))
            && (FailedDown(e) <==>
                  || (c.v4 && s.v4 == Disconnected && !Succeeds4(c, d4))
                  || (c.v6 && s.v6 == Disconnected && !Succeeds6(d6)))
            && (FailedDown(e) ==> after.allow == now + 1000 * Delay(s.fails))
            && (!FailedDown(e) ==> after.fails == (if EndsUp(e) then 0 else s.fails) && after.allow <= now)
  {
  }

  /**
   * So a dial that fails is not always backed off: it is exactly when one of the families it failed for
   * was known to be down. From any other status, unknown, suspended or authenticating, it is not, and
   * if the other family is up it even clears the count.
   */
  lemma FailedDialBackedOffIff(c: Config, s: State, now: nat, d4: Dial, d6: Dial)
    requires MayDial(s, now) && FailedAtAll(EntryOf(c, s, now, d4, d6))
    ensures var after, e := Step(c, s, Start(now, d4, d6)), EntryOf(c, s, now, d4, d6);
            && (!MayDial(after, now) <==> FailedFrom(e.v4, Disconnected) || FailedFrom(e.v6, Disconnected))
            && (c.v4 && !c.v6 && s.v4 != Disconnected && s.v6 != Connected ==>
                  MayDial(after, now) && after.fails == s.fails)
            && (c.v4 && c.v6 && s.v4 != Disconnected && s.v6 == Connected ==>
                  MayDial(after, now) && after.fails == 0)
  {
    StartIsDelayedIff(c, s, now, d4, d6);
  }

  /** How many dials have failed for a family known to be down since the last dial that cleared the count. */
  function Streak(log: seq<Entry>): nat {
    if log == [] then 0
    else
      var before, last := Streak(log[..|log| - 1]), log[|log| - 1];
      if FailedDown(last) then before + 1 else if EndsUp(last) then 0 else before
  }

  /** The earliest time of a dial right after this log, if the last dial failed. */
  function Earliest(log: seq<Entry>): nat
    requires log != [] && FailedDown(log[|log| - 1])
  {
    log[|log| - 1].at + 1000 * Delay(Streak(log[..|log| - 1]))
  }

  /** No dial comes before its time. */
  predicate Spaced(log: seq<Entry>) {
    log == [] ||
    var front, last := log[..|log| - 1], log[|log| - 1];
    Spaced(front) && (front != [] && FailedDown(front[|front| - 1]) && last.Dialled? ==> last.at >= Earliest(front))
  }

  ghost predicate RedialInv(s: State) {
    && Spaced(s.log) && s.fails == Streak(s.log)
    && (s.log != [] && FailedDown(s.log[|s.log| - 1]) ==> s.allow == Earliest(s.log))
  }

  lemma AppendSpaced(log: seq<Entry>, e: Entry)
    requires Spaced(log) && (log != [] && FailedDown(log[|log| - 1]) && e.Dialled? ==> e.at >= Earliest(log))
    ensures Spaced(log + [e])
    ensures Streak(log + [e]) == if FailedDown(e) then Streak(log) + 1 else if EndsUp(e) then 0 else Streak(log)
    ensures FailedDown(e) ==> Earliest(log + [e]) == e.at + 1000 * Delay(Streak(log))
  {
    assert (log + [e])[..|log + [e]| - 1] == log;
  }

  lemma {:induction false} StepKeepsRedialInv(c: Config, s: State, e: Event)
    requires RedialInv(s)
    ensures RedialInv(Step(c, s, e))
  {
    match e
    case Start(now, d4, d6) =>
      if MayDial(s, now) {
        StartIsDelayedIff(c, s, now, d4, d6);
        AppendSpaced(s.log, EntryOf(c, s, now, d4, d6));
      }
    case NetworkChanged(_, _) => ReleaseKeepsRedialInv(s, Step(c, s, e));
    case DataCallChanged(_) => ReleaseKeepsRedialInv(s, Step(c, s, e));
    case _ => LinkLeavesDelays(c, s, e);
  }

  /** Nothing about redialling has changed. */
  ghost predicate SameDelays(s: State, after: State) {
    after.log == s.log && after.fails == s.fails && after.allow == s.allow
  }

  lemma LinkLeavesDelays(c: Config, s: State, e: Event)
    requires e.Check? || e.Stop? || e.DeviceGone? || e.Reset?
    ensures SameDelays(s, Step(c, s, e))
  {
  }

  lemma ReleaseKeepsRedialInv(s: State, after: State)
    requires RedialInv(s) && after.fails == s.fails
    requires SameDelays(s, after) || after.log == s.log + [Released]
    ensures RedialInv(after)
  {
    if after.log != s.log {
      AppendSpaced(s.log, Released);
    }
  }

  lemma {:induction false} RunKeepsRedialInv(c: Config, now: nat, auth: int, attached: byte, es: seq<Event>)
    ensures RedialInv(Run(c, Init(now, auth, attached), es))
    decreases |es|
  {
    if es != [] {
      RunKeepsRedialInv(c, now, auth, attached, es[..|es| - 1]);
      StepKeepsRedialInv(c, Run(c, Init(now, auth, attached), es[..|es| - 1]), es[|es| - 1]);
    }
  }

  lemma {:induction false} SpacedAt(log: seq<Entry>, i: nat)
    requires Spaced(log) && i + 1 < |log| && FailedDown(log[i]) && log[i + 1].Dialled?
    ensures log[i + 1].at >= log[i].at + 1000 * Delay(Streak(log[..i]))
  {
    var front := log[..|log| - 1];
    if i + 2 < |log| {
      SpacedAt(front, i);
      assert front[..i] == log[..i];
    } else {
      assert front[..|front| - 1] == log[..i];
    }
  }

  /**
   * Backoff. In every run, after the k-th dial in a row that failed for a family known to be down,
   * counting from zero, the next dial comes at least 5, 10, 20, 40 or from then on 60 seconds later,
   * unless the network set the time anew in between.
   */
  lemma FailedDialsBackOff(c: Config, now: nat, auth: int, attached: byte, es: seq<Event>, log: seq<Entry>, i: nat)
    requires log == Run(c, Init(now, auth, attached), es).log
    requires i + 1 < |log| && FailedDown(log[i]) && log[i + 1].Dialled?
    ensures var k, wait := Streak(log[..i]), log[i + 1].at - log[i].at;
            wait >= if k == 0 then 5000 else if k == 1 then 10000 else if k == 2 then 20000 else if k == 3 then 40000
                    else 60000
  {
    RunKeepsRedialInv(c, now, auth, attached, es);
    SpacedAt(log, i);
  }

  /** And it may come then: a start signal at that time or later dials, one before it does nothing. */
  lemma FailedDialBlocksUntil(c: Config, now: nat, auth: int, attached: byte, es: seq<Event>, s: State,
                              at: nat, d4: Dial, d6: Dial)
    requires s == Run(c, Init(now, auth, attached), es)
    requires s.attached == 1 && s.log != [] && FailedDown(s.log[|s.log| - 1])
    ensures var k, since := Streak(s.log[..|s.log| - 1]), s.log[|s.log| - 1].at;
            Earliest(s.log) == since + if k == 0 then 5000 else if k == 1 then 10000 else if k == 2 then 20000
                                       else if k == 3 then 40000 else 60000
    ensures at < Earliest(s.log) ==> Step(c, s, Start(at, d4, d6)) == s
    ensures at >= Earliest(s.log) ==> Step(c, s, Start(at, d4, d6)).log == s.log + [EntryOf(c, s, at, d4, d6)]
  {
    RunKeepsRedialInv(c, now, auth, attached, es);
  }
}
