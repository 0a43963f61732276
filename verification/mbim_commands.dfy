/**
 * MBIM commands: one outstanding at a time, answered by transaction id; ids start again at 1 whenever
 * the device is opened.
 */
module MbimCommands {
  import opened Wrappers

  const Width: nat := 0x1_0000_0000

  datatype Command = Command(session: nat, tid: nat)

  /** What the device says: an indication has transaction id 0, a reply that of its command. */
  datatype Message = Indication | Reply(command: nat)

  datatype Completion = Completion(command: nat, answer: Message)

  datatype State = State(
    session: nat,                  // how often the device was opened
    next: nat,                     // the id of the next command, a 32-bit counter
    commands: seq<Command>,        // every command composed
    request: Option<nat>,          // the one being waited for
    response: Option<Message>,
    completed: seq<Completion>)

  datatype Event =
    | Open                          // the counter is set to 1 before the open command is composed
    | Send(written: bool)
    | Receive(m: Message)
    | Wake(timedOut: bool)

  function Init(): State { State(0, 1, [], None, None, []) }

  function TidOf(s: State, m: Message): nat {
    match m
    case Indication => 0
    case Reply(c) => if c < |s.commands| then s.commands[c].tid else 0
  }

  predicate Enabled(s: State, e: Event) {
    match e
    case Open => s.request.None?
    case Send(_) => s.request.None?
    case Wake(_) => s.request.Some?
    case Receive(m) => m.Reply? ==> m.command < |s.commands|
  }

  function Step(s: State, e: Event): State {
    match e
    case Open => s.(session := s.session + 1, next := 1)
    case Send(written) =>
      s.(next := (s.next + 1) % Width, commands := s.commands + [Command(s.session, s.next)],
         request := if written then Some(|s.commands|) else None, response := None)
    case Receive(m) =>
      if s.request.Some? && s.request.value < |s.commands| && s.commands[s.request.value].tid == TidOf(s, m)
      then s.(response := Some(m)) else s
    case Wake(timedOut) =>
      s.(request := None, response := None,
         completed := if !timedOut && s.response.Some? && s.request.Some?
                      then s.completed + [Completion(s.request.value, s.response.value)] else s.completed)
  }

  predicate Possible(es: seq<Event>)
    decreases |es|, 0
  {
    es == [] || (Possible(es[..|es| - 1]) && Enabled(Run(es[..|es| - 1]), es[|es| - 1]))
  }

  function Run(es: seq<Event>): State
    requires Possible(es)
    decreases |es|, 1
  {
    if es == [] then Init() else Step(Run(es[..|es| - 1]), es[|es| - 1])
  }

  // ---- Transaction ids ---------------------------------------------------------------------------

  /** How many commands of the session are among these. */
  function Count(commands: seq<Command>, session: nat): nat {
    if commands == [] then 0
    else Count(commands[..|commands| - 1], session) + if commands[|commands| - 1].session == session then 1 else 0
  }

  /** The id of a session's `n`-th command. */
  function Tid(n: nat): nat { if n == 0 then 1 else (Tid(n - 1) + 1) % Width }

  lemma {:induction false} TidBeforeWrap(n: nat)
    requires n < Width - 1
    ensures Tid(n) == n + 1
  {
    if n > 0 {
      TidBeforeWrap(n - 1);
    }
  }

  /** Every command's id is given by its place in its session; sessions do not go back. */
  predicate Numbered(commands: seq<Command>) {
    commands == [] ||
    var front, last := commands[..|commands| - 1], commands[|commands| - 1];
    && Numbered(front) && last.tid == Tid(Count(front, last.session))
    && (front != [] ==> front[|front| - 1].session <= last.session)
  }

  lemma {:induction false} NumberedAt(commands: seq<Command>, i: nat)
    requires Numbered(commands) && i < |commands|
    ensures commands[i].tid == Tid(Count(commands[..i], commands[i].session))
    ensures commands[i].session <= commands[|commands| - 1].session
  {
    if i < |commands| - 1 {
      NumberedAt(commands[..|commands| - 1], i);
      assert commands[..|commands| - 1][..i] == commands[..i];
    } else {
      assert commands[..i] == commands[..|commands| - 1];
    }
  }

  lemma {:induction false} CountGrows(commands: seq<Command>, i: nat, j: nat, session: nat)
    requires i < j <= |commands| && commands[i].session == session
    ensures Count(commands[..i], session) < Count(commands[..j], session)
    decreases j
  {
    assert commands[..j][..j - 1] == commands[..j - 1];
    if i < j - 1 {
      CountGrows(commands, i, j - 1, session);
    }
  }

  lemma {:induction false} CountOfLater(commands: seq<Command>, session: nat)
    requires Numbered(commands) && (commands != [] ==> commands[|commands| - 1].session < session)
    ensures Count(commands, session) == 0
  {
    if commands != [] {
      CountOfLater(commands[..|commands| - 1], session);
    }
  }

  ghost predicate Inv(s: State) {
    && Numbered(s.commands)
    && (s.commands != [] ==> s.commands[|s.commands| - 1].session <= s.session)
    && s.next == Tid(Count(s.commands, s.session))
    && (s.request.Some? ==> s.request.value == |s.commands| - 1)
    && (s.response.Some? ==>
          && s.request.Some? && TidOf(s, s.response.value) == s.commands[s.request.value].tid
          && Known(s, s.response.value))
    && (forall k :: 0 <= k < |s.completed| ==> Matched(s, s.completed[k]))
  }

  predicate Known(s: State, m: Message) { m.Reply? ==> m.command < |s.commands| }

  ghost predicate Matched(s: State, c: Completion) {
    c.command < |s.commands| && Known(s, c.answer) && TidOf(s, c.answer) == s.commands[c.command].tid
    && (c.answer.Reply? ==> c.answer.command <= c.command)
  }

  lemma AppendNumbered(commands: seq<Command>, c: Command)
    requires Numbered(commands) && c.tid == Tid(Count(commands, c.session))
    requires commands != [] ==> commands[|commands| - 1].session <= c.session
    ensures Numbered(commands + [c])
    ensures Count(commands + [c], c.session) == Count(commands, c.session) + 1
  {
    assert (commands + [c])[..|commands + [c]| - 1] == commands;
  }

  lemma StepKeepsInv(s: State, e: Event)
    requires Inv(s) && Enabled(s, e)
    ensures Inv(Step(s, e))
  {
    match e
    case Open => CountOfLater(s.commands, s.session + 1);
    case Send(written) => SendKeepsInv(s, written);
    case Receive(m) => ReceiveKeepsInv(s, m);
    case Wake(timedOut) => WakeKeepsInv(s, timedOut);
  }

  lemma SendKeepsInv(s: State, written: bool)
    requires Inv(s) && Enabled(s, Send(written))
    ensures Inv(Step(s, Send(written)))
  {
    var after := Step(s, Send(written));
    AppendNumbered(s.commands, Command(s.session, s.next));
    forall k | 0 <= k < |after.completed| ensures Matched(after, after.completed[k]) {
      assert Matched(s, s.completed[k]);
    }
  }

  lemma ReceiveKeepsInv(s: State, m: Message)
    requires Inv(s) && Enabled(s, Receive(m))
    ensures Inv(Step(s, Receive(m)))
  {
    var after := Step(s, Receive(m));
    forall k | 0 <= k < |after.completed| ensures Matched(after, after.completed[k]) {
      assert Matched(s, s.completed[k]);
    }
  }

  lemma WakeKeepsInv(s: State, timedOut: bool)
    requires Inv(s) && Enabled(s, Wake(timedOut))
    ensures Inv(Step(s, Wake(timedOut)))
  {
    var after := Step(s, Wake(timedOut));
    forall k | 0 <= k < |after.completed| ensures Matched(after, after.completed[k]) {
      if k < |s.completed| {
        assert Matched(s, s.completed[k]);
      }
    }
  }

  lemma {:induction false} RunKeepsInv(es: seq<Event>)
    requires Possible(es)
    ensures Inv(Run(es))
    decreases |es|
  {
    if es != [] {
      RunKeepsInv(es[..|es| - 1]);
      StepKeepsInv(Run(es[..|es| - 1]), es[|es| - 1]);
    }
  }

  // ---- Who answers whom ------------------------------------------------------------------------------

  /** Within a session, and before the counter wraps, ids run 1, 2, 3, … in the order of the commands. */
  lemma IdsIncrease(es: seq<Event>, s: State, i: nat, j: nat)
    requires Possible(es) && s == Run(es) && i < j < |s.commands| && s.commands[i].session == s.commands[j].session
    requires Count(s.commands[..j], s.commands[j].session) < Width - 1
    ensures 1 <= s.commands[i].tid < s.commands[j].tid
  {
    RunKeepsInv(es);
    NumberedAt(s.commands, i);
    NumberedAt(s.commands, j);
    CountGrows(s.commands, i, j, s.commands[j].session);
    TidBeforeWrap(Count(s.commands[..i], s.commands[i].session));
    TidBeforeWrap(Count(s.commands[..j], s.commands[j].session));
  }

  /**
   * Command safety. In every run, before the counter wraps: a command is never completed by an
   * indication, and never by the reply to another command of the same session, however late it comes.
   */
  lemma CompletedByItsOwnReply(es: seq<Event>, s: State, k: nat)
    requires Possible(es) && s == Run(es) && k < |s.completed|
    requires s.completed[k].command < |s.commands| ==>
               var c := s.completed[k].command; Count(s.commands[..c], s.commands[c].session) < Width - 1
    ensures var done := s.completed[k];
            && done.command < |s.commands| && done.answer.Reply? && done.answer.command <= done.command
            && (s.commands[done.answer.command].session == s.commands[done.command].session ==>
                done.answer.command == done.command)
  {
    RunKeepsInv(es);
    var done := s.completed[k];
    assert Matched(s, done);
    NumberedAt(s.commands, done.command);
    TidBeforeWrap(Count(s.commands[..done.command], s.commands[done.command].session));
    if done.answer.Reply? && done.answer.command < done.command
      && s.commands[done.answer.command].session == s.commands[done.command].session
    {
      IdsIncrease(es, s, done.answer.command, done.command);
    }
  }

  /**
   * Why the session matters: while a command is waited for, the reply to an earlier one is taken for
   * its own exactly when both have the same place in their sessions, so only after a re-opening.
   */
  lemma LateReplyTakenIff(es: seq<Event>, s: State, i: nat, j: nat)
    requires Possible(es) && s == Run(es) && s.request == Some(j) && i < j && s.response.None?
    requires j < |s.commands| ==> Count(s.commands[..j], s.commands[j].session) < Width - 1
    requires j < |s.commands| ==> Count(s.commands[..i], s.commands[i].session) < Width - 1
    ensures j < |s.commands|
    ensures Step(s, Receive(Reply(i))).response == Some(Reply(i)) <==>
              Count(s.commands[..i], s.commands[i].session) == Count(s.commands[..j], s.commands[j].session)
    ensures Step(s, Receive(Reply(i))).response == Some(Reply(i)) ==> s.commands[i].session < s.commands[j].session
  {
    RunKeepsInv(es);
    NumberedAt(s.commands, i);
    NumberedAt(s.commands, j);
    TidBeforeWrap(Count(s.commands[..i], s.commands[i].session));
    TidBeforeWrap(Count(s.commands[..j], s.commands[j].session));
    if s.commands[i].session == s.commands[j].session {
      CountGrows(s.commands, i, j, s.commands[j].session);
    }
  }

  lemma Extend(es: seq<Event>, e: Event)
    requires Possible(es) && Enabled(Run(es), e)
    ensures Possible(es + [e]) && Run(es + [e]) == Step(Run(es), e)
  {
    assert (es + [e])[..|es + [e]| - 1] == es;
  }

  /** And it happens: a reply to the first session's first command completes the second session's. */
  lemma StaleReplyAfterReopening()
    ensures exists es :: Possible(es) && Run(es).completed == [Completion(1, Reply(0))]
  {
    var es: seq<Event> := [];
    Extend(es, Open);
    es := es + [Open];
    Extend(es, Send(true));
    es := es + [Send(true)];
    Extend(es, Wake(true));
    es := es + [Wake(true)];
    assert Run(es) == State(1, 2, [Command(1, 1)], None, None, []);
    Extend(es, Open);
    es := es + [Open];
    Extend(es, Send(true));
    es := es + [Send(true)];
    Extend(es, Receive(Reply(0)));
    es := es + [Receive(Reply(0))];
    Extend(es, Wake(false));
    es := es + [Wake(false)];
  }
}
