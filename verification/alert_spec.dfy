/** Operational alerts: raised and resolved by a periodic check, resolved by hand, overtaken by pings. */
module AlertSpec {
  import opened Wrappers

  type Id = nat

  datatype Kind = HostStale | HostDown | EndpointStale | BacklogHigh | Recovered | ChangeFailed | AgentStarted

  datatype Alert = Alert(host: Option<Id>, kind: Kind, resolved: bool)

  /** `name` is the place of the host's name in the database's collation. */
  datatype Host = Host(created: int, lastPing: Option<int>, name: nat, agentVersion: string)

  datatype Db = Db(hosts: map<Id, Host>, alerts: seq<Alert>)

  /** What a check is configured with, and what it reads besides the hosts. */
  datatype Reading = Reading(
    now: int,
    staleSeconds: int,
    listedEndpoints: seq<Id>,       // the host of each stale endpoint listed
    staleEndpointHosts: set<Id>,    // every host with a stale endpoint
    backlog: int, backlogThreshold: int)

  predicate Operational(k: Kind) { k == HostStale || k == HostDown || k == EndpointStale || k == BacklogHigh }

  predicate Matches(a: Alert, h: Option<Id>, k: Kind) { a.host == h && a.kind == k && !a.resolved }

  /** An unresolved alert for the host and kind exists. */
  predicate Open(alerts: seq<Alert>, h: Option<Id>, k: Kind) {
    alerts != [] && (Matches(alerts[|alerts| - 1], h, k) || Open(alerts[..|alerts| - 1], h, k))
  }

  /** How many there are. */
  function OpenCount(alerts: seq<Alert>, h: Option<Id>, k: Kind): nat {
    if alerts == [] then 0
    else OpenCount(alerts[..|alerts| - 1], h, k) + if Matches(alerts[|alerts| - 1], h, k) then 1 else 0
  }

  // ---- Statements -----------------------------------------------------------------------------

  function OpenOnce(alerts: seq<Alert>, h: Option<Id>, k: Kind): seq<Alert> {
    if Open(alerts, h, k) then alerts else alerts + [Alert(h, k, false)]
  }

  predicate Selected(a: Alert, hosts: set<Option<Id>>, kinds: set<Kind>) {
    a.host in hosts && a.kind in kinds
  }

  function Resolve(alerts: seq<Alert>, hosts: set<Option<Id>>, kinds: set<Kind>): (r: seq<Alert>) {
    if alerts == [] then []
    else
      var a := alerts[|alerts| - 1];
      Resolve(alerts[..|alerts| - 1], hosts, kinds) + [if Selected(a, hosts, kinds) then a.(resolved := true) else a]
  }

  function Threshold(staleSeconds: int): int { if staleSeconds <= 0 then 120 else staleSeconds }

  /** No ping within the threshold: a host that never pinged is stale from the start. */
  predicate Stale(h: Host, r: Reading) {
    h.lastPing.None? || h.lastPing.value < r.now - Threshold(r.staleSeconds)
  }

  /** Since its last ping, or since it was created. */
  function Silence(h: Host, r: Reading): int {
    r.now - if h.lastPing.Some? then h.lastPing.value else h.created
  }

  predicate Down(h: Host, r: Reading) {
    Silence(h, r) >= r.staleSeconds * 5
  }

  /** `a` comes before `b` in the listing of stale hosts. */
  predicate Older(a: Host, b: Host) {
    || (b.lastPing.Some? && (a.lastPing.None? || a.lastPing.value < b.lastPing.value))
    || (a.lastPing == b.lastPing && a.name < b.name)
  }

  const Limit: nat := 100

  /** Distinct stale hosts in order; one is left out only when the list is full of hosts not after it. */
  ghost predicate Listing(hosts: map<Id, Host>, r: Reading, list: seq<Id>) {
    && |list| <= Limit
    && (forall i, j :: 0 <= i < j < |list| ==> list[i] != list[j])
    && (forall h :: h in list ==> h in hosts && Stale(hosts[h], r))
    && (forall i, j :: 0 <= i < j < |list| && list[i] in hosts && list[j] in hosts ==>
          !Older(hosts[list[j]], hosts[list[i]]))
    && (forall h :: h in hosts && Stale(hosts[h], r) && h !in list ==>
          |list| == Limit && forall l :: l in list && l in hosts ==> !Older(hosts[h], hosts[l]))
  }

  function Escalate(alerts: seq<Alert>, h: Id, down: bool): seq<Alert> {
    if down then OpenOnce(Resolve(alerts, {Some(h)}, {HostStale}), Some(h), HostDown)
    else OpenOnce(Resolve(alerts, {Some(h)}, {HostDown}), Some(h), HostStale)
  }

  function EscalateAll(db: Db, r: Reading, list: seq<Id>): seq<Alert> {
    if list == [] then db.alerts
    else
      var h := list[|list| - 1];
      Escalate(EscalateAll(db, r, list[..|list| - 1]), h, h in db.hosts && Down(db.hosts[h], r))
  }

  /** Hosts that pinged within the threshold. */
  function Fresh(db: Db, r: Reading): set<Option<Id>> {
    set h | h in db.hosts && !Stale(db.hosts[h], r) :: Some(h)
  }

  function RaiseEndpoints(alerts: seq<Alert>, listed: seq<Id>): seq<Alert> {
    if listed == [] then alerts
    else OpenOnce(RaiseEndpoints(alerts, listed[..|listed| - 1]), Some(listed[|listed| - 1]), EndpointStale)
  }

  /** Hosts with an alert about endpoints but no stale endpoint. */
  function EndpointsRecovered(alerts: seq<Alert>, r: Reading): set<Option<Id>> {
    set a | a in alerts && a.host.Some? && a.host.value !in r.staleEndpointHosts :: a.host
  }

  function Backlog(alerts: seq<Alert>, r: Reading): seq<Alert> {
    if r.backlogThreshold > 0 && r.backlog >= r.backlogThreshold then OpenOnce(alerts, None, BacklogHigh)
    else Resolve(alerts, Everyone(alerts), {BacklogHigh})
  }

  function Everyone(alerts: seq<Alert>): set<Option<Id>> { set a | a in alerts :: a.host }

  function Check(db: Db, r: Reading, list: seq<Id>): Db {
    var hostsDone := Resolve(EscalateAll(db, r, list), Fresh(db, r), {HostStale, HostDown});
    var raised := RaiseEndpoints(hostsDone, r.listedEndpoints);
    var endpointsDone := Resolve(raised, EndpointsRecovered(raised, r), {EndpointStale});
    db.(alerts := Backlog(endpointsDone, r))
  }

  // ---- What each statement does ------------------------------------------------------------------

  lemma {:induction false} OpenIsPositive(alerts: seq<Alert>, h: Option<Id>, k: Kind)
    ensures Open(alerts, h, k) <==> OpenCount(alerts, h, k) > 0
  {
    if alerts != [] {
      OpenIsPositive(alerts[..|alerts| - 1], h, k);
    }
  }

  lemma OpenOnceCounts(alerts: seq<Alert>, h: Option<Id>, k: Kind, h': Option<Id>, k': Kind)
    ensures OpenCount(OpenOnce(alerts, h, k), h', k')
         == if h == h' && k == k' && OpenCount(alerts, h, k) == 0 then 1 else OpenCount(alerts, h', k')
  {
    OpenIsPositive(alerts, h, k);
    var longer := alerts + [Alert(h, k, false)];
    assert longer[..|longer| - 1] == alerts;
  }

  lemma {:induction false} ResolveCounts(alerts: seq<Alert>, hosts: set<Option<Id>>, kinds: set<Kind>, h: Option<Id>,
      k: Kind)
    ensures |Resolve(alerts, hosts, kinds)| == |alerts|
    ensures OpenCount(Resolve(alerts, hosts, kinds), h, k) == if h in hosts && k in kinds then 0
            else OpenCount(alerts, h, k)
  {
    if alerts != [] {
      var front, r := alerts[..|alerts| - 1], Resolve(alerts, hosts, kinds);
      ResolveCounts(front, hosts, kinds, h, k);
      assert r[..|r| - 1] == Resolve(front, hosts, kinds);
    }
  }

  lemma {:induction false} OpenHostIsThere(alerts: seq<Alert>, h: Option<Id>, k: Kind)
    requires OpenCount(alerts, h, k) > 0
    ensures h in Everyone(alerts)
    ensures h.Some? ==> exists a :: a in alerts && a.host == h
  {
    var n := |alerts| - 1;
    if Matches(alerts[n], h, k) {
      assert alerts[n] in alerts;
    } else {
      OpenHostIsThere(alerts[..n], h, k);
      assert forall a :: a in alerts[..n] ==> a in alerts;
    }
  }

  /** Down or merely stale, a listed host gets the one alert and loses the other. */
  lemma EscalateCounts(alerts: seq<Alert>, h: Id, down: bool, h': Option<Id>, k: Kind)
    ensures var now := OpenCount(Escalate(alerts, h, down), h', k);
            var was := OpenCount(alerts, h', k);
            now == if h' != Some(h) || (k != HostStale && k != HostDown) then was
                   else if (k == HostDown) == down then (if was == 0 then 1 else was)
                   else 0
  {
    var mid := Resolve(alerts, {Some(h)}, {if down then HostStale else HostDown});
    ResolveCounts(alerts, {Some(h)}, {if down then HostStale else HostDown}, h', k);
    OpenOnceCounts(mid, Some(h), if down then HostDown else HostStale, h', k);
  }

  lemma {:induction false} EscalateAllCounts(db: Db, r: Reading, list: seq<Id>, h': Option<Id>, k: Kind)
    requires forall i, j :: 0 <= i < j < |list| ==> list[i] != list[j]
    requires forall h :: h in list ==> h in db.hosts
    ensures var now := OpenCount(EscalateAll(db, r, list), h', k);
            var was := OpenCount(db.alerts, h', k);
            now == if h'.None? || h'.value !in list || (k != HostStale && k != HostDown) then was
                   else if (k == HostDown) == Down(db.hosts[h'.value], r) then (if was == 0 then 1 else was)
                   else 0
    decreases |list|
  {
    if list != [] {
      var front, h := list[..|list| - 1], list[|list| - 1];
      assert list == front + [h];
      EscalateAllCounts(db, r, front, h', k);
      EscalateCounts(EscalateAll(db, r, front), h, Down(db.hosts[h], r), h', k);
    }
  }

  lemma {:induction false} RaiseEndpointsCounts(alerts: seq<Alert>, listed: seq<Id>, h': Option<Id>, k: Kind)
    ensures OpenCount(RaiseEndpoints(alerts, listed), h', k)
         == if k == EndpointStale && h'.Some? && h'.value in listed && OpenCount(alerts, h', k) == 0 then 1
            else OpenCount(alerts, h', k)
    decreases |listed|
  {
    if listed != [] {
      var front, h := listed[..|listed| - 1], listed[|listed| - 1];
      assert listed == front + [h];
      RaiseEndpointsCounts(alerts, front, h', k);
      OpenOnceCounts(RaiseEndpoints(alerts, front), Some(h), EndpointStale, h', k);
    }
  }

  /** The check does not touch an alert of another sort. */
  lemma BacklogCounts(alerts: seq<Alert>, r: Reading, h: Option<Id>, k: Kind)
    ensures OpenCount(Backlog(alerts, r), h, k)
         == if k != BacklogHigh then OpenCount(alerts, h, k)
            else if r.backlogThreshold <= 0 || r.backlog < r.backlogThreshold then 0
            else if h.None? && OpenCount(alerts, h, k) == 0 then 1
            else OpenCount(alerts, h, k)
  {
    OpenOnceCounts(alerts, None, BacklogHigh, h, k);
    ResolveCounts(alerts, Everyone(alerts), {BacklogHigh}, h, k);
    if OpenCount(alerts, h, k) > 0 {
      OpenHostIsThere(alerts, h, k);
    }
  }

  lemma EndpointsCounts(alerts: seq<Alert>, r: Reading, h: Option<Id>, k: Kind)
    ensures OpenCount(Resolve(alerts, EndpointsRecovered(alerts, r), {EndpointStale}), h, k)
         == if k == EndpointStale && h.Some? && h.value !in r.staleEndpointHosts then 0 else OpenCount(alerts, h, k)
  {
    ResolveCounts(alerts, EndpointsRecovered(alerts, r), {EndpointStale}, h, k);
    if OpenCount(alerts, h, k) > 0 {
      OpenHostIsThere(alerts, h, k);
    }
  }

  function HostCount(db: Db, r: Reading, list: seq<Id>, h: Option<Id>, k: Kind): nat {
    var was := OpenCount(db.alerts, h, k);
    if h.None? || h.value !in db.hosts then was
    else if !Stale(db.hosts[h.value], r) then 0
    else if h.value !in list then was
    else if (k == HostDown) != Down(db.hosts[h.value], r) then 0
    else if was == 0 then 1 else was
  }

  function EndpointCount(db: Db, r: Reading, h: Option<Id>): nat {
    var was := OpenCount(db.alerts, h, EndpointStale);
    if h.None? then was
    else if h.value !in r.staleEndpointHosts then 0
    else if h.value in r.listedEndpoints && was == 0 then 1 else was
  }

  /** The part of a check that looks at the hosts. */
  lemma HostsDoneCounts(db: Db, r: Reading, list: seq<Id>, h: Option<Id>, k: Kind)
    requires Listing(db.hosts, r, list)
    ensures OpenCount(Resolve(EscalateAll(db, r, list), Fresh(db, r), {HostStale, HostDown}), h, k)
         == if k == HostStale || k == HostDown then HostCount(db, r, list, h, k) else OpenCount(db.alerts, h, k)
  {
    EscalateAllCounts(db, r, list, h, k);
    ResolveCounts(EscalateAll(db, r, list), Fresh(db, r), {HostStale, HostDown}, h, k);
  }

  /** A whole check, for every host and kind. */
  lemma CheckCounts(db: Db, r: Reading, list: seq<Id>, h: Option<Id>, k: Kind)
    requires Listing(db.hosts, r, list) && forall e :: e in r.listedEndpoints ==> e in r.staleEndpointHosts
    ensures OpenCount(Check(db, r, list).alerts, h, k) == match k
            case HostStale => HostCount(db, r, list, h, k)
            case HostDown => HostCount(db, r, list, h, k)
            case EndpointStale => EndpointCount(db, r, h)
            case BacklogHigh => OpenCount(Backlog(db.alerts, r), h, k)
            case _ => OpenCount(db.alerts, h, k)
  {
    var escalated := EscalateAll(db, r, list);
    var hostsDone := Resolve(escalated, Fresh(db, r), {HostStale, HostDown});
    var raised := RaiseEndpoints(hostsDone, r.listedEndpoints);
    var endpointsDone := Resolve(raised, EndpointsRecovered(raised, r), {EndpointStale});
    HostsDoneCounts(db, r, list, h, k);
    RaiseEndpointsCounts(hostsDone, r.listedEndpoints, h, k);
    EndpointsCounts(raised, r, h, k);
    BacklogCounts(endpointsDone, r, h, k);
    BacklogCounts(db.alerts, r, h, k);
  }

  // ---- Runs -----------------------------------------------------------------------------------------

  datatype Event =
    | Enrolled(host: Id, now: int, name: nat)
    | Pinged(host: Id, now: int, version: string, failedChanges: nat)
    | ResolvedByHand(ids: seq<nat>)
    | Checked(r: Reading, list: seq<Id>)

  ghost predicate Enabled(db: Db, e: Event) {
    match e
    case Enrolled(h, _, _) => h !in db.hosts
    case Checked(r, list) =>
      Listing(db.hosts, r, list) && forall e :: e in r.listedEndpoints ==> e in r.staleEndpointHosts
    case _ => true
  }

  function Failures(alerts: seq<Alert>, h: Id, n: nat): seq<Alert> {
    if n == 0 then alerts else Failures(alerts, h, n - 1) + [Alert(Some(h), ChangeFailed, false)]
  }

  function ByHand(alerts: seq<Alert>, ids: seq<nat>, n: nat): (r: seq<Alert>)
    requires n <= |alerts|
    ensures |r| == n
  {
    if n == 0 then []
    else ByHand(alerts, ids, n - 1) + [if n - 1 in ids then alerts[n - 1].(resolved := true) else alerts[n - 1]]
  }

  /** The ping's time and the agent's version are recorded before anything else. */
  function Recorded(db: Db, h: Id, now: int, version: string): map<Id, Host> {
    if h in db.hosts then db.hosts[h := db.hosts[h].(lastPing := Some(now), agentVersion := version)] else db.hosts
  }

  /** Notes that are resolved at birth: a recovery, and an agent whose version is not the recorded one. */
  function Notes(hosts: map<Id, Host>, alerts: seq<Alert>, h: Id, version: string): seq<Alert> {
    if h !in hosts then []
    else
      (if Open(alerts, Some(h), HostStale) || Open(alerts, Some(h), HostDown) then [Alert(Some(h), Recovered, true)]
          else [])
      + (if hosts[h].agentVersion != version then [Alert(Some(h), AgentStarted, true)] else [])
  }

  /** A ping records itself, reports failed changes, and leaves its notes. */
  function Ping(db: Db, h: Id, now: int, version: string, failed: nat): Db {
    var hosts, alerts := Recorded(db, h, now, version), Failures(db.alerts, h, failed);
    Db(hosts, alerts + Notes(hosts, alerts, h, version))
  }

  function Step(db: Db, e: Event): Db {
    match e
    case Enrolled(h, now, name) => db.(hosts := db.hosts[h := Host(now, None, name, "")])
    case Pinged(h, now, version, failed) => Ping(db, h, now, version, failed)
    case ResolvedByHand(ids) => db.(alerts := ByHand(db.alerts, ids, |db.alerts|))
    case Checked(r, list) => Check(db, r, list)
  }

  ghost predicate Possible(es: seq<Event>)
    decreases |es|, 0
  {
    es == [] || (Possible(es[..|es| - 1]) && Enabled(Run(es[..|es| - 1]), es[|es| - 1]))
  }

  ghost function Run(es: seq<Event>): Db
    requires Possible(es)
    decreases |es|, 1
  {
    if es == [] then Db(map[], []) else Step(Run(es[..|es| - 1]), es[|es| - 1])
  }

  /** At most one open alert for each host and operational kind; host alerts are about known hosts. */
  ghost predicate Inv(db: Db) {
    && (forall h, k :: Operational(k) ==> OpenCount(db.alerts, h, k) <= 1)
    && (forall h, k :: (k == HostStale || k == HostDown) && OpenCount(db.alerts, h, k) > 0 ==>
        h.Some? && h.value in db.hosts)
    && (forall h: Option<Id> :: h.Some? ==> OpenCount(db.alerts, h, BacklogHigh) == 0)
    && OpenCount(db.alerts, None, EndpointStale) == 0
  }

  lemma {:induction false} FailuresCount(alerts: seq<Alert>, h: Id, n: nat, h': Option<Id>, k: Kind)
    requires k != ChangeFailed
    ensures OpenCount(Failures(alerts, h, n), h', k) == OpenCount(alerts, h', k)
  {
    if n > 0 {
      FailuresCount(alerts, h, n - 1, h', k);
      var longer := Failures(alerts, h, n);
      assert longer[..|longer| - 1] == Failures(alerts, h, n - 1);
    }
  }

  lemma {:induction false} ByHandCounts(alerts: seq<Alert>, ids: seq<nat>, n: nat, h: Option<Id>, k: Kind)
    requires n <= |alerts|
    ensures OpenCount(ByHand(alerts, ids, n), h, k) <= OpenCount(alerts[..n], h, k)
  {
    if n > 0 {
      ByHandCounts(alerts, ids, n - 1, h, k);
      assert alerts[..n][..n - 1] == alerts[..n - 1];
      var r := ByHand(alerts, ids, n);
      assert r[..n - 1] == ByHand(alerts, ids, n - 1);
    }
  }

  lemma {:induction false} ClosedNotesCount(alerts: seq<Alert>, notes: seq<Alert>, h: Option<Id>, k: Kind)
    requires forall n :: n in notes ==> n.resolved
    ensures OpenCount(alerts + notes, h, k) == OpenCount(alerts, h, k)
    decreases |notes|
  {
    if notes == [] {
      assert alerts + notes == alerts;
    } else {
      assert (alerts + notes)[..|alerts + notes| - 1] == alerts + notes[..|notes| - 1];
      assert notes[|notes| - 1] in notes;
      ClosedNotesCount(alerts, notes[..|notes| - 1], h, k);
    }
  }

  lemma PingCounts(db: Db, h: Id, now: int, version: string, failed: nat, h': Option<Id>, k: Kind)
    requires k != ChangeFailed
    ensures OpenCount(Ping(db, h, now, version, failed).alerts, h', k) == OpenCount(db.alerts, h', k)
  {
    FailuresCount(db.alerts, h, failed, h', k);
    var alerts := Failures(db.alerts, h, failed);
    ClosedNotesCount(alerts, Notes(Recorded(db, h, now, version), alerts, h, version), h', k);
  }

  /**
   * The note about a new agent version is never written: the version is recorded before it is compared.
   */
  lemma AgentStartedIsNeverNoted(db: Db, h: Id, now: int, version: string, failed: nat, a: Alert)
    requires a.kind == AgentStarted
    ensures a in Ping(db, h, now, version, failed).alerts <==> a in db.alerts
  {
    FailuresAre(db.alerts, h, failed, a);
  }

  lemma {:induction false} FailuresAre(alerts: seq<Alert>, h: Id, n: nat, a: Alert)
    requires a.kind != ChangeFailed
    ensures a in Failures(alerts, h, n) <==> a in alerts
  {
    if n > 0 {
      FailuresAre(alerts, h, n - 1, a);
    }
  }

  lemma StepCounts(db: Db, e: Event, h: Option<Id>, k: Kind)
    requires Inv(db) && Enabled(db, e) && Operational(k)
    ensures var now := OpenCount(Step(db, e).alerts, h, k);
            && now <= 1
            && (k == HostStale || k == HostDown ==> now > 0 ==> h.Some? && h.value in Step(db, e).hosts)
            && (k == BacklogHigh && h.Some? ==> now == 0)
            && (k == EndpointStale && h.None? ==> now == 0)
  {
    match e
    case Enrolled(_, _, _) =>
    case Pinged(p, now, version, failed) => PingCounts(db, p, now, version, failed, h, k);
    case ResolvedByHand(ids) =>
      ByHandCounts(db.alerts, ids, |db.alerts|, h, k);
      assert db.alerts[..|db.alerts|] == db.alerts;
    case Checked(r, list) =>
      CheckCounts(db, r, list, h, k);
      BacklogCounts(db.alerts, r, h, k);
  }

  lemma StepKeepsInv(db: Db, e: Event)
    requires Inv(db) && Enabled(db, e)
    ensures Inv(Step(db, e))
  {
    forall h, k: Kind | Operational(k) ensures OpenCount(Step(db, e).alerts, h, k) <= 1 {
      StepCounts(db, e, h, k);
    }
    forall h, k: Kind | (k == HostStale || k == HostDown) && OpenCount(Step(db, e).alerts, h, k) > 0
      ensures h.Some? && h.value in Step(db, e).hosts
    {
      StepCounts(db, e, h, k);
    }
    forall h: Option<Id> | h.Some? ensures OpenCount(Step(db, e).alerts, h, BacklogHigh) == 0 {
      StepCounts(db, e, h, BacklogHigh);
    }
    StepCounts(db, e, None, EndpointStale);
  }

  /** In every run at most one alert is open for each host and operational kind. */
  lemma {:induction false} AtMostOneOpen(es: seq<Event>)
    requires Possible(es)
    ensures Inv(Run(es))
    decreases |es|
  {
    if es != [] {
      AtMostOneOpen(es[..|es| - 1]);
      StepKeepsInv(Run(es[..|es| - 1]), es[|es| - 1]);
    }
  }

  /** The tables after some possible run. */
  ghost predicate Reachable(db: Db) {
    exists es :: Possible(es) && db == Run(es)
  }

  ghost predicate AllListed(db: Db, r: Reading, list: seq<Id>) {
    Listing(db.hosts, r, list) && forall h :: h in db.hosts && Stale(db.hosts[h], r) ==> h in list
  }

  function StaleHosts(hosts: map<Id, Host>, r: Reading): set<Id> {
    set h | h in hosts && Stale(hosts[h], r)
  }

  function Members(list: seq<Id>): set<Id> { set h | h in list }

  lemma {:induction false} DistinctMembers(list: seq<Id>)
    requires forall i, j :: 0 <= i < j < |list| ==> list[i] != list[j]
    ensures |Members(list)| == |list|
  {
    if list != [] {
      var front, last := list[..|list| - 1], list[|list| - 1];
      assert list == front + [last];
      DistinctMembers(front);
      assert Members(list) == Members(front) + {last};
    }
  }

  lemma SubsetOfSameSize(a: set<Id>, b: set<Id>)
    requires a <= b && |a| >= |b|
    ensures a == b
  {
    assert |b - a| == |b| - |a|;
  }

  /** Up to the limit, every stale host is listed. */
  lemma ListingIsComplete(db: Db, r: Reading, list: seq<Id>)
    requires Listing(db.hosts, r, list) && |StaleHosts(db.hosts, r)| <= Limit
    ensures AllListed(db, r, list)
  {
    DistinctMembers(list);
    if |list| == Limit {
      SubsetOfSameSize(Members(list), StaleHosts(db.hosts, r));
      forall h | h in db.hosts && Stale(db.hosts[h], r) ensures h in list {
        assert h in StaleHosts(db.hosts, r);
      }
    }
  }

  /** The listing: hosts that never pinged first, then by last ping, and by name where that is equal. */
  lemma ListingOrder(hosts: map<Id, Host>, r: Reading, list: seq<Id>, i: nat, j: nat)
    requires Listing(hosts, r, list) && i < j < |list|
    ensures list[i] in hosts && list[j] in hosts && |list| <= 100
    ensures var a, b := hosts[list[i]], hosts[list[j]];
            && (b.lastPing == None ==> a.lastPing == None)
            && (a.lastPing.Some? && b.lastPing.Some? ==> a.lastPing.value <= b.lastPing.value)
            && (a.lastPing == b.lastPing ==> a.name <= b.name)
  {
    assert list[i] in list && list[j] in list;
    assert !Older(hosts[list[j]], hosts[list[i]]);
  }

  /** Resolving by hand resolves exactly the alerts named. */
  lemma {:induction false} ByHandResolves(alerts: seq<Alert>, ids: seq<nat>, n: nat)
    requires n <= |alerts|
    ensures forall i :: 0 <= i < n ==>
              && ByHand(alerts, ids, n)[i].host == alerts[i].host && ByHand(alerts, ids, n)[i].kind == alerts[i].kind
              && (ByHand(alerts, ids, n)[i].resolved <==> alerts[i].resolved || i in ids)
  {
    if n > 0 {
      ByHandResolves(alerts, ids, n - 1);
    }
  }

  /**
   * Escalation. In every run, right after a check with at most 100 stale hosts: each known host has
   * the "down" alert open exactly when it is stale and has been silent for five thresholds, the
   * "stale" alert exactly when it is stale for less, and neither when it pinged within the threshold.
   */
  lemma {:induction false} EscalationIsExact(db: Db, r: Reading, list: seq<Id>, h: Id)
    requires Reachable(db) && |StaleHosts(db.hosts, r)| <= Limit && Enabled(db, Checked(r, list)) && h in db.hosts
    ensures OpenCount(Check(db, r, list).alerts, Some(h), HostDown)
         == if Stale(db.hosts[h], r) && Silence(db.hosts[h], r) >= 5 * r.staleSeconds then 1 else 0
    ensures OpenCount(Check(db, r, list).alerts, Some(h), HostStale)
         == if Stale(db.hosts[h], r) && Silence(db.hosts[h], r) < 5 * r.staleSeconds then 1 else 0
  {
    var es :| Possible(es) && db == Run(es);
    AtMostOneOpen(es);
    ListingIsComplete(db, r, list);
    CheckCounts(db, r, list, Some(h), HostDown);
    CheckCounts(db, r, list, Some(h), HostStale);
  }

  /**
   * Where the default threshold does not reach: the listing replaces a threshold that is not positive
   * by 120 seconds, but the escalation multiplies the configured one. So "down" means silent for five
   * of the thresholds that "stale" means one of, for every stale host, exactly when the configured
   * threshold is positive.
   */
  lemma EscalationMeetsThresholdIff(r: Reading)
    ensures (forall h :: Stale(h, r) ==> (Down(h, r) <==> Silence(h, r) >= 5 * Threshold(r.staleSeconds)))
       <==> r.staleSeconds > 0
  {
    if r.staleSeconds <= 0 {
      var late := Host(0, Some(r.now - 121), 0, "");
      assert Stale(late, r) && Down(late, r) && Silence(late, r) < 5 * Threshold(r.staleSeconds);
    }
  }
}
