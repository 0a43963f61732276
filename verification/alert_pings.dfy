/** What pings do to hosts and alerts, told by the events of a run. */
module AlertPings {
  import opened Wrappers
  import opened AlertSpec

  // ---- Hosts, told by events ---------------------------------------------------------------------

  predicate Known(es: seq<Event>, h: Id) {
    es != [] &&
    (Known(es[..|es| - 1], h) || (es[|es| - 1].Enrolled? && es[|es| - 1].host == h))
  }

  /** The host's own ping, once it is known. */
  predicate OwnPing(es: seq<Event>, e: Event, h: Id) {
    e.Pinged? && e.host == h && Known(es, h)
  }

  function LastPingOf(es: seq<Event>, h: Id): Option<int> {
    if es == [] then None
    else
      var front, e := es[..|es| - 1], es[|es| - 1];
      if OwnPing(front, e, h) then Some(e.now) else LastPingOf(front, h)
  }

  function VersionOf(es: seq<Event>, h: Id): string {
    if es == [] then ""
    else
      var front, e := es[..|es| - 1], es[|es| - 1];
      if OwnPing(front, e, h) then e.version else VersionOf(front, h)
  }

  /** When it was enrolled, and the place of its name. */
  function EnrolledAs(es: seq<Event>, h: Id): (int, nat) {
    if es == [] then (0, 0)
    else
      var e := es[|es| - 1];
      if e.Enrolled? && e.host == h then (e.now, e.name) else EnrolledAs(es[..|es| - 1], h)
  }

  /** In every run the table of hosts says when each was enrolled and what its last ping said. */
  lemma {:induction false} HostsFollowEvents(es: seq<Event>, h: Id)
    requires Possible(es)
    ensures h in Run(es).hosts <==> Known(es, h)
    ensures Known(es, h) ==>
              Run(es).hosts[h] == Host(EnrolledAs(es, h).0, LastPingOf(es, h), EnrolledAs(es, h).1, VersionOf(es, h))
    ensures !Known(es, h) ==> LastPingOf(es, h) == None && VersionOf(es, h) == ""
    decreases |es|
  {
    if es != [] {
      HostsFollowEvents(es[..|es| - 1], h);
    }
  }

  // ---- Alerts, told by events ----------------------------------------------------------------------

  function Allowed(r: Reading): int { if r.staleSeconds > 0 then r.staleSeconds else 120 }

  /** The host's last ping lies longer ago than allowed, or it never pinged. */
  predicate Overdue(es: seq<Event>, h: Id, r: Reading) {
    LastPingOf(es, h).None? || r.now - LastPingOf(es, h).value > Allowed(r)
  }

  /** How long ago it last pinged, or was enrolled. */
  function SilentFor(es: seq<Event>, h: Id, r: Reading): int {
    r.now - if LastPingOf(es, h).Some? then LastPingOf(es, h).value else EnrolledAs(es, h).0
  }

  /** A host that pinged within the time allowed has no alert about it after a check. */
  lemma PingedHostIsQuiet(es: seq<Event>, r: Reading, list: seq<Id>, h: Id)
    requires Possible(es) && Enabled(Run(es), Checked(r, list)) && Known(es, h) && !Overdue(es, h, r)
    ensures var after := Step(Run(es), Checked(r, list));
            OpenCount(after.alerts, Some(h), HostStale) == 0 && OpenCount(after.alerts, Some(h), HostDown) == 0
  {
    HostsFollowEvents(es, h);
    CheckCounts(Run(es), r, list, Some(h), HostStale);
    CheckCounts(Run(es), r, list, Some(h), HostDown);
  }

  /** If no more than 100 hosts are overdue, a check raises exactly the alert each one's silence calls for. */
  lemma AlertsFollowPings(es: seq<Event>, r: Reading, list: seq<Id>, h: Id)
    requires Possible(es) && Enabled(Run(es), Checked(r, list)) && Known(es, h)
    requires |set g | g in Run(es).hosts && Overdue(es, g, r)| <= 100
    ensures var after := Step(Run(es), Checked(r, list));
            var down := SilentFor(es, h, r) >= 5 * r.staleSeconds;
            && OpenCount(after.alerts, Some(h), HostDown) == (if Overdue(es, h, r) && down then 1 else 0)
            && OpenCount(after.alerts, Some(h), HostStale) == (if Overdue(es, h, r) && !down then 1 else 0)
  {
    forall g | g in Run(es).hosts ensures Stale(Run(es).hosts[g], r) <==> Overdue(es, g, r) {
      HostsFollowEvents(es, g);
    }
    assert StaleHosts(Run(es).hosts, r) == set g | g in Run(es).hosts && Overdue(es, g, r);
    HostsFollowEvents(es, h);
    EscalationIsExact(Run(es), r, list, h);
  }

  lemma {:induction false} FailuresAppended(alerts: seq<Alert>, h: Id, n: nat)
    ensures Failures(alerts, h, n) == alerts + seq(n, _ => Alert(Some(h), ChangeFailed, false))
  {
    if n > 0 {
      FailuresAppended(alerts, h, n - 1);
    }
  }

  /**
   * A ping adds one open alert for each failed change it reports; then, of a known host about which an
   * alert is open, one note that it recovered, resolved at birth; and nothing else. It leaves all other
   * alerts and hosts alone.
   */
  lemma PingLeaves(es: seq<Event>, h: Id, now: int, version: string, failed: nat, after: Db)
    requires Possible(es) && after == Step(Run(es), Pinged(h, now, version, failed))
    ensures var before := Run(es);
            var failures := seq(failed, _ => Alert(Some(h), ChangeFailed, false));
            var open := OpenCount(before.alerts, Some(h), HostStale) + OpenCount(before.alerts, Some(h), HostDown);
            var notes := if Known(es, h) && open > 0 then [Alert(Some(h), Recovered, true)] else [];
            after.alerts == before.alerts + failures + notes
    ensures after.hosts.Keys == Run(es).hosts.Keys
    ensures forall g :: g in after.hosts && g != h ==> after.hosts[g] == Run(es).hosts[g]
  {
    var before := Run(es);
    HostsFollowEvents(es, h);
    FailuresAppended(before.alerts, h, failed);
    forall k: Kind | k == HostStale || k == HostDown
      ensures Open(Failures(before.alerts, h, failed), Some(h), k) <==> OpenCount(before.alerts, Some(h), k) > 0
    {
      FailuresCount(before.alerts, h, failed, Some(h), k);
      OpenIsPositive(Failures(before.alerts, h, failed), Some(h), k);
    }
  }

  /** So the open alerts about failed changes of its host grow by exactly as many. */
  lemma {:induction false} FailedChangesCount(alerts: seq<Alert>, h: Id, n: nat, g: Id)
    ensures OpenCount(Failures(alerts, h, n), Some(g), ChangeFailed) ==
            OpenCount(alerts, Some(g), ChangeFailed) + if g == h then n else 0
  {
    if n > 0 {
      FailedChangesCount(alerts, h, n - 1, g);
      var longer := Failures(alerts, h, n);
      assert longer[..|longer| - 1] == Failures(alerts, h, n - 1);
    }
  }

  lemma PingRaisesFailures(db: Db, h: Id, now: int, version: string, failed: nat, g: Id)
    ensures OpenCount(Step(db, Pinged(h, now, version, failed)).alerts, Some(g), ChangeFailed) ==
            OpenCount(db.alerts, Some(g), ChangeFailed) + if g == h then failed else 0
  {
    var alerts := Failures(db.alerts, h, failed);
    FailedChangesCount(db.alerts, h, failed, g);
    ClosedNotesCount(alerts, Notes(Recorded(db, h, now, version), alerts, h, version), Some(g), ChangeFailed);
  }
}
