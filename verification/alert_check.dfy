/** The alert tables as an object, and the periodic check working on them in loops. */
module AlertCheck {
  import opened Wrappers
  import Spec = AlertSpec

  class Alerts {
    var hosts: map<Spec.Id, Spec.Host>
    var alerts: seq<Spec.Alert>

    function Db(): Spec.Db
      reads this
    {
      Spec.Db(hosts, alerts)
    }

    constructor ()
      ensures Db() == Spec.Db(map[], [])
    {
      hosts, alerts := map[], [];
    }

    method OpenAlertExists(h: Option<Spec.Id>, k: Spec.Kind) returns (found: bool)
      ensures found == Spec.Open(alerts, h, k)
    {
      found := false;
      for i := 0 to |alerts|
        invariant found == Spec.Open(alerts[..i], h, k)
      {
        assert alerts[..i + 1][..i] == alerts[..i];
        if Spec.Matches(alerts[i], h, k) {
          found := true;
        }
      }
      assert alerts[..|alerts|] == alerts;
    }

    method CreateOpenAlertOnce(h: Option<Spec.Id>, k: Spec.Kind)
      modifies this`alerts
      ensures alerts == Spec.OpenOnce(old(alerts), h, k)
    {
      var found := OpenAlertExists(h, k);
      if !found {
        alerts := alerts + [Spec.Alert(h, k, false)];
      }
    }

    method ResolveSelected(who: set<Option<Spec.Id>>, kinds: set<Spec.Kind>)
      modifies this`alerts
      ensures alerts == Spec.Resolve(old(alerts), who, kinds)
    {
      var done: seq<Spec.Alert> := [];
      for i := 0 to |alerts|
        invariant alerts == old(alerts) && done == Spec.Resolve(alerts[..i], who, kinds)
      {
        assert alerts[..i + 1][..i] == alerts[..i];
        var a := alerts[i];
        done := done + [if Spec.Selected(a, who, kinds) then a.(resolved := true) else a];
      }
      assert alerts[..|alerts|] == alerts;
      alerts := done;
    }

    /** The host of a set that pinged longest ago, or never; among equals, the first by name. */
    method Oldest(candidates: set<Spec.Id>) returns (oldest: Spec.Id)
      requires candidates != {} && candidates <= hosts.Keys
      ensures oldest in candidates
      ensures forall h :: h in candidates ==> !Spec.Older(hosts[h], hosts[oldest])
    {
      oldest :| oldest in candidates;
      var rest := candidates - {oldest};
      while rest != {}
        invariant oldest in candidates && rest <= candidates
        invariant forall h :: h in candidates - rest ==> !Spec.Older(hosts[h], hosts[oldest])
        decreases |rest|
      {
        var h :| h in rest;
        if Spec.Older(hosts[h], hosts[oldest]) {
          oldest := h;
        }
        rest := rest - {h};
      }
    }

    /** The first hundred stale hosts, those silent longest first. */
    method ListStaleHosts(r: Spec.Reading) returns (list: seq<Spec.Id>)
      ensures Spec.Listing(hosts, r, list)
    {
      var rest := set h | h in hosts && Spec.Stale(hosts[h], r);
      list := [];
      while rest != {} && |list| < Spec.Limit
        invariant |list| <= Spec.Limit && rest <= hosts.Keys
        invariant forall i, j :: 0 <= i < j < |list| ==> list[i] != list[j]
        invariant forall h :: h in rest ==> Spec.Stale(hosts[h], r)
        invariant forall h :: h in list ==> h in hosts && Spec.Stale(hosts[h], r) && h !in rest
        invariant forall h :: h in hosts && Spec.Stale(hosts[h], r) ==> h in list || h in rest
        invariant forall h, l :: h in rest && l in list && l in hosts ==> !Spec.Older(hosts[h], hosts[l])
        invariant forall i, j :: 0 <= i < j < |list| && list[i] in hosts && list[j] in hosts ==>
                    !Spec.Older(hosts[list[j]], hosts[list[i]])
        decreases Spec.Limit - |list|
      {
        var h := Oldest(rest);
        list := list + [h];
        rest := rest - {h};
      }
    }

    method RaiseHostAlerts(r: Spec.Reading, list: seq<Spec.Id>)
      modifies this`alerts
      ensures alerts == Spec.EscalateAll(old(Db()), r, list)
    {
      for i := 0 to |list|
        invariant alerts == Spec.EscalateAll(old(Db()), r, list[..i])
      {
        assert list[..i + 1][..i] == list[..i];
        var h := list[i];
        if h in hosts && Spec.Silence(hosts[h], r) >= r.staleSeconds * 5 {
          ResolveSelected({Some(h)}, {Spec.HostStale});
          CreateOpenAlertOnce(Some(h), Spec.HostDown);
        } else {
          ResolveSelected({Some(h)}, {Spec.HostDown});
          CreateOpenAlertOnce(Some(h), Spec.HostStale);
        }
      }
      assert list[..|list|] == list;
    }

    method RaiseEndpointAlerts(listed: seq<Spec.Id>)
      modifies this`alerts
      ensures alerts == Spec.RaiseEndpoints(old(alerts), listed)
    {
      for i := 0 to |listed|
        invariant alerts == Spec.RaiseEndpoints(old(alerts), listed[..i])
      {
        assert listed[..i + 1][..i] == listed[..i];
        CreateOpenAlertOnce(Some(listed[i]), Spec.EndpointStale);
      }
      assert listed[..|listed|] == listed;
    }

    method CreateHost(h: Spec.Id, now: int, name: nat)
      requires h !in hosts
      modifies this`hosts
      ensures Db() == Spec.Step(old(Db()), Spec.Enrolled(h, now, name))
    {
      hosts := hosts[h := Spec.Host(now, None, name, "")];
    }

    /** The part of a ping that concerns alerts; `failed` changes are reported. */
    method Ping(h: Spec.Id, now: int, version: string, failed: nat)
      modifies this
      ensures Db() == Spec.Step(old(Db()), Spec.Pinged(h, now, version, failed))
    {
      if h in hosts {
        hosts := hosts[h := hosts[h].(lastPing := Some(now), agentVersion := version)];
      }
      for i := 0 to failed
        invariant hosts == Spec.Recorded(old(Db()), h, now, version) && alerts == Spec.Failures(old(alerts), h, i)
      {
        alerts := alerts + [Spec.Alert(Some(h), Spec.ChangeFailed, false)];
      }
      if h !in hosts {
        assert alerts + [] == alerts;
        return;
      }
      var stale := OpenAlertExists(Some(h), Spec.HostStale);
      var down := OpenAlertExists(Some(h), Spec.HostDown);
      var notes: seq<Spec.Alert> := [];
      if stale || down {
        notes := [Spec.Alert(Some(h), Spec.Recovered, true)];
      }
      if hosts[h].agentVersion != version {
        notes := notes + [Spec.Alert(Some(h), Spec.AgentStarted, true)];
      }
      alerts := alerts + notes;
    }

    method ResolveAlerts(ids: seq<nat>)
      modifies this`alerts
      ensures Db() == Spec.Step(old(Db()), Spec.ResolvedByHand(ids))
    {
      var done: seq<Spec.Alert> := [];
      for i := 0 to |alerts|
        invariant alerts == old(alerts) && done == Spec.ByHand(alerts, ids, i)
      {
        done := done + [if i in ids then alerts[i].(resolved := true) else alerts[i]];
      }
      alerts := done;
    }

    /** The check. */
    method RunOperationalAlertCheck(r: Spec.Reading) returns (ghost list: seq<Spec.Id>)
      modifies this`alerts
      ensures Spec.Listing(hosts, r, list) && Db() == Spec.Check(old(Db()), r, list)
    {
      var stale := ListStaleHosts(r);
      list := stale;
      RaiseHostAlerts(r, stale);
      ResolveSelected(Spec.Fresh(Db(), r), {Spec.HostStale, Spec.HostDown});
      RaiseEndpointAlerts(r.listedEndpoints);
      ResolveSelected(Spec.EndpointsRecovered(alerts, r), {Spec.EndpointStale});
      if r.backlogThreshold > 0 && r.backlog >= r.backlogThreshold {
        CreateOpenAlertOnce(None, Spec.BacklogHigh);
      } else {
        ResolveSelected(Spec.Everyone(alerts), {Spec.BacklogHigh});
      }
    }
  }
}
