/** The API's repository as an object, and the ping handler working on it step by step. */
module PingHandler {
  import opened Wrappers
  import opened Strings
  import opened Table
  import Store
  import Spec = PingSpec

  function Ids(s: seq<Id>): set<Id> {
    set x | x in s
  }

  class Repository {
    var hosts: map<Id, Id>
    var peers: Table<Store.PeerKey, string>
    var ifaces: Table<Store.IfaceKey, Store.IfaceData>
    var endpoints: Table<Store.EndpointKey, Store.Stats>
    var removals: seq<Store.Removal>
    var next: Id

    function Db(): Store.Db
      reads this
    {
      Store.Db(hosts, peers, ifaces, endpoints, removals, next)
    }

    constructor ()
      ensures Db() == Store.Db(map[], Table(map[], map[]), Table(map[], map[]), Table(map[], map[]), [], 0)
    {
      hosts := map[];
      peers, ifaces, endpoints := Table(map[], map[]), Table(map[], map[]), Table(map[], map[]);
      removals, next := [], 0;
    }

    method FindOrCreatePeer(org: Id, publicKey: string, name: string) returns (id: Id)
      modifies this
      ensures (Db(), id) == Store.FindOrCreatePeer(old(Db()), Store.PeerKey(org, publicKey), name)
    {
      var key := Store.PeerKey(org, publicKey);
      if key in peers.index {
        return peers.index[key];
      }
      id := next;
      peers, next := Insert(peers, id, key, name), next + 1;
    }

    method FindOrCreateInterface(key: Store.IfaceKey, data: Store.IfaceData) returns (id: Id)
      modifies this
      ensures (Db(), id) == Store.FindOrCreateIface(old(Db()), key, data)
    {
      if key in ifaces.index {
        id := ifaces.index[key];
        ifaces := Update(ifaces, id, data);
      } else {
        id := next;
        ifaces, next := Insert(ifaces, id, key, data), next + 1;
      }
    }

    method UpsertEndpoint(iface: Id, peer: Id, stats: Store.Stats)
      modifies this
      ensures Db() == Store.UpsertEndpoint(old(Db()), Store.EndpointKey(iface, peer), stats)
    {
      var key := Store.EndpointKey(iface, peer);
      if key in endpoints.index {
        endpoints := Update(endpoints, endpoints.index[key], stats);
      } else {
        endpoints, next := Insert(endpoints, next, key, stats), next + 1;
      }
    }

    /** The two branches of the deletion agree: an empty list keeps nothing of the interface. */
    method SyncInterfacePeers(iface: Id, active: seq<Id>)
      modifies this
      ensures Db() == Store.SyncInterfacePeers(old(Db()), iface, Ids(active))
    {
      var kept: set<Id>;
      if |active| == 0 {
        kept := set e | e in endpoints.rows && endpoints.rows[e].key.iface != iface;
      } else {
        kept := set e | e in endpoints.rows &&
            (endpoints.rows[e].key.iface != iface || endpoints.rows[e].key.peer in active);
      }
      assert kept == Store.Surviving(Db(), iface, Ids(active));
      endpoints := Keep(endpoints, kept);
      peers := Keep(peers, Store.ReferencedPeers(Db()));
    }

    method HasPendingRemovePeer(host: Id, publicKey: string) returns (found: bool)
      ensures found == Store.HasPendingRemovePeer(Db(), host, publicKey)
    {
      found := false;
      for i := 0 to |removals|
        invariant !found
        invariant forall j :: 0 <= j < i ==>
          !(removals[j].host == host && removals[j].publicKey == publicKey && removals[j].pending)
      {
        if removals[i].host == host && removals[i].publicKey == publicKey && removals[i].pending {
          assert removals[i] in Db().removals;
          return true;
        }
      }
    }

    method MarkChangeExecuted(id: nat)
      modifies this
      ensures Db() == old(Db()).(removals := Spec.MarkRemoval(old(removals), id))
    {
      if id < |removals| {
        removals := removals[id := removals[id].(pending := false)];
      }
    }

    /** Collects the peer's connections, asks each of their hosts to remove it, then deletes it. */
    method DeletePeer(p: Id)
      modifies this
      ensures Db() == Store.DeletePeer(old(Db()), p)
    {
      var connections: seq<Store.Removal> := [];
      for e := 0 to next
        invariant Db() == old(Db()) && connections == Store.RemovalsFor(Db(), p, e)
      {
        if e in endpoints.rows && endpoints.rows[e].key.peer == p && endpoints.rows[e].key.iface in ifaces.rows &&
            p in peers.rows {
          var k := ifaces.rows[endpoints.rows[e].key.iface].key;
          connections := connections + [Store.Removal(k.host, k.name, peers.rows[p].key.publicKey, true)];
        } else {
          assert Store.RemovalOf(Db(), p, e) == [];
        }
      }
      for i := 0 to |connections|
        invariant Db() == old(Db()).(removals := old(removals) + connections[..i])
      {
        removals := removals + [connections[i]];
      }
      ghost var was := old(Db());
      var keptIfaces := set i | i in ifaces.rows && ifaces.rows[i].value.peer != p;
      var keptEndpoints := set e | e in endpoints.rows && endpoints.rows[e].key.peer != p &&
          endpoints.rows[e].key.iface in keptIfaces;
      assert keptIfaces == Store.IfacesNotOf(was, p);
      assert keptEndpoints == Store.EndpointsNotOf(was, p);
      peers := Keep(peers, peers.rows.Keys - {p});
      ifaces := Keep(ifaces, keptIfaces);
      endpoints := Keep(endpoints, keptEndpoints);
    }

    /** The handler: take the reports, find the host, reconcile every interface reported with a key. */
    method Ping(host: Id, req: Spec.Request) returns (known: bool)
      modifies this
      ensures Db() == Spec.Ping(old(Db()), host, req)
      ensures known == (host in old(hosts))
    {
      for i := 0 to |req.executed|
        invariant Db() == old(Db()).(removals := Spec.MarkRemovals(old(removals), req.executed[..i]))
      {
        assert req.executed[..i + 1][..i] == req.executed[..i];
        MarkChangeExecuted(req.executed[i]);
      }
      assert req.executed[..|req.executed|] == req.executed;
      if host !in hosts {
        return false;
      }
      known := true;
      ghost var marked := Db();
      var org := hosts[host];
      for i := 0 to |req.ifaces|
        invariant Db() == Spec.Reconcile(marked, host, org, req.ifaces[..i])
      {
        assert req.ifaces[..i + 1][..i] == req.ifaces[..i];
        if req.ifaces[i].publicKey == "" {
          continue;
        }
        ReconcileInterface(host, org, req.ifaces[i]);
      }
      assert req.ifaces[..|req.ifaces|] == req.ifaces;
    }

    /** One round of the outer loop. */
    method ReconcileInterface(host: Id, org: Id, r: Spec.ReportedIface)
      requires r.publicKey != ""
      modifies this
      ensures Db() == Spec.ReconcileIface(old(Db()), host, org, r)
    {
      var own := FindOrCreatePeer(org, r.publicKey, Spec.PeerName(r.publicKey));
      var iface := FindOrCreateInterface(Store.IfaceKey(host, r.name), Store.IfaceData(own, r.config));
      ghost var before := Db();
      var active: seq<Id> := [];
      assert Ids(active) == {};
      for j := 0 to |r.peers|
        invariant (Db(), Ids(active)) == Spec.UpsertPeers(before, host, org, iface, r.peers[..j])
      {
        assert r.peers[..j + 1][..j] == r.peers[..j];
        var p := r.peers[j];
        if p.publicKey == "" {
          continue;
        }
        var removing := HasPendingRemovePeer(host, p.publicKey);
        if removing {
          continue;
        }
        var peer := FindOrCreatePeer(org, p.publicKey, Spec.PeerName(p.publicKey));
        var lastHandshake := None;
        if p.latestHandshake > 0 {
          lastHandshake := Some(p.latestHandshake);
        }
        UpsertEndpoint(iface, peer, Store.Stats(p.ip, p.port, Join(p.allowedIps, ','), p.keepalive, p.available,
                                                lastHandshake, p.rx, p.tx));
        assert Ids(active + [peer]) == Ids(active) + {peer};
        active := active + [peer];
      }
      assert r.peers[..|r.peers|] == r.peers;
      SyncInterfacePeers(iface, active);
    }
  }
}
