/** The router object on the network: what it does and sends on each occasion is a step of the network model. */
module RipRouter {
  import opened RipTable
  import opened RipNetwork
  import opened RipConvergence

  /** Router `n` sends to each of its neighbours `d` from its own address `src[d]`. */
  ghost predicate Faces(top: Topology, n: Node, router: VRouter, src: map<Addr, Addr>) {
    forall d :: d in router.ripNeighbors ==>
      d in src && (src[d], d) in top.links && src[d] in top.owner && top.owner[src[d]] == n
  }

  /** The messages as packets. */
  ghost function PacketsOf(out: seq<Message>, src: map<Addr, Addr>): set<Packet>
    requires forall m :: m in out ==> m.dest in src
  {
    set m | m in out :: Packet(src[m.dest], m.dest, m.claims)
  }

  /** All messages go to neighbours and say only what the table, or a removal, allows. */
  ghost predicate AllSaid(out: seq<Message>, router: VRouter, t: Table) {
    forall m :: m in out ==> m.dest in router.ripNeighbors && forall c :: c in m.claims ==> Said(c, t, m.dest)
  }

  lemma SaidMaySend(top: Topology, n: Node, router: VRouter, src: map<Addr, Addr>, t: Table, out: seq<Message>)
    requires Faces(top, n, router, src) && AllSaid(out, router, t)
    ensures (forall m :: m in out ==> m.dest in src) && MaySend(top, n, t, PacketsOf(out, src))
  {
    forall k | k in PacketsOf(out, src)
      ensures (k.src, k.dest) in top.links && k.src in top.owner && top.owner[k.src] == n
      ensures forall c :: c in k.claims ==> Said(c, t, k.dest)
    {
      var m :| m in out && k == Packet(src[m.dest], m.dest, m.claims);
    }
  }

  lemma TableSays(t: Table, es: seq<Entry>, dest: Addr)
    requires forall e :: e in es ==> e.cost == INFINITY || (e.prefix in t && t[e.prefix] == e && e.routeType != Static)
    ensures forall c :: c in ToClaims(es, dest) ==> Said(c, t, dest)
  {
    forall c | c in ToClaims(es, dest) ensures Said(c, t, dest) {
      var i :| 0 <= i < |es| && ToClaims(es, dest)[i] == c;
      assert es[i] in es;
    }
  }

  /** A packet arrives: the table becomes what the network model says, and the update that this triggers
      is one it allows. */
  method Hear(router: VRouter, k: Packet, now: nat, ghost top: Topology, ghost n: Node, ghost src: map<Addr, Addr>)
    returns (out: seq<Message>)
    requires Keyed(router.routingTable) && Faces(top, n, router, src)
    modifies router
    ensures Keyed(router.routingTable) && router.routingTable == After(old(router.routingTable), Heard(k, now))
    ensures (forall m :: m in out ==> m.dest in src) && MaySend(top, n, router.routingTable, PacketsOf(out, src))
    ensures Altered(old(router.routingTable), FromClaims(k.claims, k.src), now) == [] ==> out == []
  {
    var entries := FromClaims(k.claims, k.src);
    var updated;
    out, updated := router.UpdateRoutingTable(entries, now);
    assert forall e :: e in entries ==> e.routeType == Rip;
    forall m | m in out
      ensures m.dest in router.ripNeighbors && forall c :: c in m.claims ==> Said(c, router.routingTable, m.dest)
    {
      var i :| 0 <= i < |out| && out[i] == m;
      forall c | c in m.claims ensures Said(c, router.routingTable, m.dest) {
        var j :| 0 <= j < |m.claims| && m.claims[j] == c;
        assert updated[j] in updated;
      }
    }
    SaidMaySend(top, n, router, src, router.routingTable, out);
  }

  /** Entries expire. */
  method Expire(router: VRouter, before: nat, ghost top: Topology, ghost n: Node, ghost src: map<Addr, Addr>)
    returns (out: seq<Message>)
    requires Keyed(router.routingTable) && Faces(top, n, router, src)
    modifies router
    ensures Keyed(router.routingTable) && router.routingTable == After(old(router.routingTable), Expiry(before))
    ensures (forall m :: m in out ==> m.dest in src) && MaySend(top, n, router.routingTable, PacketsOf(out, src))
  {
    var removed;
    out, removed := router.RemoveExpiredEntries(before);
    forall m | m in out
      ensures m.dest in router.ripNeighbors && forall c :: c in m.claims ==> Said(c, router.routingTable, m.dest)
    {
      var i :| 0 <= i < |out| && out[i] == m;
      TableSays(router.routingTable, removed, m.dest);
    }
    SaidMaySend(top, n, router, src, router.routingTable, out);
  }

  /** `SendPeriodicRipUpdate`: besides, a router with anything to tell sends every neighbour a full update. */
  method Speak(router: VRouter, ghost top: Topology, ghost n: Node, ghost src: map<Addr, Addr>)
    returns (out: seq<Message>)
    requires Keyed(router.routingTable) && Faces(top, n, router, src)
    ensures (forall m :: m in out ==> m.dest in src) && MaySend(top, n, router.routingTable, PacketsOf(out, src))
    ensures forall k :: k in PacketsOf(out, src) ==> FullUpdate(k, router.routingTable)
    ensures (exists p :: p in router.routingTable && router.routingTable[p].routeType != Static) ==>
              forall d :: d in router.ripNeighbors ==> exists k :: k in PacketsOf(out, src) && k.dest == d
  {
    var entries := router.GetAllEntries();
    out := router.SendRipUpdate(entries);
    forall m | m in out
      ensures m.dest in router.ripNeighbors && forall c :: c in m.claims ==> Said(c, router.routingTable, m.dest)
    {
      var i :| 0 <= i < |out| && out[i] == m;
      TableSays(router.routingTable, entries, m.dest);
    }
    SaidMaySend(top, n, router, src, router.routingTable, out);
    forall k | k in PacketsOf(out, src) ensures FullUpdate(k, router.routingTable) {
      var m :| m in out && k == Packet(src[m.dest], m.dest, m.claims);
      var i :| 0 <= i < |out| && out[i] == m;
      AllEntriesAreFull(router.routingTable, entries, k.src, k.dest);
    }
    if entries != [] {
      forall d | d in router.ripNeighbors ensures exists k :: k in PacketsOf(out, src) && k.dest == d {
        var i :| 0 <= i < |router.ripNeighbors| && router.ripNeighbors[i] == d;
        assert out[i] in out;
        assert Packet(src[d], d, out[i].claims) in PacketsOf(out, src);
      }
    }
  }
}
