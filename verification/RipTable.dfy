/** pkg/vrouter/vrouter.go: the routing table and what RIP messages and expiry do to it. */
module RipTable {
  import opened Arith

  const INFINITY: U32 := 16

  type Addr = U32

  /** `netip.Prefix.Bits`: -1 when the prefix was made with a length out of range. */
  type Bits = b: int | -1 <= b <= 32 witness 0

  datatype Prefix = Prefix(addr: Addr, bits: Bits)

  datatype RouteType = Local | Static | Rip

  datatype Entry = Entry(routeType: RouteType, prefix: Prefix, nextHop: Option<Addr>, localNextHop: string,
                         cost: U32, updatedAt: nat)

  type Table = map<Prefix, Entry>

  /** One line of a RIP message, its address and mask read as a prefix. */
  datatype Claim = Claim(prefix: Prefix, cost: U32)

  datatype Message = Message(dest: Addr, claims: seq<Claim>)

  /** Split horizon with poisoned reverse: to its own next hop a route is infinitely long. */
  function ToClaim(e: Entry, dest: Addr): Claim {
    Claim(e.prefix, if e.nextHop == Some(dest) then INFINITY else e.cost)
  }

  /** A received line as a route by way of its sender, one hop longer. */
  function FromClaim(c: Claim, proposer: Addr): Entry {
    Entry(Rip, c.prefix, Some(proposer), "", Min(Add(c.cost, 1), INFINITY), 0)
  }

  function ToClaims(es: seq<Entry>, dest: Addr): (cs: seq<Claim>) {
    seq(|es|, i requires 0 <= i < |es| => ToClaim(es[i], dest))
  }

  function FromClaims(cs: seq<Claim>, proposer: Addr): (es: seq<Entry>) {
    seq(|cs|, i requires 0 <= i < |cs| => FromClaim(cs[i], proposer))
  }

  /** One entry of `updateRoutingTable`. */
  function Learn(t: Table, e: Entry, now: nat): Table {
    if e.prefix in t then
      var was := t[e.prefix];
      if was.routeType != Rip then t
      else if was.nextHop == e.nextHop then t[e.prefix := was.(updatedAt := now, cost := e.cost)]
      else if e.cost < was.cost then t[e.prefix := was.(updatedAt := now, nextHop := e.nextHop, cost := e.cost)]
      else t
    else if e.cost < INFINITY then t[e.prefix := e.(updatedAt := now)]
    else t
  }

  function LearnAll(t: Table, es: seq<Entry>, now: nat): Table
    decreases |es|
  {
    if es == [] then t else LearnAll(Learn(t, es[0], now), es[1..], now)
  }

  lemma {:induction false} LearnAllAppend(t: Table, es: seq<Entry>, e: Entry, now: nat)
    ensures LearnAll(t, es + [e], now) == Learn(LearnAll(t, es, now), e, now)
    decreases |es|
  {
    if es == [] {
      assert es + [e] == [e];
      assert [e][1..] == [];
    } else {
      assert (es + [e])[1..] == es[1..] + [e];
      LearnAllAppend(Learn(t, es[0], now), es[1..], e, now);
    }
  }

  /** The routes of `t` to `p`, as far as neighbours can tell. */
  function Route(t: Table, p: Prefix): Option<(Option<Addr>, U32)> {
    if p in t then Some((t[p].nextHop, t[p].cost)) else None
  }

  /** The prefixes whose route changes as `es` are learned one after the other, each as often as it does. */
  ghost function Altered(t: Table, es: seq<Entry>, now: nat): seq<Prefix>
    decreases |es|
  {
    if es == [] then []
    else
      var t' := Learn(t, es[0], now);
      (if Route(t', es[0].prefix) != Route(t, es[0].prefix) then [es[0].prefix] else []) + Altered(t', es[1..], now)
  }

  lemma {:induction false} AlteredAppend(t: Table, es: seq<Entry>, e: Entry, now: nat)
    ensures var u := LearnAll(t, es, now);
            Altered(t, es + [e], now)
            == Altered(t, es, now) + if Route(Learn(u, e, now), e.prefix) != Route(u, e.prefix) then [e.prefix] else []
    decreases |es|
  {
    if es == [] {
      assert es + [e] == [e];
      assert [e][1..] == [];
      assert Altered(t, [], now) == [];
    } else {
      assert (es + [e])[1..] == es[1..] + [e];
      AlteredAppend(Learn(t, es[0], now), es[1..], e, now);
    }
  }

  lemma {:induction false} FreshStays(t: Table, es: seq<Entry>, p: Prefix, now: nat)
    requires p in t && t[p].updatedAt == now
    ensures var u := LearnAll(t, es, now); p in u && u[p].updatedAt == now && u[p].routeType == t[p].routeType
    decreases |es|
  {
    if es != [] {
      FreshStays(Learn(t, es[0], now), es[1..], p, now);
    }
  }

  /** Every route that is different in the end was altered, and what was altered is there, refreshed. */
  lemma {:induction false} AlteredIs(t: Table, es: seq<Entry>, p: Prefix, now: nat)
    ensures var u := LearnAll(t, es, now);
            && (Route(u, p) != Route(t, p) ==> p in Altered(t, es, now))
            && (p in Altered(t, es, now) ==>
                  p in u && u[p].updatedAt == now && ((forall e :: e in es ==> e.routeType == Rip) ==> u[p].routeType == Rip))
    decreases |es|
  {
    if es != [] {
      var t' := Learn(t, es[0], now);
      AlteredIs(t', es[1..], p, now);
      if p == es[0].prefix && Route(t', p) != Route(t, p) {
        FreshStays(t', es[1..], p, now);
      }
    }
  }

  predicate Expired(e: Entry, expiry: nat) { e.routeType == Rip && e.updatedAt < expiry }

  function Unexpired(t: Table, expiry: nat): Table {
    map p | p in t && !Expired(t[p], expiry) :: t[p]
  }

  /** Entries sit under their own prefix. */
  predicate Keyed(t: Table) { forall p :: p in t ==> t[p].prefix == p }

  lemma {:induction false} LearnAllKeyed(t: Table, es: seq<Entry>, now: nat)
    requires Keyed(t)
    ensures Keyed(LearnAll(t, es, now)) && t.Keys <= LearnAll(t, es, now).Keys
    decreases |es|
  {
    if es != [] {
      LearnAllKeyed(Learn(t, es[0], now), es[1..], now);
    }
  }

  /** Local and static routes never change, and none appears. */
  ghost predicate FixedKept(t: Table, t': Table) {
    && (forall p :: p in t && t[p].routeType != Rip ==> p in t' && t'[p] == t[p])
    && (forall p :: p in t' && t'[p].routeType != Rip ==> p in t && t'[p] == t[p])
  }

  lemma {:induction false} LearnKeepsFixed(t: Table, es: seq<Entry>, now: nat)
    requires forall e :: e in es ==> e.routeType == Rip
    ensures FixedKept(t, LearnAll(t, es, now))
    decreases |es|
  {
    if es != [] {
      LearnKeepsFixed(Learn(t, es[0], now), es[1..], now);
    }
  }

  /** A list holds each routable entry of the table, and nothing else, in some order. */
  ghost predicate Lists(es: seq<Entry>, t: Table) {
    && (forall e :: e in es ==> e.prefix in t && t[e.prefix] == e && e.routeType != Static)
    && (forall p :: p in t && t[p].routeType != Static ==> t[p] in es)
  }

  class VRouter {
    const ripNeighbors: seq<Addr>
    var routingTable: Table

    constructor (ripNeighbors: seq<Addr>, table: Table)
      requires Keyed(table)
      ensures routingTable == table && this.ripNeighbors == ripNeighbors
    {
      this.ripNeighbors := ripNeighbors;
      routingTable := table;
    }

    /** `sendRipUpdate`: one message to each neighbour, or none when there is nothing to say. */
    method SendRipUpdate(entries: seq<Entry>) returns (out: seq<Message>)
      ensures |out| == if entries == [] then 0 else |ripNeighbors|
      ensures forall i :: 0 <= i < |out| ==> out[i] == Message(ripNeighbors[i], ToClaims(entries, ripNeighbors[i]))
    {
      out := [];
      if |entries| == 0 { return; }
      for i := 0 to |ripNeighbors|
        invariant |out| == i
        invariant forall j :: 0 <= j < i ==> out[j] == Message(ripNeighbors[j], ToClaims(entries, ripNeighbors[j]))
      {
        out := out + [Message(ripNeighbors[i], ToClaims(entries, ripNeighbors[i]))];
      }
    }

    /** One turn of the loop in `updateRoutingTable`; `changed` when the entry is to be announced. */
    method UpdateEntry(entry: Entry, now: nat) returns (changed: bool)
      requires Keyed(routingTable)
      modifies this
      ensures Keyed(routingTable) && routingTable == Learn(old(routingTable), entry, now)
      ensures changed <==> Route(routingTable, entry.prefix) != Route(old(routingTable), entry.prefix)
      ensures forall p :: Route(routingTable, p) != Route(old(routingTable), p) ==> p == entry.prefix
    {
      var p := entry.prefix;
      var ok := p in routingTable;
      if ok && routingTable[p].routeType != Rip { return false; }
      changed := false;
      if ok {
        var oldEntry := routingTable[p];
        if oldEntry.nextHop == entry.nextHop {
          routingTable := routingTable[p := oldEntry.(updatedAt := now, cost := entry.cost)];
          if oldEntry.cost != entry.cost { changed := true; }
        } else if entry.cost < oldEntry.cost {
          routingTable := routingTable[p := oldEntry.(updatedAt := now, nextHop := entry.nextHop, cost := entry.cost)];
          changed := true;
        }
      } else if entry.cost < INFINITY {
        routingTable := routingTable[p := entry.(updatedAt := now)];
        changed := true;
      }
    }

    /** `updateRoutingTable`. Announced are the routes that an entry changed, in order, and nothing is sent if
        none did; the updated entries are shared with the table, so that the messages say what it holds in the
        end. */
    method UpdateRoutingTable(entries: seq<Entry>, now: nat) returns (out: seq<Message>, updated: seq<Prefix>)
      requires Keyed(routingTable)
      modifies this
      ensures Keyed(routingTable) && routingTable == LearnAll(old(routingTable), entries, now)
      ensures updated == Altered(old(routingTable), entries, now)
      ensures forall p :: Route(routingTable, p) != Route(old(routingTable), p) ==> p in updated
      ensures forall p :: p in updated ==> p in routingTable && routingTable[p].updatedAt == now
      ensures (forall e :: e in entries ==> e.routeType == Rip) ==> forall p :: p in updated ==> routingTable[p].routeType == Rip
      ensures |out| == if updated == [] then 0 else |ripNeighbors|
      ensures forall i :: 0 <= i < |out| ==>
                && out[i].dest == ripNeighbors[i] && |out[i].claims| == |updated|
                && forall j :: 0 <= j < |updated| ==>
                     updated[j] in routingTable && out[i].claims[j] == ToClaim(routingTable[updated[j]], ripNeighbors[i])
    {
      ghost var t := routingTable;
      updated := LearnEntries(entries, now);
      forall p {
        AlteredIs(t, entries, p, now);
      }
      var changed := seq(|updated|, j requires 0 <= j < |updated| && updated[j] in routingTable reads this => routingTable[updated[j]]);
      out := SendRipUpdate(changed);
    }

    /** The loop of `updateRoutingTable`. */
    method LearnEntries(entries: seq<Entry>, now: nat) returns (updated: seq<Prefix>)
      requires Keyed(routingTable)
      modifies this
      ensures Keyed(routingTable) && routingTable == LearnAll(old(routingTable), entries, now)
      ensures updated == Altered(old(routingTable), entries, now)
    {
      updated := [];
      for i := 0 to |entries|
        invariant Keyed(routingTable)
        invariant routingTable == LearnAll(old(routingTable), entries[..i], now)
        invariant updated == Altered(old(routingTable), entries[..i], now)
      {
        LearnAllAppend(old(routingTable), entries[..i], entries[i], now);
        AlteredAppend(old(routingTable), entries[..i], entries[i], now);
        assert entries[..i + 1] == entries[..i] + [entries[i]];
        var changed := UpdateEntry(entries[i], now);
        if changed { updated := updated + [entries[i].prefix]; }
      }
      assert entries[..|entries|] == entries;
    }

    /** `RemoveExpiredEntries`, in whatever order the map is walked. Neighbours are told of exactly the
        routes removed, at infinite cost. */
    method RemoveExpiredEntries(expiry: nat) returns (out: seq<Message>, removed: seq<Entry>)
      requires Keyed(routingTable)
      modifies this
      ensures Keyed(routingTable) && routingTable == Unexpired(old(routingTable), expiry)
      ensures forall p :: p in old(routingTable) && p !in routingTable ==> old(routingTable)[p].(cost := INFINITY) in removed
      ensures forall e :: e in removed ==> e.cost == INFINITY && e.prefix in old(routingTable) && e.prefix !in routingTable
      ensures |out| == if removed == [] then 0 else |ripNeighbors|
      ensures forall i :: 0 <= i < |out| ==> out[i] == Message(ripNeighbors[i], ToClaims(removed, ripNeighbors[i]))
    {
      removed := [];
      ghost var t := routingTable;
      var left := routingTable.Keys;
      while left != {}
        invariant left <= t.Keys
        invariant forall p :: p in routingTable <==> p in t && (p in left || !Expired(t[p], expiry))
        invariant forall p :: p in routingTable ==> routingTable[p] == t[p]
        invariant forall p :: p in t && p !in left && Expired(t[p], expiry) ==> t[p].(cost := INFINITY) in removed
        invariant forall e :: e in removed ==> e.cost == INFINITY && e.prefix in t && e.prefix !in left && e.prefix !in routingTable
        decreases left
      {
        var p :| p in left;
        left := left - {p};
        var entry := routingTable[p];
        if entry.routeType == Rip && entry.updatedAt < expiry {
          removed := removed + [entry.(cost := INFINITY)];
          routingTable := routingTable - {p};
        }
      }
      out := SendRipUpdate(removed);
    }

    /** `getAllEntries`: every local and learned route, in whatever order the map is walked. */
    method GetAllEntries() returns (entries: seq<Entry>)
      requires Keyed(routingTable)
      ensures Lists(entries, routingTable)
    {
      entries := [];
      var left := routingTable.Keys;
      while left != {}
        invariant left <= routingTable.Keys
        invariant forall e :: e in entries ==> e.prefix in routingTable && routingTable[e.prefix] == e && e.routeType != Static
        invariant forall p :: p in routingTable && p !in left && routingTable[p].routeType != Static ==> routingTable[p] in entries
        decreases left
      {
        var p :| p in left;
        left := left - {p};
        var entry := routingTable[p];
        if entry.routeType == Rip || entry.routeType == Local {
          entries := entries + [entry];
        }
      }
    }
  }
}
