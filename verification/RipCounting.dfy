/** A prefix that no router owns any more: counting to infinity ends. */
module RipCounting {
  import opened Arith
  import opened RipTable
  import opened RipNetwork
  import opened RipConvergence

  /** A round of exchange, which may lose updates, followed by `RemoveExpiredEntries`: what was not
      refreshed in round `now` goes. */
  ghost predicate RoundWithExpiry(top: Topology, x: Tables, y: Tables, now: nat) {
    && x.Keys == y.Keys
    && forall n :: n in x ==> exists inbox: seq<Packet> ::
         Timely(top, x, n, inbox) && y[n] == Unexpired(LearnAll(x[n], Incoming(inbox), now), now)
  }

  ghost predicate RoundsWithExpiry(top: Topology, run: seq<Tables>) {
    forall i: nat :: 0 < i < |run| ==> ExpiryRound(top, run, i)
  }

  ghost predicate ExpiryRound(top: Topology, run: seq<Tables>, i: nat)
    requires 0 < i < |run|
  {
    RoundWithExpiry(top, run[i - 1], run[i], i)
  }

  /** No router owns `p`; learned costs are in range, at least `least` for `p`, and older than `now`. */
  ghost predicate Orphaned(t: Table, p: Prefix, least: nat, now: nat) {
    && Keyed(t)
    && (forall q :: q in t && t[q].routeType == Rip ==> t[q].cost <= INFINITY && t[q].updatedAt < now)
    && (p in t ==> t[p].routeType != Local && (t[p].routeType == Rip ==> t[p].cost >= least))
  }

  ghost predicate AllOrphaned(x: Tables, p: Prefix, least: nat, now: nat) {
    forall n :: n in x ==> Orphaned(x[n], p, least, now)
  }

  /** During round `now`: a route to `p` is stale, or at least `least` long. */
  ghost predicate Counting(t: Table, p: Prefix, least: nat, now: nat) {
    && Keyed(t)
    && (forall q :: q in t && t[q].routeType == Rip ==> t[q].cost <= INFINITY && t[q].updatedAt <= now)
    && (p in t ==> t[p].routeType != Local && (t[p].routeType == Rip && t[p].updatedAt == now ==> t[p].cost >= least))
  }

  lemma {:induction false} LearnAllCounts(t: Table, es: seq<Entry>, p: Prefix, least: nat, now: nat)
    requires Counting(t, p, least, now)
    requires forall e :: e in es ==> e.routeType == Rip && e.cost <= INFINITY && (e.prefix == p ==> e.cost >= least)
    ensures Counting(LearnAll(t, es, now), p, least, now)
    decreases |es|
  {
    if es != [] {
      assert es[0] in es;
      LearnAllCounts(Learn(t, es[0], now), es[1..], p, least, now);
    }
  }

  /** What a router hears of `p` is one longer than the shortest it could have been. */
  lemma HeardLonger(top: Topology, x: Tables, n: Node, inbox: seq<Packet>, p: Prefix, least: nat, now: nat, e: Entry)
    requires AllOrphaned(x, p, least, now) && Timely(top, x, n, inbox) && e in Incoming(inbox)
    ensures e.routeType == Rip && e.cost <= INFINITY && (e.prefix == p ==> e.cost >= Min(least + 1, INFINITY))
  {
    var k, c := IncomingFrom(inbox, e);
    var m := top.owner[k.src];
    assert Orphaned(x[m], p, least, now);
  }

  lemma RoundCounts(top: Topology, x: Tables, y: Tables, p: Prefix, least: nat, now: nat)
    requires AllOrphaned(x, p, least, now) && RoundWithExpiry(top, x, y, now)
    ensures AllOrphaned(y, p, Min(least + 1, INFINITY), now + 1)
  {
    forall n | n in y ensures Orphaned(y[n], p, Min(least + 1, INFINITY), now + 1) {
      var inbox: seq<Packet> :| Timely(top, x, n, inbox) && y[n] == Unexpired(LearnAll(x[n], Incoming(inbox), now), now);
      forall e | e in Incoming(inbox)
        ensures e.routeType == Rip && e.cost <= INFINITY && (e.prefix == p ==> e.cost >= Min(least + 1, INFINITY))
      {
        HeardLonger(top, x, n, inbox, p, least, now, e);
      }
      assert Orphaned(x[n], p, least, now);
      LearnAllCounts(x[n], Incoming(inbox), p, Min(least + 1, INFINITY), now);
    }
  }

  /** Each round raises the least finite cost by one at least. */
  lemma {:induction false} LeastCostRises(top: Topology, run: seq<Tables>, p: Prefix, least: nat, k: nat)
    requires k < |run| && RoundsWithExpiry(top, run) && AllOrphaned(run[0], p, least, 1) && least <= INFINITY
    ensures AllOrphaned(run[k], p, Min(least + k, INFINITY), k + 1)
    decreases k
  {
    if k > 0 {
      var x, y, before := run[k - 1], run[k], Min(least + (k - 1), INFINITY);
      LeastCostRises(top, run, p, least, k - 1);
      assert ExpiryRound(top, run, k);
      RoundCounts(top, x, y, p, before, k);
    }
  }

  /** So once no router owns a prefix, after 16 rounds no router has a route of finite cost to it,
      whatever the topology, the tables at the start, and the updates lost or reordered. */
  lemma CountingEnds(top: Topology, run: seq<Tables>, p: Prefix, k: nat, n: Node)
    requires 16 <= k < |run| && RoundsWithExpiry(top, run) && AllOrphaned(run[0], p, 0, 1)
    requires n in run[k] && p in run[k][n] && run[k][n][p].routeType == Rip
    ensures run[k][n][p].cost == 16
  {
    LeastCostRises(top, run, p, 0, k);
    assert Orphaned(run[k][n], p, INFINITY, k + 1);
  }

  /** Entries written in round `now` stay so. */
  lemma {:induction false} StaysRefreshed(t: Table, es: seq<Entry>, p: Prefix, now: nat)
    requires p in t && t[p].updatedAt == now
    ensures var t' := LearnAll(t, es, now); p in t' && t'[p].updatedAt == now
    decreases |es|
  {
    if es != [] {
      StaysRefreshed(Learn(t, es[0], now), es[1..], p, now);
    }
  }

  /** The route goes on through the same next hop, or a shorter one. */
  ghost predicate Refreshes(e: Entry, was: Entry) {
    e.prefix == was.prefix && (e.nextHop == was.nextHop || e.cost < was.cost)
  }

  /** Which learned routes outlive a round, exactly: those whose next hop mentions the prefix, at whatever
      cost, 16 and the poisoned reverse included, or for which something shorter is heard. */
  lemma {:induction false} OutlivesRoundIff(t: Table, es: seq<Entry>, p: Prefix, now: nat)
    requires Keyed(t) && p in t && t[p].routeType == Rip && t[p].updatedAt < now
    ensures p in Unexpired(LearnAll(t, es, now), now) <==> exists e :: e in es && Refreshes(e, t[p])
    decreases |es|
  {
    if es != [] {
      var e, t1 := es[0], Learn(t, es[0], now);
      if Refreshes(e, t[p]) {
        StaysRefreshed(t1, es[1..], p, now);
      } else {
        assert t1[p] == t[p];
        OutlivesRoundIff(t1, es[1..], p, now);
        assert forall f :: f in es ==> f == e || f in es[1..];
      }
    }
  }

  /** Seen from what the router hears in a round. */
  lemma OutlivesInboxIff(t: Table, inbox: seq<Packet>, p: Prefix, now: nat)
    requires Keyed(t) && p in t && t[p].routeType == Rip && t[p].updatedAt < now
    ensures p in Unexpired(LearnAll(t, Incoming(inbox), now), now)
            <==> exists k, c :: k in inbox && c in k.claims && Refreshes(FromClaim(c, k.src), t[p])
  {
    OutlivesRoundIff(t, Incoming(inbox), p, now);
    if e :| e in Incoming(inbox) && Refreshes(e, t[p]) {
      var k, c := IncomingFrom(inbox, e);
      assert Refreshes(FromClaim(c, k.src), t[p]);
    }
    if k, c :| k in inbox && c in k.claims && Refreshes(FromClaim(c, k.src), t[p]) {
      IncomingHas(inbox, k, c);
    }
  }
}
