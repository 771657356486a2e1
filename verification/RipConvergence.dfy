/** Synchronous rounds of full exchange on a fixed topology: the tables converge to shortest paths. */
module RipConvergence {
  import opened Arith
  import opened RipTable
  import opened RipNetwork

  type Tables = map<Node, Table>

  /** A full update (`SendPeriodicRipUpdate`): every routable entry, in any order. */
  ghost predicate FullUpdate(k: Packet, t: Table) {
    && (forall c :: c in k.claims ==> c.prefix in t && t[c.prefix].routeType != Static && c == ToClaim(t[c.prefix], k.dest))
    && (forall p :: p in t && t[p].routeType != Static ==> ToClaim(t[p], k.dest) in k.claims)
  }

  /** `getAllEntries`, sent to `dest`, is one. */
  lemma AllEntriesAreFull(t: Table, es: seq<Entry>, src: Addr, dest: Addr)
    requires Keyed(t) && Lists(es, t)
    ensures FullUpdate(Packet(src, dest, ToClaims(es, dest)), t)
  {
    var cs := ToClaims(es, dest);
    forall c | c in cs ensures c.prefix in t && t[c.prefix].routeType != Static && c == ToClaim(t[c.prefix], dest) {
      var i :| 0 <= i < |cs| && cs[i] == c;
      assert es[i] in es;
    }
    forall p | p in t && t[p].routeType != Static ensures ToClaim(t[p], dest) in cs {
      var i :| 0 <= i < |es| && es[i] == t[p];
      assert cs[i] == ToClaim(t[p], dest);
    }
  }

  /** The entries learned from packets that arrive one after the other. */
  function Incoming(inbox: seq<Packet>): seq<Entry> {
    if inbox == [] then [] else FromClaims(inbox[0].claims, inbox[0].src) + Incoming(inbox[1..])
  }

  /** Updates that `n` gets in a round: only such as the tables at its start give. */
  ghost predicate Timely(top: Topology, x: Tables, n: Node, inbox: seq<Packet>) {
    forall k :: k in inbox ==>
      && (k.src, k.dest) in top.links && k.src in top.owner && k.dest in top.owner && top.owner[k.dest] == n
      && top.owner[k.src] in x && FullUpdate(k, x[top.owner[k.src]])
  }

  /** Every neighbour's update arrives, in any order. */
  ghost predicate AllHeard(top: Topology, n: Node, inbox: seq<Packet>) {
    forall a, b :: (a, b) in top.links && b in top.owner && top.owner[b] == n ==>
      exists k :: k in inbox && k.src == a && k.dest == b
  }

  ghost predicate RoundAt(top: Topology, x: Tables, n: Node, inbox: seq<Packet>, t': Table, now: nat)
    requires n in x
  {
    Timely(top, x, n, inbox) && AllHeard(top, n, inbox) && t' == LearnAll(x[n], Incoming(inbox), now)
  }

  ghost predicate RoundFor(top: Topology, x: Tables, n: Node, t': Table)
    requires n in x
  {
    exists inbox: seq<Packet>, now: nat :: RoundAt(top, x, n, inbox, t', now)
  }

  ghost predicate Round(top: Topology, x: Tables, y: Tables) {
    && x.Keys == y.Keys
    && forall n :: n in x ==> RoundFor(top, x, n, y[n])
  }

  /** The tables at the start of each round. */
  ghost predicate Rounds(top: Topology, run: seq<Tables>) {
    forall i: nat :: 0 < i < |run| ==> RoundNumber(top, run, i)
  }

  ghost predicate RoundNumber(top: Topology, run: seq<Tables>, i: nat)
    requires 0 < i < |run|
  {
    Round(top, run[i - 1], run[i])
  }

  /** What the theorem starts from: every router has a table, no static routes, its local routes, and
      learned ones, if any, no shorter than true: so any state reached without static routes will do. */
  ghost predicate Ready(top: Topology, n: Node, t: Table) {
    && TableTrue(top, n, t)
    && (forall p :: p in t ==> t[p].routeType != Static)
    && (n in top.owned ==> forall p :: p in top.owned[n] ==> p in t && t[p].routeType == Local)
  }

  /** `Ready`, folded away. */
  ghost predicate Sealed(top: Topology, n: Node, t: Table) {
    forall i: int :: Fold(i) ==> Ready(top, n, t)
  }

  ghost predicate AllReady(top: Topology, x: Tables) {
    && top.Valid()
    && (forall a :: a in top.owner ==> top.owner[a] in x)
    && (forall n :: n in top.owned ==> n in x)
    && (forall n :: n in x ==> Sealed(top, n, x[n]))
  }

  lemma Unseal(top: Topology, x: Tables, n: Node)
    requires AllReady(top, x) && n in x
    ensures Ready(top, n, x[n])
  {
    assert Sealed(top, n, x[n]) && Fold(0);
  }

  /** It holds in every state of every run that starts without static routes. */
  lemma ReachedReady(top: Topology, x: Net, y: Net, steps: nat)
    requires Init(top, x) && Reaches(top, x, y, steps)
    requires forall a :: a in top.owner ==> top.owner[a] in x.tables
    requires x.tables.Keys == top.owned.Keys
    requires forall n, p :: n in x.tables && p in x.tables[n] ==> x.tables[n][p].routeType != Static
    ensures AllReady(top, y.tables)
  {
    ReachedInv(top, x, y, steps);
    SameRouters(top, x, y, steps);
    forall n | n in y.tables ensures Sealed(top, n, y.tables[n]) {
      FixedRoutesStay(top, x, y, steps, n);
      ReadyFrom(top, n, x.tables[n], y.tables[n]);
    }
  }

  lemma ReadyFrom(top: Topology, n: Node, t: Table, t': Table)
    requires Configured(top, n, t) && FixedKept(t, t') && TableTrue(top, n, t')
    requires forall p :: p in t ==> t[p].routeType != Static
    ensures Ready(top, n, t')
  {
  }

  lemma {:induction false} SameRouters(top: Topology, x: Net, y: Net, steps: nat)
    requires Reaches(top, x, y, steps)
    ensures x.tables.Keys == y.tables.Keys
    decreases steps
  {
    if steps > 0 {
      var z: Net, n: Node, ev: RipNetwork.Event, sent: set<Packet> :| Reaches(top, x, z, steps - 1) && Step(top, z, y, n, ev, sent);
      SameRouters(top, x, z, steps - 1);
    }
  }

  /** Cost `d` to `p`, local at distance 0, else by way of a router at distance `d - 1`. */
  ghost predicate Exact(top: Topology, n: Node, t: Table, p: Prefix, d: nat) {
    && p in t && t[p].cost == d
    && (d == 0 ==> t[p].routeType == Local)
    && (d > 0 ==> t[p].routeType == Rip && t[p].nextHop.Some? && Nearer(top, n, t[p].nextHop.value, p, d))
  }

  ghost predicate Nearer(top: Topology, n: Node, a: Addr, p: Prefix, d: nat)
    requires d > 0
  {
    top.Hears(n, a) && top.Distance(d - 1, top.owner[a], p)
  }

  ghost predicate ConvergedAt(top: Topology, x: Tables, k: nat, n: Node, p: Prefix, d: nat) {
    n in x && top.Distance(d, n, p) && d <= k && d < INFINITY ==> Exact(top, n, x[n], p, d)
  }

  ghost predicate Converged(top: Topology, x: Tables, k: nat) {
    forall n: Node, p: Prefix, d: nat :: ConvergedAt(top, x, k, n, p, d)
  }

  lemma NeighbourNotMuchNearer(top: Topology, n: Node, a: Addr, p: Prefix, d: nat)
    requires d > 1 && top.Distance(d, n, p) && top.Hears(n, a)
    ensures !top.Within(d - 2, top.owner[a], p)
  {
  }

  // The order of arrival does not matter.

  /** An entry that is true, and exact if it comes from a router nearer to `p`. */
  ghost predicate Sound(top: Topology, n: Node, e: Entry, p: Prefix, d: nat)
    requires d > 0
  {
    && e.routeType == Rip && EntryTrue(top, n, e)
    && (e.prefix == p && Nearer(top, n, e.nextHop.value, p, d) ==> e.cost == d)
  }

  ghost predicate Decisive(top: Topology, n: Node, e: Entry, p: Prefix, d: nat)
    requires d > 0
  {
    e.prefix == p && e.nextHop.Some? && Nearer(top, n, e.nextHop.value, p, d)
  }

  lemma NotShorter(top: Topology, n: Node, e: Entry, p: Prefix, d: nat)
    requires EntryTrue(top, n, e) && e.routeType == Rip && e.prefix == p && top.Distance(d, n, p) && 0 < d < INFINITY
    ensures e.cost >= d
    ensures e.cost == d ==> Nearer(top, n, e.nextHop.value, p, d)
  {
    if e.cost < INFINITY {
      var a := e.nextHop.value;
      top.OneLinkMore(e.cost - 1, n, a, p);
      NotBelowDistance(top, e.cost, d, n, p);
      if d > 1 {
        NeighbourNotMuchNearer(top, n, a, p, d);
      }
    }
  }

  lemma LearnStaysExact(top: Topology, n: Node, t: Table, e: Entry, p: Prefix, d: nat, now: nat)
    requires TableTrue(top, n, t) && top.Distance(d, n, p) && 0 < d < INFINITY
    requires Sound(top, n, e, p, d)
    requires Exact(top, n, t, p, d)
    ensures Exact(top, n, Learn(t, e, now), p, d)
  {
    if e.prefix == p {
      NotShorter(top, n, e, p, d);
    }
  }

  lemma LearnBecomesExact(top: Topology, n: Node, t: Table, e: Entry, p: Prefix, d: nat, now: nat)
    requires TableTrue(top, n, t) && top.Distance(d, n, p) && 0 < d < INFINITY
    requires p in t ==> t[p].routeType == Rip
    requires Sound(top, n, e, p, d) && Decisive(top, n, e, p, d)
    ensures Exact(top, n, Learn(t, e, now), p, d)
  {
    if p in t {
      NotShorter(top, n, t[p], p, d);
    }
  }

  lemma LearnStep(top: Topology, n: Node, t: Table, e: Entry, p: Prefix, d: nat, now: nat)
    requires TableTrue(top, n, t) && top.Distance(d, n, p) && 0 < d < INFINITY
    requires p in t ==> t[p].routeType == Rip
    requires Sound(top, n, e, p, d)
    ensures TableTrue(top, n, Learn(t, e, now))
    ensures p in Learn(t, e, now) ==> Learn(t, e, now)[p].routeType == Rip
    ensures Exact(top, n, t, p, d) || Decisive(top, n, e, p, d) ==> Exact(top, n, Learn(t, e, now), p, d)
  {
    LearnTrue(top, n, t, e, now);
    if Exact(top, n, t, p, d) {
      LearnStaysExact(top, n, t, e, p, d, now);
    } else if Decisive(top, n, e, p, d) {
      LearnBecomesExact(top, n, t, e, p, d, now);
    }
  }

  lemma {:induction false} ExactAfterAll(top: Topology, n: Node, t: Table, es: seq<Entry>, p: Prefix, d: nat, now: nat)
    requires TableTrue(top, n, t) && top.Distance(d, n, p) && 0 < d < INFINITY
    requires p in t ==> t[p].routeType == Rip
    requires forall e :: e in es ==> Sound(top, n, e, p, d)
    requires Exact(top, n, t, p, d) || exists e :: e in es && Decisive(top, n, e, p, d)
    ensures Exact(top, n, LearnAll(t, es, now), p, d)
    decreases |es|
  {
    if es != [] {
      var e := es[0];
      assert Sound(top, n, e, p, d);
      LearnStep(top, n, t, e, p, d, now);
      if !Exact(top, n, t, p, d) && !Decisive(top, n, e, p, d) {
        var f :| f in es && Decisive(top, n, f, p, d);
        assert f in es[1..];
      }
      ExactAfterAll(top, n, Learn(t, e, now), es[1..], p, d, now);
    }
  }

  // What arrives in a round.

  lemma {:induction false} IncomingFrom(inbox: seq<Packet>, e: Entry)
    returns (k: Packet, c: Claim)
    requires e in Incoming(inbox)
    ensures k in inbox && c in k.claims && e == FromClaim(c, k.src)
  {
    var es := FromClaims(inbox[0].claims, inbox[0].src);
    if e in es {
      var i :| 0 <= i < |es| && es[i] == e;
      k, c := inbox[0], inbox[0].claims[i];
    } else {
      k, c := IncomingFrom(inbox[1..], e);
    }
  }

  lemma {:induction false} IncomingHas(inbox: seq<Packet>, k: Packet, c: Claim)
    requires k in inbox && c in k.claims
    ensures FromClaim(c, k.src) in Incoming(inbox)
  {
    if k == inbox[0] {
      var i :| 0 <= i < |k.claims| && k.claims[i] == c;
      assert FromClaims(k.claims, k.src)[i] == FromClaim(c, k.src);
    } else {
      IncomingHas(inbox[1..], k, c);
    }
  }

  /** Whatever a packet of the round says is true. */
  lemma UpdateTrue(top: Topology, x: Tables, n: Node, k: Packet, c: Claim)
    requires AllReady(top, x) && (k.src, k.dest) in top.links && top.owner[k.dest] == n
    requires FullUpdate(k, x[top.owner[k.src]]) && c in k.claims
    ensures top.Hears(n, k.src) && ClaimTrue(top, top.owner[k.src], c) && EntryTrue(top, n, FromClaim(c, k.src))
  {
    Unseal(top, x, top.owner[k.src]);
    SaidTrue(top, top.owner[k.src], x[top.owner[k.src]], c, k.dest);
    LearnedTrue(top, n, k.src, c);
  }

  /** A router nearer to `p` says so to `n`: its own next hop lies nearer still, so `n` does not get
      the poisoned reverse. */
  lemma NearerTells(top: Topology, x: Tables, n: Node, k: Packet, p: Prefix, d: nat, j: nat)
    requires AllReady(top, x) && Converged(top, x, j) && 0 < d <= j + 1 && d < INFINITY && top.Distance(d, n, p)
    requires (k.src, k.dest) in top.links && top.owner[k.dest] == n && FullUpdate(k, x[top.owner[k.src]])
    requires Nearer(top, n, k.src, p, d)
    ensures Claim(p, d - 1) in k.claims && forall c :: c in k.claims && c.prefix == p ==> c == Claim(p, d - 1)
  {
    var m := top.owner[k.src];
    Unseal(top, x, m);
    assert ConvergedAt(top, x, j, m, p, d - 1);
    NotPoisoned(top, n, k.dest, m, x[m], p, d);
  }

  lemma NotPoisoned(top: Topology, n: Node, b: Addr, m: Node, t: Table, p: Prefix, d: nat)
    requires 0 < d && top.Distance(d, n, p) && b in top.owner && top.owner[b] == n && Exact(top, m, t, p, d - 1)
    ensures t[p].nextHop != Some(b) || d == 1
  {
    if t[p].nextHop == Some(b) && d > 1 {
      assert Nearer(top, m, b, p, d - 1);
      top.WithinUpTo(d - 2, d - 1, n, p);
    }
  }

  lemma ArrivesSound(top: Topology, x: Tables, n: Node, inbox: seq<Packet>, e: Entry, p: Prefix, d: nat, j: nat)
    requires AllReady(top, x) && Converged(top, x, j) && 0 < d <= j + 1 && d < INFINITY && top.Distance(d, n, p)
    requires Timely(top, x, n, inbox) && e in Incoming(inbox)
    ensures Sound(top, n, e, p, d)
  {
    var k, c := IncomingFrom(inbox, e);
    UpdateTrue(top, x, n, k, c);
    if e.prefix == p && Nearer(top, n, k.src, p, d) {
      NearerTells(top, x, n, k, p, d, j);
    }
  }

  /** One round brings exactness one hop further. */
  lemma RoundExact(top: Topology, x: Tables, n: Node, inbox: seq<Packet>, now: nat, p: Prefix, d: nat, j: nat)
    requires AllReady(top, x) && Converged(top, x, j) && n in x && 0 < d <= j + 1 && d < INFINITY && top.Distance(d, n, p)
    requires Timely(top, x, n, inbox) && AllHeard(top, n, inbox)
    ensures Exact(top, n, LearnAll(x[n], Incoming(inbox), now), p, d)
  {
    var es := Incoming(inbox);
    forall e | e in es ensures Sound(top, n, e, p, d) {
      ArrivesSound(top, x, n, inbox, e, p, d, j);
    }
    DecisiveArrives(top, x, n, inbox, p, d, j);
    Unseal(top, x, n);
    NotLocal(top, n, x[n], p, d);
    ExactAfterAll(top, n, x[n], es, p, d, now);
  }

  lemma NotLocal(top: Topology, n: Node, t: Table, p: Prefix, d: nat)
    requires Ready(top, n, t) && top.Distance(d, n, p) && d > 0
    ensures p in t ==> t[p].routeType == Rip
  {
    if p in t && t[p].routeType == Local {
      assert EntryTrue(top, n, t[p]);
    }
  }

  /** A neighbour nearer to `p` exists, and its update is in the inbox. */
  lemma DecisiveArrives(top: Topology, x: Tables, n: Node, inbox: seq<Packet>, p: Prefix, d: nat, j: nat)
    requires AllReady(top, x) && Converged(top, x, j) && 0 < d <= j + 1 && d < INFINITY && top.Distance(d, n, p)
    requires Timely(top, x, n, inbox) && AllHeard(top, n, inbox)
    ensures exists e :: e in Incoming(inbox) && Decisive(top, n, e, p, d)
  {
    var a := SomeNearer(top, n, p, d);
    var k := HeardFrom(top, n, inbox, a);
    NearerTells(top, x, n, k, p, d, j);
    IncomingHas(inbox, k, Claim(p, d - 1));
    assert Decisive(top, n, FromClaim(Claim(p, d - 1), a), p, d);
  }

  lemma HeardFrom(top: Topology, n: Node, inbox: seq<Packet>, a: Addr) returns (k: Packet)
    requires AllHeard(top, n, inbox) && top.Hears(n, a)
    ensures k in inbox && k.src == a
  {
    var b :| (a, b) in top.links && b in top.owner && top.owner[b] == n;
    k :| k in inbox && k.src == a && k.dest == b;
  }

  lemma SomeNearer(top: Topology, n: Node, p: Prefix, d: nat) returns (a: Addr)
    requires 0 < d && top.Distance(d, n, p)
    ensures Nearer(top, n, a, p, d)
  {
    assert !(n in top.owned && p in top.owned[n]);
    a :| top.Hears(n, a) && top.Within(d - 1, top.owner[a], p);
    if d > 1 {
      NeighbourNotMuchNearer(top, n, a, p, d);
    }
  }

  lemma RoundReady(top: Topology, x: Tables, n: Node, inbox: seq<Packet>, now: nat)
    requires AllReady(top, x) && n in x && Timely(top, x, n, inbox)
    ensures Ready(top, n, LearnAll(x[n], Incoming(inbox), now))
  {
    var es := Incoming(inbox);
    forall e | e in es ensures EntryTrue(top, n, e) && e.routeType == Rip {
      var k, c := IncomingFrom(inbox, e);
      UpdateTrue(top, x, n, k, c);
    }
    Unseal(top, x, n);
    LearnAllTrue(top, n, x[n], es, now);
    LearnKeepsFixed(x[n], es, now);
  }

  lemma RoundStaysReady(top: Topology, x: Tables, y: Tables)
    requires AllReady(top, x) && Round(top, x, y)
    ensures AllReady(top, y)
  {
    forall n | n in y ensures Sealed(top, n, y[n]) {
      assert RoundFor(top, x, n, y[n]);
      var inbox: seq<Packet>, now: nat :| RoundAt(top, x, n, inbox, y[n], now);
      RoundReady(top, x, n, inbox, now);
    }
  }

  lemma RoundConverges(top: Topology, x: Tables, y: Tables, j: nat)
    requires AllReady(top, x) && AllReady(top, y) && Converged(top, x, j) && Round(top, x, y)
    ensures Converged(top, y, j + 1)
  {
    forall n: Node, p: Prefix, d: nat | n in y && top.Distance(d, n, p) && d <= j + 1 && d < INFINITY
      ensures ConvergedAt(top, y, j + 1, n, p, d)
    {
      if d == 0 {
        Unseal(top, y, n);
        LocalExact(top, n, y[n], p);
      } else {
        assert RoundFor(top, x, n, y[n]);
        var inbox: seq<Packet>, now: nat :| RoundAt(top, x, n, inbox, y[n], now);
        RoundExact(top, x, n, inbox, now, p, d, j);
      }
    }
  }

  lemma LocalExact(top: Topology, n: Node, t: Table, p: Prefix)
    requires Ready(top, n, t) && top.Distance(0, n, p)
    ensures Exact(top, n, t, p, 0)
  {
    assert EntryTrue(top, n, t[p]);
  }

  lemma ConvergedAtStart(top: Topology, x: Tables)
    requires AllReady(top, x)
    ensures Converged(top, x, 0)
  {
    forall n: Node, p: Prefix, d: nat | n in x && top.Distance(d, n, p) && d <= 0 ensures ConvergedAt(top, x, 0, n, p, d) {
      Unseal(top, x, n);
      LocalExact(top, n, x[n], p);
    }
  }

  /** Convergence: after `k` rounds, whatever the order in which each router took its neighbours'
      updates, every router at distance `d <= min(k, 15)` from a prefix has cost exactly `d` and a
      next hop at distance `d - 1`. */
  lemma {:induction false} Converges(top: Topology, run: seq<Tables>, k: nat)
    requires k < |run| && Rounds(top, run) && AllReady(top, run[0])
    ensures AllReady(top, run[k]) && Converged(top, run[k], k)
    decreases k
  {
    if k == 0 {
      ConvergedAtStart(top, run[0]);
    } else {
      Converges(top, run, k - 1);
      assert RoundNumber(top, run, k);
      RoundStaysReady(top, run[k - 1], run[k]);
      RoundConverges(top, run[k - 1], run[k], k - 1);
    }
  }

  /** Going from next hop to next hop, `hops` times, leads to a router that owns `p`. */
  ghost predicate Delivers(top: Topology, x: Tables, n: Node, p: Prefix, hops: nat)
    decreases hops
  {
    && n in x && p in x[n]
    && if hops == 0 then x[n][p].routeType == Local && n in top.owned && p in top.owned[n]
       else x[n][p].routeType == Rip && x[n][p].nextHop.Some? && x[n][p].nextHop.value in top.owner
            && Delivers(top, x, top.owner[x[n][p].nextHop.value], p, hops - 1)
  }

  lemma {:induction false} LeadsHome(top: Topology, x: Tables, n: Node, p: Prefix, d: nat, k: nat)
    requires AllReady(top, x) && Converged(top, x, k) && n in x && top.Distance(d, n, p) && d <= k && d < INFINITY
    ensures Delivers(top, x, n, p, d)
    decreases d
  {
    assert ConvergedAt(top, x, k, n, p, d);
    if d > 0 {
      LeadsHome(top, x, top.owner[x[n][p].nextHop.value], p, d - 1, k);
    }
  }

  /** After 15 rounds the tables are the shortest paths: a route of finite cost exists exactly for the
      prefixes within 15 hops, its cost is the distance, and it leads to an owner in so many hops. (A prefix that
      no owner can reach is not within any number of hops.) */
  lemma ShortestPathsAfter15(top: Topology, run: seq<Tables>, k: nat, n: Node, p: Prefix)
    requires 15 <= k < |run| && Rounds(top, run) && AllReady(top, run[0]) && n in run[k]
    ensures var t := run[k][n];
            && (p in t && t[p].cost < 16 <==> top.Within(15, n, p))
            && (p in t && t[p].cost < 16 ==> top.Distance(t[p].cost, n, p) && Delivers(top, run[k], n, p, t[p].cost))
            && (forall d: nat :: top.Distance(d, n, p) ==> (p in t && t[p].cost < 16 <==> d < 16))
  {
    Converges(top, run, k);
    var t := run[k][n];
    if top.Within(15, n, p) {
      var d := Nearest(top, 15, n, p);
      SettledRoute(top, run[k], k, n, p, d);
    } else if p in t {
      Unseal(top, run[k], n);
      FiniteIsWithin(top, n, t[p]);
    }
    forall d: nat | top.Distance(d, n, p) ensures p in t && t[p].cost < 16 <==> d < 16 {
      SettledRoute(top, run[k], k, n, p, d);
    }
  }

  lemma {:induction false} Nearest(top: Topology, k: nat, n: Node, p: Prefix) returns (d: nat)
    requires top.Within(k, n, p)
    ensures d <= k && top.Distance(d, n, p)
    decreases k
  {
    if k > 0 && top.Within(k - 1, n, p) {
      d := Nearest(top, k - 1, n, p);
    } else {
      d := k;
    }
  }

  lemma FiniteIsWithin(top: Topology, n: Node, e: Entry)
    requires EntryTrue(top, n, e) && e.routeType != Static
    ensures e.cost < INFINITY ==> top.Within(INFINITY - 1, n, e.prefix)
  {
    if e.cost < INFINITY {
      if e.routeType == Rip {
        top.OneLinkMore(e.cost - 1, n, e.nextHop.value, e.prefix);
      }
      top.WithinUpTo(e.cost, INFINITY - 1, n, e.prefix);
    }
  }

  lemma SettledRoute(top: Topology, y: Tables, k: nat, n: Node, p: Prefix, d: nat)
    requires AllReady(top, y) && Converged(top, y, k) && k >= 15 && n in y && top.Distance(d, n, p)
    ensures p in y[n] && y[n][p].cost < INFINITY <==> d < INFINITY
    ensures d < INFINITY ==> y[n][p].cost == d && Delivers(top, y, n, p, d)
  {
    if d < INFINITY {
      assert ConvergedAt(top, y, k, n, p, d);
      LeadsHome(top, y, n, p, d, k);
    } else if p in y[n] {
      Unseal(top, y, n);
      FarIsInfinite(top, n, y[n][p], d);
    }
  }

  lemma FarIsInfinite(top: Topology, n: Node, e: Entry, d: nat)
    requires EntryTrue(top, n, e) && e.routeType != Static && top.Distance(d, n, e.prefix) && d >= INFINITY
    ensures e.cost == INFINITY
  {
    if e.cost < INFINITY {
      if e.routeType == Rip {
        top.OneLinkMore(e.cost - 1, n, e.nextHop.value, e.prefix);
      }
      NotBelowDistance(top, e.cost, d, n, e.prefix);
    }
  }
}
