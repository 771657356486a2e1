/** Routers exchanging tables over a network that loses, duplicates and reorders: what every run keeps. */
module RipNetwork {
  import opened Arith
  import opened RipTable

  type Node = nat

  /** `(a, b)` is a link when the router with address `a` sends its RIP messages from `a` to neighbour
      `b`. `owned` are the prefixes of a router's own interfaces. */
  datatype Topology = Topology(links: set<(Addr, Addr)>, owner: map<Addr, Node>, owned: map<Node, set<Prefix>>) {
    ghost predicate Valid() {
      forall a, b :: (a, b) in links ==> a in owner && b in owner && owner[a] in owned && owner[b] in owned
    }

    /** `n` can hear `m`, which speaks from `a`. */
    ghost predicate Hears(n: Node, a: Addr) {
      a in owner && exists b :: (a, b) in links && b in owner && owner[b] == n
    }

    /** `n` owns `p`, or is at most `k` links away from a router that does. */
    ghost predicate Within(k: nat, n: Node, p: Prefix)
      decreases k
    {
      || (n in owned && p in owned[n])
      || (k > 0 && exists a :: Hears(n, a) && Within(k - 1, owner[a], p))
    }

    /** The true hop distance. */
    ghost predicate Distance(d: nat, n: Node, p: Prefix) {
      Within(d, n, p) && (d > 0 ==> !Within(d - 1, n, p))
    }

    lemma {:induction false} WithinMore(k: nat, n: Node, p: Prefix)
      requires Within(k, n, p)
      ensures Within(k + 1, n, p)
      decreases k
    {
      if !(n in owned && p in owned[n]) {
        var a :| Hears(n, a) && Within(k - 1, owner[a], p);
        WithinMore(k - 1, owner[a], p);
      }
    }

    lemma {:induction false} WithinUpTo(k: nat, l: nat, n: Node, p: Prefix)
      requires Within(k, n, p) && k <= l
      ensures Within(l, n, p)
      decreases l - k
    {
      if k < l {
        WithinMore(k, n, p);
        WithinUpTo(k + 1, l, n, p);
      }
    }

    lemma OneLinkMore(k: nat, n: Node, a: Addr, p: Prefix)
      requires Hears(n, a) && Within(k, owner[a], p)
      ensures Within(k + 1, n, p)
    {
    }
  }

  datatype Packet = Packet(src: Addr, dest: Addr, claims: seq<Claim>)

  /** `wire`: every packet ever sent; any of them may arrive, any number of times, or never. */
  datatype Net = Net(tables: map<Node, Table>, wire: set<Packet>)

  /** A claim about a route of the table, or that one is gone. */
  ghost predicate Said(c: Claim, t: Table, dest: Addr) {
    || c.cost == INFINITY
    || (c.prefix in t && t[c.prefix].routeType != Static && c == ToClaim(t[c.prefix], dest))
  }

  /** Packets that router `n`, with table `t`, may send: to neighbours, about its routes. */
  ghost predicate MaySend(top: Topology, n: Node, t: Table, sent: set<Packet>) {
    forall k :: k in sent ==>
      && (k.src, k.dest) in top.links && k.src in top.owner && top.owner[k.src] == n
      && forall c :: c in k.claims ==> Said(c, t, k.dest)
  }

  /** What changes a table: an arriving packet, expiry, or nothing when the router only speaks. */
  datatype Event = Heard(k: Packet, now: nat) | Expiry(before: nat) | Spoke

  function After(t: Table, ev: Event): Table {
    match ev
    case Heard(k, now) => LearnAll(t, FromClaims(k.claims, k.src), now)
    case Expiry(before) => Unexpired(t, before)
    case Spoke => t
  }

  ghost predicate Step(top: Topology, x: Net, y: Net, n: Node, ev: Event, sent: set<Packet>) {
    && n in x.tables
    && (ev.Heard? ==> ev.k in x.wire && ev.k.dest in top.owner && top.owner[ev.k.dest] == n)
    && MaySend(top, n, After(x.tables[n], ev), sent)
    && y == Net(x.tables[n := After(x.tables[n], ev)], x.wire + sent)
  }

  /** Configured: a local route for each prefix of an own interface, static routes, none learned. */
  ghost predicate Configured(top: Topology, n: Node, t: Table) {
    && Keyed(t) && n in top.owned
    && (forall p :: p in top.owned[n] ==> p in t && t[p].routeType == Local)
    && (forall p :: p in t ==> t[p].routeType != Rip)
    && (forall p :: p in t && t[p].routeType == Local ==> p in top.owned[n] && t[p].nextHop == None && t[p].cost == 0)
  }

  ghost predicate Init(top: Topology, x: Net) {
    top.Valid() && x.wire == {} && forall n :: n in x.tables ==> Configured(top, n, x.tables[n])
  }

  ghost predicate Reaches(top: Topology, x: Net, y: Net, steps: nat)
    decreases steps
  {
    if steps == 0 then x == y
    else exists z: Net, n: Node, ev: Event, sent: set<Packet> ::
           Reaches(top, x, z, steps - 1) && Step(top, z, y, n, ev, sent)
  }

  // The invariant.

  /** A route is no shorter than the way it stands for. */
  ghost predicate EntryTrue(top: Topology, n: Node, e: Entry) {
    match e.routeType
    case Static => true
    case Local => e.nextHop == None && e.cost == 0 && n in top.owned && e.prefix in top.owned[n]
    case Rip =>
      && 1 <= e.cost <= INFINITY && e.nextHop.Some? && top.Hears(n, e.nextHop.value)
      && (e.cost < INFINITY ==> top.Within(e.cost - 1, top.owner[e.nextHop.value], e.prefix))
  }

  ghost predicate TableTrue(top: Topology, n: Node, t: Table) {
    Keyed(t) && forall p :: p in t ==> EntryTrue(top, n, t[p])
  }

  ghost predicate ClaimTrue(top: Topology, m: Node, c: Claim) {
    c.cost <= INFINITY && (c.cost < INFINITY ==> top.Within(c.cost, m, c.prefix))
  }

  ghost predicate PacketTrue(top: Topology, k: Packet) {
    && (k.src, k.dest) in top.links && k.src in top.owner && k.dest in top.owner
    && forall c :: c in k.claims ==> ClaimTrue(top, top.owner[k.src], c)
  }

  ghost predicate Inv(top: Topology, x: Net) {
    && (forall n :: n in x.tables ==> TableTrue(top, n, x.tables[n]))
    && (forall k :: k in x.wire ==> PacketTrue(top, k))
  }

  lemma LearnedTrue(top: Topology, n: Node, a: Addr, c: Claim)
    requires top.Hears(n, a) && ClaimTrue(top, top.owner[a], c)
    ensures EntryTrue(top, n, FromClaim(c, a))
  {
  }

  lemma LearnTrue(top: Topology, n: Node, t: Table, e: Entry, now: nat)
    requires TableTrue(top, n, t) && EntryTrue(top, n, e) && e.routeType == Rip
    ensures TableTrue(top, n, Learn(t, e, now))
  {
  }

  lemma {:induction false} LearnAllTrue(top: Topology, n: Node, t: Table, es: seq<Entry>, now: nat)
    requires TableTrue(top, n, t) && forall e :: e in es ==> EntryTrue(top, n, e) && e.routeType == Rip
    ensures TableTrue(top, n, LearnAll(t, es, now))
    decreases |es|
  {
    if es != [] {
      LearnTrue(top, n, t, es[0], now);
      LearnAllTrue(top, n, Learn(t, es[0], now), es[1..], now);
    }
  }

  lemma HeardTrue(top: Topology, n: Node, t: Table, k: Packet, now: nat)
    requires TableTrue(top, n, t) && PacketTrue(top, k) && top.owner[k.dest] == n
    ensures TableTrue(top, n, LearnAll(t, FromClaims(k.claims, k.src), now))
  {
    var es := FromClaims(k.claims, k.src);
    forall e | e in es ensures EntryTrue(top, n, e) && e.routeType == Rip {
      var i :| 0 <= i < |es| && es[i] == e;
      LearnedTrue(top, n, k.src, k.claims[i]);
    }
    LearnAllTrue(top, n, t, es, now);
  }

  lemma SaidTrue(top: Topology, n: Node, t: Table, c: Claim, dest: Addr)
    requires TableTrue(top, n, t) && Said(c, t, dest) && n in top.owned
    ensures ClaimTrue(top, n, c)
  {
    if c.cost != INFINITY {
      var e := t[c.prefix];
      assert EntryTrue(top, n, e);
      if e.routeType == Rip {
        if e.cost < INFINITY {
          top.OneLinkMore(e.cost - 1, n, e.nextHop.value, c.prefix);
        }
      }
    }
  }

  lemma SentTrue(top: Topology, n: Node, t: Table, sent: set<Packet>)
    requires top.Valid() && TableTrue(top, n, t) && MaySend(top, n, t, sent)
    ensures forall k :: k in sent ==> PacketTrue(top, k)
  {
    forall k | k in sent ensures PacketTrue(top, k) {
      forall c | c in k.claims ensures ClaimTrue(top, n, c) {
        SaidTrue(top, n, t, c, k.dest);
      }
    }
  }

  lemma StepKeeps(top: Topology, x: Net, y: Net, n: Node, ev: Event, sent: set<Packet>)
    requires top.Valid() && Inv(top, x) && Step(top, x, y, n, ev, sent)
    ensures Inv(top, y)
  {
    var t := x.tables[n];
    if ev.Heard? {
      HeardTrue(top, n, t, ev.k, ev.now);
    }
    SentTrue(top, n, After(t, ev), sent);
  }

  lemma {:induction false} ReachedInv(top: Topology, x: Net, y: Net, steps: nat)
    requires Init(top, x) && Reaches(top, x, y, steps)
    ensures Inv(top, y)
    decreases steps
  {
    if steps > 0 {
      var z: Net, n: Node, ev: Event, sent: set<Packet> :| Reaches(top, x, z, steps - 1) && Step(top, z, y, n, ev, sent);
      ReachedInv(top, x, z, steps - 1);
      StepKeeps(top, z, y, n, ev, sent);
    }
  }

  /** The lower bound, in every run: a learned route of finite cost `c` by way of `N` means that `N` is
      within `c - 1` hops of an owner; so a router at distance `d` holds, and claims on the wire, no
      cost below `d`, and one that no owner can reach none but 16. */
  lemma NeverTooShort(top: Topology, x: Net, y: Net, steps: nat, n: Node, p: Prefix, d: nat)
    requires Init(top, x) && Reaches(top, x, y, steps)
    requires n in y.tables && p in y.tables[n] && y.tables[n][p].routeType == Rip
    ensures var e := y.tables[n][p];
            && e.nextHop.Some? && top.Hears(n, e.nextHop.value)
            && (e.cost < 16 ==> e.cost >= 1 && top.Within(e.cost - 1, top.owner[e.nextHop.value], p))
            && (top.Distance(d, n, p) ==> e.cost >= Min(d, 16))
            && ((forall k: nat :: !top.Within(k, n, p)) ==> e.cost == 16)
  {
    ReachedInv(top, x, y, steps);
    var e := y.tables[n][p];
    assert EntryTrue(top, n, e);
    if e.cost < INFINITY {
      top.OneLinkMore(e.cost - 1, n, e.nextHop.value, p);
      NotBelowDistance(top, e.cost, d, n, p);
    }
  }

  /** Every learned route was within so many hops when it was installed, whatever its cost is now. */
  ghost predicate InReach(top: Topology, n: Node, t: Table, hops: nat) {
    forall p :: p in t && t[p].routeType == Rip ==> top.Within(hops, n, p)
  }

  lemma FiniteInReach(top: Topology, n: Node, e: Entry, hops: nat)
    requires EntryTrue(top, n, e) && e.routeType == Rip && e.cost <= hops < INFINITY
    ensures top.Within(hops, n, e.prefix)
  {
    top.OneLinkMore(e.cost - 1, n, e.nextHop.value, e.prefix);
    top.WithinUpTo(e.cost, hops, n, e.prefix);
  }

  lemma LearnInReach(top: Topology, n: Node, t: Table, e: Entry, now: nat, hops: nat)
    requires hops == INFINITY - 1 && InReach(top, n, t, hops) && EntryTrue(top, n, e) && e.routeType == Rip
    ensures InReach(top, n, Learn(t, e, now), hops)
  {
    var t' := Learn(t, e, now);
    forall p | p in t' && t'[p].routeType == Rip ensures top.Within(hops, n, p) {
      if p !in t {
        FiniteInReach(top, n, e, hops);
      }
    }
  }

  lemma {:induction false} LearnAllInReach(top: Topology, n: Node, t: Table, es: seq<Entry>, now: nat, hops: nat)
    requires hops == INFINITY - 1 && InReach(top, n, t, hops) && forall e :: e in es ==> EntryTrue(top, n, e) && e.routeType == Rip
    ensures InReach(top, n, LearnAll(t, es, now), hops)
    decreases |es|
  {
    if es != [] {
      LearnInReach(top, n, t, es[0], now, hops);
      LearnAllInReach(top, n, Learn(t, es[0], now), es[1..], now, hops);
    }
  }

  lemma StepInReach(top: Topology, x: Net, y: Net, n: Node, ev: Event, sent: set<Packet>, hops: nat)
    requires hops == INFINITY - 1 && Inv(top, x) && Step(top, x, y, n, ev, sent) && InReach(top, n, x.tables[n], hops)
    ensures InReach(top, n, y.tables[n], hops)
  {
    if ev.Heard? {
      var es := FromClaims(ev.k.claims, ev.k.src);
      forall e | e in es ensures EntryTrue(top, n, e) && e.routeType == Rip {
        var i :| 0 <= i < |es| && es[i] == e;
        LearnedTrue(top, n, ev.k.src, ev.k.claims[i]);
      }
      LearnAllInReach(top, n, x.tables[n], es, ev.now, hops);
    }
  }

  /** In every run a router holds a learned route, of whatever cost, only to a prefix that an owner within 15 hops
      has; so withdrawn and poisoned routes install nothing. */
  lemma OnlyReachableLearned(top: Topology, x: Net, y: Net, steps: nat, n: Node)
    requires Init(top, x) && Reaches(top, x, y, steps) && n in y.tables
    ensures forall p :: p in y.tables[n] && y.tables[n][p].routeType == Rip ==> top.Within(15, n, p)
  {
    ReachedInReach(top, x, y, steps, n, INFINITY - 1);
  }

  lemma {:induction false} ReachedInReach(top: Topology, x: Net, y: Net, steps: nat, n: Node, hops: nat)
    requires Init(top, x) && Reaches(top, x, y, steps) && n in y.tables && hops == INFINITY - 1
    ensures InReach(top, n, y.tables[n], hops)
    decreases steps
  {
    if steps > 0 {
      var z: Net, m: Node, ev: Event, sent: set<Packet> :| Reaches(top, x, z, steps - 1) && Step(top, z, y, m, ev, sent);
      ReachedInReach(top, x, z, steps - 1, n, hops);
      ReachedInv(top, x, z, steps - 1);
      if m == n {
        StepInReach(top, z, y, n, ev, sent, hops);
      }
    }
  }

  lemma NotBelowDistance(top: Topology, cost: nat, d: nat, n: Node, p: Prefix)
    requires top.Within(cost, n, p)
    ensures top.Distance(d, n, p) ==> cost >= d
  {
    if top.Distance(d, n, p) && cost < d {
      top.WithinUpTo(cost, d - 1, n, p);
    }
  }

  /** The same for what is on the wire. */
  lemma NeverClaimsTooShort(top: Topology, x: Net, y: Net, steps: nat, k: Packet, c: Claim, d: nat)
    requires Init(top, x) && Reaches(top, x, y, steps) && k in y.wire && c in k.claims
    ensures k.src in top.owner
    ensures top.Distance(d, top.owner[k.src], c.prefix) ==> c.cost >= Min(d, 16)
    ensures (forall j: nat :: !top.Within(j, top.owner[k.src], c.prefix)) ==> c.cost == 16
  {
    ReachedInv(top, x, y, steps);
    assert PacketTrue(top, k);
    assert ClaimTrue(top, top.owner[k.src], c);
    if c.cost < INFINITY {
      NotBelowDistance(top, c.cost, d, top.owner[k.src], c.prefix);
    }
  }

  lemma FixedStep(t: Table, ev: Event)
    ensures FixedKept(t, After(t, ev))
  {
    if ev.Heard? {
      LearnKeepsFixed(t, FromClaims(ev.k.claims, ev.k.src), ev.now);
    }
  }

  /** In every run, local and static routes are the ones configured. */
  lemma {:induction false} FixedRoutesStay(top: Topology, x: Net, y: Net, steps: nat, n: Node)
    requires Init(top, x) && Reaches(top, x, y, steps) && n in x.tables
    ensures n in y.tables && FixedKept(x.tables[n], y.tables[n])
    decreases steps
  {
    if steps > 0 {
      var z: Net, m: Node, ev: Event, sent: set<Packet> :| Reaches(top, x, z, steps - 1) && Step(top, z, y, m, ev, sent);
      FixedRoutesStay(top, x, z, steps - 1, n);
      FixedStep(z.tables[m], ev);
    }
  }
}
