/** Once the tables have converged, no update changes a route, and none triggers another. */
module RipSettled {
  import opened Arith
  import opened RipTable
  import opened RipNetwork
  import opened RipConvergence

  ghost predicate ExactAt(top: Topology, n: Node, t: Table, p: Prefix, d: nat) {
    top.Distance(d, n, p) && d < 16 ==> Exact(top, n, t, p, d)
  }

  /** The shortest paths, as far as 15 hops. */
  ghost predicate Settled(top: Topology, n: Node, t: Table) {
    Sealed(top, n, t) && forall p: Prefix, d: nat :: ExactAt(top, n, t, p, d)
  }

  ghost predicate SoundAt(top: Topology, n: Node, e: Entry, d: nat) {
    top.Distance(d, n, e.prefix) && 0 < d < 16 ==> Sound(top, n, e, e.prefix, d)
  }

  /** True, and exact from routers nearer to the prefix. */
  ghost predicate Believable(top: Topology, n: Node, e: Entry) {
    e.routeType == Rip && EntryTrue(top, n, e) && forall d: nat :: SoundAt(top, n, e, d)
  }

  lemma TooFar(top: Topology, n: Node, e: Entry)
    requires EntryTrue(top, n, e) && e.routeType != Static && !top.Within(15, n, e.prefix)
    ensures e.routeType == Rip && e.cost == 16
  {
    FiniteIsWithin(top, n, e);
  }

  /** The table is the same, but for when it was last refreshed. */
  ghost predicate Stamped(t: Table, t': Table, p: Prefix, now: nat) {
    t' == t || (p in t && t' == t[p := t[p].(updatedAt := now)])
  }

  lemma StampsNear(top: Topology, n: Node, t: Table, e: Entry, d: nat, now: nat)
    requires Ready(top, n, t) && e.routeType == Rip && EntryTrue(top, n, e)
    requires top.Distance(d, n, e.prefix) && d < 16 && Exact(top, n, t, e.prefix, d)
    requires d > 0 ==> Sound(top, n, e, e.prefix, d)
    ensures Stamped(t, Learn(t, e, now), e.prefix, now)
  {
    if d > 0 {
      NotShorter(top, n, e, e.prefix, d);
    }
  }

  lemma StampsFar(top: Topology, n: Node, t: Table, e: Entry, now: nat)
    requires Ready(top, n, t) && e.routeType == Rip && EntryTrue(top, n, e) && !top.Within(15, n, e.prefix)
    ensures Stamped(t, Learn(t, e, now), e.prefix, now)
  {
    TooFar(top, n, e);
    if e.prefix in t {
      TooFar(top, n, t[e.prefix]);
    }
  }

  /** A heartbeat, at most. */
  lemma OnlyStamps(top: Topology, n: Node, t: Table, e: Entry, now: nat)
    requires Settled(top, n, t) && Believable(top, n, e)
    ensures Stamped(t, Learn(t, e, now), e.prefix, now)
  {
    assert Fold(0);
    if top.Within(15, n, e.prefix) {
      var d := Nearest(top, 15, n, e.prefix);
      assert ExactAt(top, n, t, e.prefix, d) && SoundAt(top, n, e, d);
      StampsNear(top, n, t, e, d, now);
    } else {
      StampsFar(top, n, t, e, now);
    }
  }

  lemma StampRoutes(t: Table, t': Table, p: Prefix, now: nat)
    requires Stamped(t, t', p, now)
    ensures forall q :: Route(t', q) == Route(t, q)
  {
  }

  lemma StampTrue(top: Topology, n: Node, t: Table, t': Table, p: Prefix, now: nat)
    requires TableTrue(top, n, t) && Stamped(t, t', p, now)
    ensures TableTrue(top, n, t')
  {
    forall q | q in t' ensures t'[q].prefix == q && EntryTrue(top, n, t'[q]) {
      assert EntryTrue(top, n, t[q]);
    }
  }

  lemma StampReady(top: Topology, n: Node, t: Table, t': Table, p: Prefix, now: nat)
    requires Ready(top, n, t) && Stamped(t, t', p, now)
    ensures Ready(top, n, t')
  {
    StampTrue(top, n, t, t', p, now);
  }

  lemma StampSettled(top: Topology, n: Node, t: Table, t': Table, p: Prefix, now: nat)
    requires Settled(top, n, t) && Stamped(t, t', p, now)
    ensures Settled(top, n, t') && forall q :: Route(t', q) == Route(t, q)
  {
    StampRoutes(t, t', p, now);
    assert Ready(top, n, t) by { assert Fold(0); }
    StampReady(top, n, t, t', p, now);
    forall q: Prefix, d: nat ensures ExactAt(top, n, t', q, d) {
      assert ExactAt(top, n, t, q, d);
    }
  }

  lemma {:induction false} NothingAlters(top: Topology, n: Node, t: Table, es: seq<Entry>, now: nat)
    requires Settled(top, n, t) && forall e :: e in es ==> Believable(top, n, e)
    ensures Altered(t, es, now) == [] && forall p :: Route(LearnAll(t, es, now), p) == Route(t, p)
    decreases |es|
  {
    if es != [] {
      assert es[0] in es;
      OnlyStamps(top, n, t, es[0], now);
      StampSettled(top, n, t, Learn(t, es[0], now), es[0].prefix, now);
      NothingAlters(top, n, Learn(t, es[0], now), es[1..], now);
    }
  }

  lemma SettledWhenConverged(top: Topology, x: Tables, n: Node)
    requires AllReady(top, x) && Converged(top, x, 15) && n in x
    ensures Settled(top, n, x[n])
  {
    forall p: Prefix, d: nat ensures ExactAt(top, n, x[n], p, d) {
      assert ConvergedAt(top, x, 15, n, p, d);
    }
  }

  lemma AllBelievable(top: Topology, x: Tables, n: Node, inbox: seq<Packet>, e: Entry)
    requires AllReady(top, x) && Converged(top, x, 15) && Timely(top, x, n, inbox) && e in Incoming(inbox)
    ensures Believable(top, n, e)
  {
    var k, c := IncomingFrom(inbox, e);
    UpdateTrue(top, x, n, k, c);
    forall d: nat ensures SoundAt(top, n, e, d) {
      if top.Distance(d, n, e.prefix) && 0 < d < 16 {
        ArrivesSound(top, x, n, inbox, e, e.prefix, d, 15);
      }
    }
  }

  lemma ConvergedBefore(top: Topology, x: Tables, j: nat)
    requires 15 <= j && Converged(top, x, j)
    ensures Converged(top, x, 15)
  {
    forall n: Node, p: Prefix, d: nat ensures ConvergedAt(top, x, 15, n, p, d) {
      assert ConvergedAt(top, x, j, n, p, d);
    }
  }

  /** After 15 rounds, whatever full updates a router hears of its neighbours, in whatever number and order, no
      route changes, and nothing is announced. */
  lemma QuietAfter15(top: Topology, run: seq<Tables>, k: nat, n: Node, inbox: seq<Packet>, now: nat)
    requires 15 <= k < |run| && Rounds(top, run) && AllReady(top, run[0]) && n in run[k]
    requires Timely(top, run[k], n, inbox)
    ensures Altered(run[k][n], Incoming(inbox), now) == []
    ensures forall p :: Route(LearnAll(run[k][n], Incoming(inbox), now), p) == Route(run[k][n], p)
  {
    Converges(top, run, k);
    ConvergedBefore(top, run[k], k);
    SettledWhenConverged(top, run[k], n);
    forall e | e in Incoming(inbox) ensures Believable(top, n, e) {
      AllBelievable(top, run[k], n, inbox, e);
    }
    NothingAlters(top, n, run[k][n], Incoming(inbox), now);
  }

  /** So the routes of all later rounds are those of the 15th. */
  lemma {:induction false} RoutesStay(top: Topology, run: seq<Tables>, k: nat, n: Node, p: Prefix)
    requires 15 <= k < |run| && Rounds(top, run) && AllReady(top, run[0]) && n in run[15]
    ensures n in run[k] && Route(run[k][n], p) == Route(run[15][n], p)
    decreases k
  {
    if k > 15 {
      RoutesStay(top, run, k - 1, n, p);
      assert RoundNumber(top, run, k) && RoundFor(top, run[k - 1], n, run[k][n]);
      var inbox: seq<Packet>, now: nat :| RoundAt(top, run[k - 1], n, inbox, run[k][n], now);
      QuietAfter15(top, run, k - 1, n, inbox, now);
    }
  }
}
