/** pkg/ipstack/ip_internal.go: longest-prefix match and the search for a local next hop. */
module Lookup {
  import opened Arith
  import opened RipTable

  /** How many addresses a prefix of `bits` bits holds. */
  function Size(bits: Bits): (r: nat)
    ensures r > 0
  {
    Pow2(32 - bits)
  }

  /** `netip.Prefix.Contains`; an invalid prefix contains nothing. */
  predicate Contains(p: Prefix, ip: Addr) {
    0 <= p.bits && ip / Size(p.bits) == p.addr / Size(p.bits)
  }

  predicate Masked(p: Prefix) {
    0 <= p.bits && p.addr % Size(p.bits) == 0
  }

  ghost predicate IsLongest(t: Table, ip: Addr, p: Prefix) {
    && p in t && Contains(p, ip)
    && forall q :: q in t && Contains(q, ip) ==> q.bits <= p.bits
  }

  /** With masked keys at most one prefix is the longest, so the order of the map does not matter. */
  lemma LongestUnique(t: Table, ip: Addr, p: Prefix, q: Prefix)
    requires IsLongest(t, ip, p) && IsLongest(t, ip, q) && Masked(p) && Masked(q)
    ensures p == q
  {
    assert p.bits == q.bits;
    WholeBlocks(p.addr, Size(p.bits));
    WholeBlocks(q.addr, Size(p.bits));
  }

  lemma WholeBlocks(x: nat, size: nat)
    requires 0 < size && x % size == 0
    ensures x == x / size * size
  {
  }

  /** Without, it may: two keys that differ in bits beyond their length match the same addresses. */
  lemma UnmaskedAmbiguous(t: Table, ip: Addr, p: Prefix, other: Addr)
    requires IsLongest(t, ip, p) && Prefix(other, p.bits) in t && other / Size(p.bits) == p.addr / Size(p.bits)
    ensures IsLongest(t, ip, Prefix(other, p.bits))
  {
  }

  /** `findLongestMatchedPrefix`; `None` is Go's zero prefix. The map is walked in any order. */
  method FindLongestMatchedPrefix(t: Table, destIP: Addr) returns (longest: Option<Prefix>)
    ensures longest.Some? ==> IsLongest(t, destIP, longest.value)
    ensures longest == None ==> forall p :: p in t ==> !Contains(p, destIP)
  {
    longest := None;
    var maxLength := 0;
    var left := t.Keys;
    while left != {}
      invariant left <= t.Keys && 0 <= maxLength
      invariant longest.Some? ==> longest.value in t && Contains(longest.value, destIP) && longest.value.bits == maxLength
      invariant longest.Some? ==> forall q :: q in t && q !in left && Contains(q, destIP) ==> q.bits <= maxLength
      invariant longest == None ==> maxLength == 0 && forall q :: q in t && q !in left ==> !Contains(q, destIP)
      decreases left
    {
      var prefix :| prefix in left;
      left := left - {prefix};
      if Contains(prefix, destIP) && prefix.bits >= maxLength {
        longest := Some(prefix);
        maxLength := prefix.bits;
      }
    }
  }

  ghost predicate AllMasked(t: Table) { forall p :: p in t ==> Masked(p) }

  /** `IsLongest`, folded away. */
  ghost predicate Picked(t: Table, ip: Addr, p: Prefix) {
    forall k: int :: Fold(k) ==> IsLongest(t, ip, p)
  }

  /** The longest match as a function of table and address. */
  ghost function Longest(t: Table, ip: Addr): (m: Option<Prefix>)
    ensures m.Some? ==> m.value in t
  {
    if exists p :: Picked(t, ip, p) then
      var p :| Picked(t, ip, p);
      assert Fold(0);
      Some(p)
    else None
  }

  lemma LongestIs(t: Table, ip: Addr, found: Option<Prefix>)
    requires AllMasked(t)
    requires found.Some? ==> IsLongest(t, ip, found.value)
    requires found == None ==> forall p :: p in t ==> !Contains(p, ip)
    ensures Longest(t, ip) == found
  {
    assert Fold(0);
    if found.Some? {
      assert Picked(t, ip, found.value);
      assert Picked(t, ip, Longest(t, ip).value);
      LongestUnique(t, ip, found.value, Longest(t, ip).value);
    }
  }

  lemma {:induction false} SomeLongest(t: Table, ip: Addr, p: Prefix)
    requires p in t && Contains(p, ip)
    ensures exists q :: IsLongest(t, ip, q)
    decreases 32 - p.bits
  {
    if !IsLongest(t, ip, p) {
      var q :| q in t && Contains(q, ip) && q.bits > p.bits;
      SomeLongest(t, ip, q);
    }
  }

  /** On masked tables it is what it should be: the longest prefix that contains the address, if any does. */
  lemma LongestMeans(t: Table, ip: Addr, p: Prefix)
    requires AllMasked(t)
    ensures Longest(t, ip) == Some(p) <==> IsLongest(t, ip, p)
    ensures Longest(t, ip) == None <==> forall q :: q in t ==> !Contains(q, ip)
  {
    if q :| q in t && Contains(q, ip) {
      SomeLongest(t, ip, q);
      var l :| IsLongest(t, ip, l);
      LongestIs(t, ip, Some(l));
      if IsLongest(t, ip, p) {
        LongestUnique(t, ip, p, l);
      }
    } else {
      LongestIs(t, ip, None);
    }
  }

  /** `alt` is the last gateway followed, `None` when the route found was local at once. */
  datatype NextHop = Found(entry: Entry, alt: Option<Addr>) | NoRoute(alt: Option<Addr>)

  /** The search cut off after `n` gateways; `None` if it has not ended by then. A gateway that is not
      an address (`None`) matches no prefix. */
  ghost function Chase(t: Table, ip: Option<Addr>, alt: Option<Addr>, n: nat): Option<NextHop>
    decreases n
  {
    var m := if ip.Some? then Longest(t, ip.value) else None;
    if m == None then Some(NoRoute(alt))
    else
      var e := t[m.value];
      if e.localNextHop != "" then Some(Found(e, alt))
      else if n == 0 then None
      else Chase(t, e.nextHop, e.nextHop, n - 1)
  }

  /** What is found: a local route, the longest match of the last gateway, or of the destination if no
      gateway was needed. */
  lemma {:induction false} FoundIsLocal(t: Table, ip: Option<Addr>, alt: Option<Addr>, n: nat)
    requires Chase(t, ip, alt, n).Some? && Chase(t, ip, alt, n).value.Found?
    ensures var r := Chase(t, ip, alt, n).value;
            && r.entry.localNextHop != ""
            && ((r.alt == alt && Ends(t, ip, r.entry)) || Ends(t, r.alt, r.entry))
    decreases n
  {
    var e := t[Longest(t, ip.value).value];
    if e.localNextHop == "" {
      FoundIsLocal(t, e.nextHop, e.nextHop, n - 1);
    }
  }

  ghost predicate Ends(t: Table, ip: Option<Addr>, e: Entry) {
    ip.Some? && Longest(t, ip.value).Some? && t[Longest(t, ip.value).value] == e
  }

  /** What the next hop of the route under `p` matches; `None` if that is the end of the search. */
  ghost function NextMatch(t: Table, p: Prefix): Option<Prefix>
    requires p in t
  {
    if t[p].localNextHop != "" || t[p].nextHop == None then None else Longest(t, t[p].nextHop.value)
  }

  /** A rank that falls strictly from each route that is not local to the one its next hop matches. */
  ghost predicate Ranked(t: Table, rank: map<Prefix, nat>) {
    && t.Keys <= rank.Keys
    && forall p :: p in t && NextMatch(t, p).Some? ==> rank[NextMatch(t, p).value] < rank[p]
  }

  /** On a ranked table the search ends. */
  lemma {:induction false} RankedEnds(t: Table, rank: map<Prefix, nat>, ip: Option<Addr>, alt: Option<Addr>, n: nat)
    requires Ranked(t, rank)
    requires ip.Some? && Longest(t, ip.value).Some? ==> rank[Longest(t, ip.value).value] < n
    ensures Chase(t, ip, alt, n).Some?
    decreases n
  {
    if ip.Some? && Longest(t, ip.value).Some? {
      var p := Longest(t, ip.value).value;
      if t[p].localNextHop == "" {
        var next := t[p].nextHop;
        assert next.Some? ==> NextMatch(t, p) == Longest(t, next.value);
        RankedEnds(t, rank, next, next, n - 1);
      }
    }
  }

  // When the search ends at all: walking a finite graph in which every node has at most one successor.

  ghost predicate Closed(g: map<Prefix, Option<Prefix>>) {
    forall p :: p in g && g[p].Some? ==> g[p].value in g
  }

  ghost function Walk(g: map<Prefix, Option<Prefix>>, p: Prefix, k: nat): (q: Option<Prefix>)
    requires Closed(g) && p in g
    ensures q.Some? ==> q.value in g
    decreases k
  {
    if k == 0 then Some(p)
    else
      var q := Walk(g, p, k - 1);
      if q == None then None else g[q.value]
  }

  lemma {:induction false} OverStaysOver(g: map<Prefix, Option<Prefix>>, p: Prefix, k: nat, l: nat)
    requires Closed(g) && p in g && Walk(g, p, k) == None && k <= l
    ensures Walk(g, p, l) == None
    decreases l - k
  {
    if k < l {
      OverStaysOver(g, p, k + 1, l);
    }
  }

  ghost function Visited(g: map<Prefix, Option<Prefix>>, p: Prefix, k: nat): set<Prefix>
    requires Closed(g) && p in g && Walk(g, p, k).Some?
    decreases k
  {
    {Walk(g, p, k).value} + if k == 0 then {} else Visited(g, p, k - 1)
  }

  lemma {:induction false} VisitedAt(g: map<Prefix, Option<Prefix>>, p: Prefix, k: nat, m: Prefix) returns (i: nat)
    requires Closed(g) && p in g && Walk(g, p, k).Some? && m in Visited(g, p, k)
    ensures i <= k && Walk(g, p, i) == Some(m)
    decreases k
  {
    i := k;
    if Walk(g, p, k).value != m {
      i := VisitedAt(g, p, k - 1, m);
    }
  }

  /** Until a node comes up twice, each step visits another one. */
  lemma {:induction false} NewOrSeen(g: map<Prefix, Option<Prefix>>, p: Prefix, k: nat) returns (i: nat, j: nat)
    requires Closed(g) && p in g && Walk(g, p, k).Some?
    ensures Visited(g, p, k) <= g.Keys
    ensures |Visited(g, p, k)| == k + 1 || (i < j <= k && Walk(g, p, j).Some? && Walk(g, p, i) == Walk(g, p, j))
    decreases k
  {
    i, j := 0, 0;
    if k > 0 {
      i, j := NewOrSeen(g, p, k - 1);
      var m := Walk(g, p, k).value;
      if m in Visited(g, p, k - 1) {
        i := VisitedAt(g, p, k - 1, m);
        j := k;
      }
    }
  }

  lemma {:induction false} Shifted(g: map<Prefix, Option<Prefix>>, p: Prefix, i: nat, j: nat, x: nat)
    requires Closed(g) && p in g && Walk(g, p, i) == Walk(g, p, j)
    ensures Walk(g, p, i + x) == Walk(g, p, j + x)
    decreases x
  {
    if x > 0 {
      Shifted(g, p, i, j, x - 1);
    }
  }

  lemma {:induction false} GoesRound(g: map<Prefix, Option<Prefix>>, p: Prefix, i: nat, j: nat, k: nat)
    requires Closed(g) && p in g && i < j && Walk(g, p, j).Some? && Walk(g, p, i) == Walk(g, p, j)
    ensures Walk(g, p, k).Some?
    decreases k
  {
    if k > j {
      Shifted(g, p, i, j, k - j);
      GoesRound(g, p, i, j, k - (j - i));
    } else if Walk(g, p, k) == None {
      OverStaysOver(g, p, k, j);
    }
  }

  /** The walk ends if and only if it ends within as many steps as there are nodes. */
  lemma WalkEndsIff(g: map<Prefix, Option<Prefix>>, p: Prefix)
    requires Closed(g) && p in g
    ensures (exists n: nat :: Walk(g, p, n) == None) <==> Walk(g, p, |g.Keys|) == None
  {
    if exists n: nat :: Walk(g, p, n) == None {
      var n: nat :| Walk(g, p, n) == None;
      if Walk(g, p, |g.Keys|).Some? {
        var i, j := NewOrSeen(g, p, |g.Keys|);
        SubsetSize(Visited(g, p, |g.Keys|), g.Keys);
        GoesRound(g, p, i, j, n);
      }
    }
  }

  lemma {:induction false} SubsetSize<T>(a: set<T>, b: set<T>)
    requires a <= b
    ensures |a| <= |b|
  {
    if a != {} {
      var x :| x in a;
      SubsetSize(a - {x}, b - {x});
    }
  }

  /** Which route leads on to which. */
  ghost function Graph(t: Table): (g: map<Prefix, Option<Prefix>>)
    ensures g.Keys == t.Keys && Closed(g)
  {
    map p | p in t :: NextMatch(t, p)
  }

  lemma {:induction false} WalkFromNext(g: map<Prefix, Option<Prefix>>, p: Prefix, k: nat)
    requires Closed(g) && p in g && g[p].Some?
    ensures Walk(g, p, k + 1) == Walk(g, g[p].value, k)
    decreases k
  {
    if k > 0 {
      WalkFromNext(g, p, k - 1);
    } else {
      assert Walk(g, p, 0) == Some(p);
    }
  }

  /** One turn of the search. */
  lemma ChaseTurn(t: Table, ip: Addr, alt: Option<Addr>, p: Prefix, n: nat)
    requires Longest(t, ip) == Some(p)
    ensures NextMatch(t, p) == None ==> Chase(t, Some(ip), alt, n + 1).Some?
    ensures NextMatch(t, p).Some? ==> t[p].nextHop.Some? && Longest(t, t[p].nextHop.value) == NextMatch(t, p)
    ensures NextMatch(t, p).Some? ==> Chase(t, Some(ip), alt, 0) == None
    ensures NextMatch(t, p).Some? ==> Chase(t, Some(ip), alt, n + 1) == Chase(t, t[p].nextHop, t[p].nextHop, n)
  {
  }

  lemma GraphAt(t: Table, p: Prefix)
    requires p in t
    ensures Graph(t)[p] == NextMatch(t, p)
  {
  }

  /** The search and the walk end together, up to a last lookup that matches nothing. */
  lemma {:induction false} WalkEndsChase(t: Table, ip: Addr, alt: Option<Addr>, p: Prefix, n: nat)
    requires Longest(t, ip) == Some(p) && Walk(Graph(t), p, n + 1) == None
    ensures Chase(t, Some(ip), alt, n + 1).Some?
    decreases n
  {
    GraphAt(t, p);
    ChaseTurn(t, ip, alt, p, n);
    if NextMatch(t, p).Some? {
      WalkFromNext(Graph(t), p, n);
      WalkEndsChase(t, t[p].nextHop.value, t[p].nextHop, NextMatch(t, p).value, n - 1);
    }
  }

  lemma {:induction false} ChaseEndsWalk(t: Table, ip: Addr, alt: Option<Addr>, p: Prefix, n: nat)
    requires Longest(t, ip) == Some(p) && Chase(t, Some(ip), alt, n).Some?
    ensures Walk(Graph(t), p, n + 1) == None
    decreases n
  {
    GraphAt(t, p);
    if NextMatch(t, p) == None {
      assert Walk(Graph(t), p, 0) == Some(p);
      OverStaysOver(Graph(t), p, 1, n + 1);
    } else {
      ChaseTurn(t, ip, alt, p, if n > 0 then n - 1 else 0);
      WalkFromNext(Graph(t), p, n);
      ChaseEndsWalk(t, t[p].nextHop.value, t[p].nextHop, NextMatch(t, p).value, n - 1);
    }
  }

  /** The search ends if and only if it ends before it has followed as many gateways as the table has
      routes: otherwise it has come back to where it was, and goes round for ever. */
  lemma EndsIffWithinTable(t: Table, ip: Addr)
    ensures (exists n: nat :: Chase(t, Some(ip), None, n).Some?) <==> Chase(t, Some(ip), None, |t.Keys|).Some?
  {
    if Longest(t, ip).Some? && exists n: nat :: Chase(t, Some(ip), None, n).Some? {
      var n: nat :| Chase(t, Some(ip), None, n).Some?;
      var p := Longest(t, ip).value;
      ChaseEndsWalk(t, ip, None, p, n);
      WalkEndsIff(Graph(t), p);
      WalkEndsChase(t, ip, None, p, |t.Keys| - 1);
    }
  }

  /** For instance, from a route whose next hop it matches itself the search never returns. */
  lemma {:induction false} OwnGatewayLoops(t: Table, ip: Addr, alt: Option<Addr>, p: Prefix, n: nat)
    requires Longest(t, ip) == Some(p) && NextMatch(t, p) == Some(p)
    ensures Chase(t, Some(ip), alt, n) == None
    decreases n
  {
    if n > 0 {
      OwnGatewayLoops(t, t[p].nextHop.value, t[p].nextHop, p, n - 1);
    }
  }

  /** Within as many steps as the table has routes, the walk comes back to a route it has followed. */
  ghost predicate ComesBack(t: Table, p: Prefix, i: nat, j: nat)
    requires p in t
  {
    i < j <= |t.Keys| && Walk(Graph(t), p, j).Some? && Walk(Graph(t), p, i) == Walk(Graph(t), p, j)
  }

  lemma CycleIsEndless(t: Table, ip: Addr, p: Prefix, i: nat, j: nat, n: nat)
    requires Longest(t, ip) == Some(p) && ComesBack(t, p, i, j)
    ensures Chase(t, Some(ip), None, n) == None
  {
    GoesRound(Graph(t), p, i, j, n + 1);
    if Chase(t, Some(ip), None, n).Some? {
      ChaseEndsWalk(t, ip, None, p, n);
    }
  }

  lemma EndlessHasCycle(t: Table, ip: Addr, p: Prefix) returns (i: nat, j: nat)
    requires Longest(t, ip) == Some(p) && forall n: nat :: Chase(t, Some(ip), None, n) == None
    ensures ComesBack(t, p, i, j)
  {
    var g, size := Graph(t), |t.Keys|;
    assert p in t.Keys;
    if Walk(g, p, size) == None {
      WalkEndsChase(t, ip, None, p, size - 1);
    }
    i, j := NewOrSeen(g, p, size);
    SubsetSize(Visited(g, p, size), g.Keys);
  }

  ghost predicate NeverEnds(t: Table, ip: Addr) {
    forall n: nat :: Chase(t, Some(ip), None, n) == None
  }

  /** When the search never ends, exactly. */
  lemma EndlessIffCycle(t: Table, ip: Addr, p: Prefix)
    requires Longest(t, ip) == Some(p)
    ensures NeverEnds(t, ip) <==> exists i: nat, j: nat :: ComesBack(t, p, i, j)
  {
    if NeverEnds(t, ip) {
      var i, j := EndlessHasCycle(t, ip, p);
      assert ComesBack(t, p, i, j);
    } else {
      forall i: nat, j: nat ensures !ComesBack(t, p, i, j) {
        if ComesBack(t, p, i, j) {
          var n: nat :| Chase(t, Some(ip), None, n).Some?;
          CycleIsEndless(t, ip, p, i, j, n);
        }
      }
    }
  }

  lemma NeverEndsIff(t: Table, ip: Addr)
    ensures NeverEnds(t, ip) <==> Chase(t, Some(ip), None, |t.Keys|) == None
  {
    EndsIffWithinTable(t, ip);
    if Chase(t, Some(ip), None, |t.Keys|) == None {
      forall n: nat ensures Chase(t, Some(ip), None, n) == None {
        assert Chase(t, Some(ip), None, n).Some? ==> exists k: nat :: Chase(t, Some(ip), None, k).Some?;
      }
    }
  }

  ghost predicate EndsWith(t: Table, ip: Addr, r: NextHop) {
    exists n: nat :: Chase(t, Some(ip), None, n) == Some(r)
  }

  datatype Search = Ended(r: NextHop) | Endless

  /** The address whose longest match is the last route looked at. */
  function LastAsked(destIP: Addr, alt: Option<Addr>): Addr {
    if alt.Some? then alt.value else destIP
  }

  /** `findNextHopEntry`. The source has no counter: where this gives `Endless` its loop goes round for
      ever (on masked tables; on others it depends on the map order). */
  method FindNextHopEntry(t: Table, destIP: Addr) returns (s: Search)
    ensures AllMasked(t) ==> (s == Endless <==> NeverEnds(t, destIP))
    ensures AllMasked(t) && s.Ended? ==> EndsWith(t, destIP, s.r)
    ensures s.Ended? && s.r.Found? ==>
              && s.r.entry.localNextHop != ""
              && exists p :: IsLongest(t, LastAsked(destIP, s.r.alt), p) && t[p] == s.r.entry
    ensures s.Ended? && s.r.NoRoute? && s.r.alt.Some? ==> forall p :: p in t ==> !Contains(p, s.r.alt.value)
  {
    var altAddr: Option<Addr> := None;
    var matched := FindLongestMatchedPrefix(t, destIP);
    if AllMasked(t) { LongestIs(t, destIP, matched); NeverEndsIff(t, destIP); }
    if matched == None {
      assert AllMasked(t) ==> Chase(t, Some(destIP), None, |t.Keys|) == Some(NoRoute(None));
      return Ended(NoRoute(altAddr));
    }
    var entry, hops, routes := t[matched.value], 0, |t.Keys|;
    while entry.localNextHop == ""
      invariant hops <= routes && matched.Some? && matched.value in t && entry == t[matched.value]
      invariant IsLongest(t, LastAsked(destIP, altAddr), matched.value)
      invariant AllMasked(t) ==> Longest(t, LastAsked(destIP, altAddr)) == matched
      invariant AllMasked(t) ==> Chase(t, Some(LastAsked(destIP, altAddr)), altAddr, routes - hops)
                                 == Chase(t, Some(destIP), None, routes)
      decreases routes - hops
    {
      if hops == routes { return Endless; }
      hops := hops + 1;
      altAddr := entry.nextHop;
      if altAddr == None { return Ended(NoRoute(altAddr)); }
      matched := FindLongestMatchedPrefix(t, altAddr.value);
      if AllMasked(t) { LongestIs(t, altAddr.value, matched); }
      if matched == None { return Ended(NoRoute(altAddr)); }
      entry := t[matched.value];
    }
    s := Ended(Found(entry, altAddr));
  }
}
