/** The one run-time panic left between two ends: exactly when an arrival can trip over a stale copy of an
    early segment, and a run in which it does. */
module Crash {
  import opened Arith
  import opened Segments
  import opened Reassembly
  import opened Retransmission
  import opened Endpoints
  import opened Transfer
  import opened Delivery

  /** Segments that lie end to end from `from` up to `to`. */
  ghost predicate Tiles(tiles: seq<Segment>, from: int, to: int)
    decreases |tiles|
  {
    if tiles == [] then from == to
    else tiles[0].seqNum == from && tiles[0].payload != [] && Tiles(tiles[1..], from + |tiles[0].payload|, to)
  }

  /** `e` lies among the queued segments besides tiles that lead from `at` to its end, and is longer than
      what is then left of the window. */
  ghost predicate Trap(queue: multiset<Segment>, at: int, wnd: nat, tiles: seq<Segment>, e: Segment) {
    && multiset(tiles) + multiset{e} <= queue
    && Tiles(tiles, at, e.seqNum + |e.payload|)
    && 0 < at + wnd - (e.seqNum + |e.payload|) < |e.payload|
  }

  lemma {:induction false} PanicIsTrap(queue: seq<Segment>, data: seq<Byte>, at: int, wnd: nat, log: seq<Chunk>, base: U32, sent: seq<Byte>)
    returns (tiles: seq<Segment>, e: Segment)
    requires 0 < wnd && Ledger(log, base, sent) && base <= at <= base + |sent|
    requires forall g :: g in queue ==> OnLog(log, g)
    requires Boundary(log, at) && InEdge(log, at + wnd)
    requires Aggregate(queue, data, at, wnd) == Panicked
    ensures Trap(multiset(queue), at, wnd, tiles, e)
    decreases |queue|
  {
    var seg := queue[0];
    var n := |seg.payload|;
    assert multiset(queue) == multiset{seg} + multiset(queue[1..]) by { assert queue == [seg] + queue[1..]; }
    if n > 0 {
      AlignedHead(seg, at, wnd, log, base, sent);
    }
    WholeHeadTurn(queue, data, at, wnd);
    if seg.seqNum + n == at && n > wnd {
      tiles, e := [], seg;
    } else if seg.seqNum + n <= at {
      tiles, e := PanicIsTrap(queue[1..], data, at, wnd, log, base, sent);
    } else {
      var rest;
      rest, e := PanicIsTrap(queue[1..], data + seg.payload, at + n, wnd - n, log, base, sent);
      tiles := [seg] + rest;
      assert tiles[1..] == rest;
    }
  }

  lemma {:induction false} TilesEndAtOrAbove(tiles: seq<Segment>, from: int, to: int)
    requires Tiles(tiles, from, to)
    ensures from <= to && (tiles != [] ==> from + |tiles[0].payload| <= to)
    decreases |tiles|
  {
    if tiles != [] {
      TilesEndAtOrAbove(tiles[1..], from + |tiles[0].payload|, to);
    }
  }

  lemma {:induction false} TrapPanics(tiles: seq<Segment>, e: Segment, rest: seq<Segment>, data: seq<Byte>, at: U32, wnd: nat)
    requires Tiles(tiles, at, e.seqNum + |e.payload|) && e.seqNum + |e.payload| + 65535 < TWO32
    requires 0 < at + wnd - (e.seqNum + |e.payload|) < |e.payload|
    ensures Aggregate(tiles + [e] + rest, data, at, wnd) == Panicked
    decreases |tiles|
  {
    var queue := tiles + [e] + rest;
    TilesEndAtOrAbove(tiles, at, e.seqNum + |e.payload|);
    if tiles == [] {
      assert queue[0] == e;
      WholeHeadTurn(queue, data, at, wnd);
    } else {
      var seg := tiles[0];
      assert queue[0] == seg && queue[1..] == tiles[1..] + [e] + rest;
      WholeHeadTurn(queue, data, at, wnd);
      TrapPanics(tiles[1..], e, rest, data + seg.payload, at + |seg.payload|, wnd - |seg.payload|);
    }
  }

  lemma {:induction false} SomeOrder(m: multiset<Segment>) returns (order: seq<Segment>)
    ensures multiset(order) == m
    decreases |m|
  {
    if m == multiset{} {
      order := [];
    } else {
      var g :| g in m;
      var rest := SomeOrder(m - multiset{g});
      order := [g] + rest;
    }
  }

  ghost predicate CrashesWith(r: Endpoint, g: Segment, order: seq<Segment>)
    requires r.Valid()
  {
    multiset(order) == r.earlyArrivalQ && r.HandleSeqNum(g, order).0.status == Crashed
  }

  ghost predicate Trapped(queue: multiset<Segment>, at: int, wnd: nat) {
    exists tiles: seq<Segment>, e: Segment :: Trap(queue, at, wnd, tiles, e)
  }

  /** In a reachable state, exactly: an arrival can crash the receiver, for some order in which the heap
      surfaces the early arrivals, if and only if it is accepted and not early, and among them lies a
      segment besides tiles that lead from the arrival's end to its own, longer than the window then left. */
  lemma ArrivalCrashIff(s: Endpoint, r: Endpoint, toR: set<Segment>, toS: set<Segment>, n: nat, g: Segment)
    requires Ends(s, r, toR, toS, n) && r.Valid() && r.status == Open && g in toR
    ensures (exists order: seq<Segment> :: CrashesWith(r, g, order))
            <==> && IsValidSeg(g, r.expectedSeqNum, r.windowSize) && g.seqNum <= r.expectedSeqNum
                 && |g.payload| <= r.windowSize
                 && Trapped(r.earlyArrivalQ, r.expectedSeqNum + |g.payload|, r.windowSize - |g.payload|)
  {
    FlowReached(s, r, toR, toS, n);
    if IsValidSeg(g, r.expectedSeqNum, r.windowSize) && g.seqNum <= r.expectedSeqNum {
      WholeArrival(s, r, toR, toS, g);
      var at, wnd := r.expectedSeqNum + |g.payload|, r.windowSize - |g.payload|;
      if order: seq<Segment> :| CrashesWith(r, g, order) {
        CrashIsTrap(s, r, toR, toS, g, order);
      }
      if Trapped(r.earlyArrivalQ, at, wnd) {
        var tiles: seq<Segment>, e: Segment :| Trap(r.earlyArrivalQ, at, wnd, tiles, e);
        TrapCrashes(s, r, toR, toS, g, tiles, e);
      }
    } else {
      forall order: seq<Segment> ensures !CrashesWith(r, g, order) {
        if multiset(order) == r.earlyArrivalQ {
          SeqNumShape(r, g, order);
        }
      }
    }
  }

  lemma WholeArrival(s: Endpoint, r: Endpoint, toR: set<Segment>, toS: set<Segment>, g: Segment)
    requires Flow(s, r, toR, toS) && r.Valid() && g in toR
    requires IsValidSeg(g, r.expectedSeqNum, r.windowSize) && g.seqNum <= r.expectedSeqNum
    ensures g.seqNum == r.expectedSeqNum && |g.payload| <= r.windowSize
    ensures Trim(g, r.expectedSeqNum, r.windowSize) == Bytes(g.payload)
    ensures r.expectedSeqNum + |g.payload| <= s.sndNxt && Boundary(s.log, r.expectedSeqNum + |g.payload|)
  {
    assert SentBy(g, s);
    AcceptedWhole(g, r.expectedSeqNum, r.windowSize, s.log, s.iss + 1, SentPart(s));
  }

  lemma CrashIsTrap(s: Endpoint, r: Endpoint, toR: set<Segment>, toS: set<Segment>, g: Segment, order: seq<Segment>)
    requires Flow(s, r, toR, toS) && r.Valid() && r.status == Open && g in toR && CrashesWith(r, g, order)
    requires IsValidSeg(g, r.expectedSeqNum, r.windowSize) && g.seqNum <= r.expectedSeqNum
    ensures |g.payload| <= r.windowSize
    ensures Trapped(r.earlyArrivalQ, r.expectedSeqNum + |g.payload|, r.windowSize - |g.payload|)
  {
    WholeArrival(s, r, toR, toS, g);
    SeqNumShape(r, g, order);
    QueueCarries(s, r, toR, order);
    var at, wnd := r.expectedSeqNum + |g.payload|, r.windowSize - |g.payload|;
    assert Add(g.seqNum, |g.payload|) == at;
    var tiles, e := PanicIsTrap(order, g.payload, at, wnd, s.log, s.iss + 1, SentPart(s));
    assert Trap(r.earlyArrivalQ, at, wnd, tiles, e);
  }

  lemma QueuedBelow(s: Endpoint, r: Endpoint, toR: set<Segment>, e: Segment)
    requires Plain(s) && AllSentBy(toR, s) && QueueSent(r, toR) && e in r.earlyArrivalQ
    ensures e.seqNum + |e.payload| + 65535 < TWO32
  {
    assert SentBy(e, s);
  }

  lemma TrapCrashes(s: Endpoint, r: Endpoint, toR: set<Segment>, toS: set<Segment>, g: Segment, tiles: seq<Segment>, e: Segment)
    requires Flow(s, r, toR, toS) && r.Valid() && r.status == Open && g in toR
    requires IsValidSeg(g, r.expectedSeqNum, r.windowSize) && g.seqNum <= r.expectedSeqNum && |g.payload| <= r.windowSize
    requires Trap(r.earlyArrivalQ, r.expectedSeqNum + |g.payload|, r.windowSize - |g.payload|, tiles, e)
    ensures exists order: seq<Segment> :: CrashesWith(r, g, order)
  {
    WholeArrival(s, r, toR, toS, g);
    var at, wnd := r.expectedSeqNum + |g.payload|, r.windowSize - |g.payload|;
    InTrap(r.earlyArrivalQ, at, wnd, tiles, e);
    QueuedBelow(s, r, toR, e);
    var order := TrapOrder(r.earlyArrivalQ, tiles, e, g.payload, at, wnd);
    PanicCrashes(r, g, order);
    assert CrashesWith(r, g, order);
  }

  lemma PanicCrashes(r: Endpoint, g: Segment, order: seq<Segment>)
    requires r.Valid() && multiset(order) == r.earlyArrivalQ && g.seqNum == r.expectedSeqNum
    requires IsValidSeg(g, r.expectedSeqNum, r.windowSize) && |g.payload| < r.windowSize && g.seqNum + |g.payload| < TWO32
    requires Trim(g, r.expectedSeqNum, r.windowSize) == Bytes(g.payload)
    requires Aggregate(order, g.payload, g.seqNum + |g.payload|, r.windowSize - |g.payload|) == Panicked
    ensures r.HandleSeqNum(g, order).0.status == Crashed
  {
    SeqNumShape(r, g, order);
  }

  lemma InTrap(queue: multiset<Segment>, at: int, wnd: nat, tiles: seq<Segment>, e: Segment)
    requires Trap(queue, at, wnd, tiles, e)
    ensures e in queue && wnd > 0
  {
    assert e in multiset(tiles) + multiset{e};
    TilesEndAtOrAbove(tiles, at, e.seqNum + |e.payload|);
  }

  lemma TrapOrder(queue: multiset<Segment>, tiles: seq<Segment>, e: Segment, data: seq<Byte>, at: U32, wnd: nat)
    returns (order: seq<Segment>)
    requires Trap(queue, at, wnd, tiles, e) && e.seqNum + |e.payload| + 65535 < TWO32
    ensures multiset(order) == queue && Aggregate(order, data, at, wnd) == Panicked
  {
    assert e.seqNum + |e.payload| >= at by { TilesEndAtOrAbove(tiles, at, e.seqNum + |e.payload|); }
    var rest := SomeOrder(queue - (multiset(tiles) + multiset{e}));
    order := tiles + [e] + rest;
    assert multiset(order) == multiset(tiles) + multiset{e} + multiset(rest);
    TrapPanics(tiles, e, rest, data, at, wnd);
  }

  // A run that crashes: 48 full segments are sent into an open window; the last of them arrives twice, then
  // the others in order, and nothing is read.

  /** The `j`th segment of `data`. */
  function Full(iss: U32, irs: U32, data: seq<Byte>, j: nat): Segment
    requires |data| == BUFFER_CAPACITY && j < 48 && iss + 65536 < TWO32 && irs + 1 < TWO32
  {
    Segment(iss + 1 + MSS * j, irs + 1, BUFFER_CAPACITY, true, data[MSS * j..MSS * j + MSS])
  }

  ghost predicate Ports(iss: U32, irs: U32, data: seq<Byte>) {
    && 65535 <= iss && iss + 65536 <= TWO32 - 65536 && 65535 <= irs && irs + 1 <= TWO32 - 65536
    && |data| == BUFFER_CAPACITY
  }

  lemma StepTo(x: System, n: nat, atA: bool, ev: Event) returns (y: System)
    requires Reaches(x, n) && x.a.Valid() && x.b.Valid()
    requires if atA then Enabled(x.a, ev, x.toA) else Enabled(x.b, ev, x.toB)
    ensures Reaches(y, n + 1)
    ensures atA ==> var (e, out) := Effect(x.a, ev, x.toA); y == x.(a := e, toB := x.toB + Sent(out))
    ensures !atA ==> var (e, out) := Effect(x.b, ev, x.toB); y == x.(b := e, toA := x.toA + Sent(out))
  {
    if atA {
      var (e, out) := Effect(x.a, ev, x.toA);
      y := x.(a := e, toB := x.toB + Sent(out));
    } else {
      var (e, out) := Effect(x.b, ev, x.toB);
      y := x.(b := e, toA := x.toA + Sent(out));
    }
    assert Steps(x, y, atA, ev);
  }

  /** After `k` turns of the send loop. */
  ghost predicate HasSent(y: System, iss: U32, irs: U32, data: seq<Byte>, k: nat)
    requires Ports(iss, irs, data) && k <= 48
  {
    && y.a.Valid() && y.a.status == Open && y.a.iss == iss && y.a.written == data && y.a.sndUna == iss + 1
    && y.a.sndNxt == iss + 1 + MSS * k && y.a.sndWnd == BUFFER_CAPACITY && y.a.probe == None
    && y.a.expectedSeqNum == irs + 1 && y.a.windowSize == BUFFER_CAPACITY
    && y.b == Initial(irs, iss, BUFFER_CAPACITY)
    && forall j: nat :: j < k ==> Full(iss, irs, data, j) in y.toB
  }

  lemma {:induction false} SendsAll(iss: U32, irs: U32, data: seq<Byte>, k: nat) returns (y: System)
    requires Ports(iss, irs, data) && k <= 48
    ensures Reaches(y, k + 1) && HasSent(y, iss, irs, data, k)
  {
    if k == 0 {
      var x := System(Initial(iss, irs, BUFFER_CAPACITY), Initial(irs, iss, BUFFER_CAPACITY), {}, {});
      WriteShape(x.a, data);
      assert data[..BUFFER_CAPACITY] == data;
      assert Reaches(x, 0);
      y := StepTo(x, 0, true, AppWrite(data));
    } else {
      var x := SendsAll(iss, irs, data, k - 1);
      SendsOne(x, iss, irs, data, k - 1);
      y := StepTo(x, k, true, SendLoop);
      var out := x.a.SendTurn().1;
      forall j: nat | j < k ensures Full(iss, irs, data, j) in y.toB {
        assert j == k - 1 ==> Full(iss, irs, data, j) in Sent(out);
      }
    }
  }

  lemma SendsOne(x: System, iss: U32, irs: U32, data: seq<Byte>, k: nat)
    requires Ports(iss, irs, data) && k < 48 && HasSent(x, iss, irs, data, k)
    ensures Enabled(x.a, SendLoop, x.toA)
    ensures var (e, out) := x.a.SendTurn();
            && out == [Full(iss, irs, data, k)]
            && e == x.a.(inflightQ := e.inflightQ, log := e.log, sndNxt := iss + 1 + MSS * (k + 1))
  {
    WindowDistances(x.a);
    SendShape(x.a);
  }

  /** The receiver with two copies of `g` queued, after `j` more segments arrived in order. */
  function Holding(iss: U32, irs: U32, data: seq<Byte>, g: Segment, j: nat): Endpoint
    requires |data| == BUFFER_CAPACITY && j < 48 && iss + 65536 < TWO32
  {
    Initial(irs, iss, BUFFER_CAPACITY).(
      pending := data[..MSS * j], expectedSeqNum := iss + 1 + MSS * j, windowSize := BUFFER_CAPACITY - MSS * j,
      earlyArrivalQ := multiset{g, g})
  }

  lemma EarlyArrival(b: Endpoint, iss: U32, irs: U32, data: seq<Byte>, queue: seq<Segment>)
    requires Ports(iss, irs, data) && b == Initial(irs, iss, BUFFER_CAPACITY).(earlyArrivalQ := multiset(queue))
    ensures var g := Full(iss, irs, data, 47);
            b.Receive(g, queue).0 == b.(earlyArrivalQ := multiset(queue) + multiset{g})
  {
    var g := Full(iss, irs, data, 47);
    SeqNumShape(b, g, queue);
    ReceiveParts(b, g, queue);
  }

  lemma InOrderMerge(iss: U32, irs: U32, data: seq<Byte>, j: nat)
    requires Ports(iss, irs, data) && j < 46
    ensures var g, d, b := Full(iss, irs, data, 47), Full(iss, irs, data, j), Holding(iss, irs, data, Full(iss, irs, data, 47), j);
            b.Valid() && b.HandleSeqNum(d, [g, g]) == (b, Some(d.payload), [])
  {
    var g, d := Full(iss, irs, data, 47), Full(iss, irs, data, j);
    var b := Holding(iss, irs, data, g, j);
    assert d.payload[0..MSS] == d.payload;
    SeqNumShape(b, d, [g, g]);
    WholeHeadTurn([g, g], d.payload, b.expectedSeqNum + MSS, b.windowSize - MSS);
  }

  lemma InOrderArrival(iss: U32, irs: U32, data: seq<Byte>, j: nat)
    requires Ports(iss, irs, data) && j < 46
    ensures var g := Full(iss, irs, data, 47);
            && Holding(iss, irs, data, g, j).Valid()
            && Holding(iss, irs, data, g, j).Receive(Full(iss, irs, data, j), [g, g]).0 == Holding(iss, irs, data, g, j + 1)
  {
    var g, d := Full(iss, irs, data, 47), Full(iss, irs, data, j);
    var b := Holding(iss, irs, data, g, j);
    InOrderMerge(iss, irs, data, j);
    ReceiveParts(b, d, [g, g]);
    SegTextShape(b, d.payload);
    assert data[..MSS * j] + d.payload == data[..MSS * (j + 1)];
  }

  lemma LastArrival(iss: U32, irs: U32, data: seq<Byte>)
    requires Ports(iss, irs, data)
    ensures var g := Full(iss, irs, data, 47);
            && Holding(iss, irs, data, g, 46).Valid()
            && Holding(iss, irs, data, g, 46).Receive(Full(iss, irs, data, 46), [g, g]).0.status == Crashed
  {
    var g, d := Full(iss, irs, data, 47), Full(iss, irs, data, 46);
    var b := Holding(iss, irs, data, g, 46);
    DuplicateEarlyCrashesIff(b, d, g);
    ReceiveParts(b, d, [g, g]);
  }

  /** All has been sent, and `j` segments have arrived after the two early ones. */
  ghost predicate HasTaken(y: System, iss: U32, irs: U32, data: seq<Byte>, j: nat)
    requires Ports(iss, irs, data) && j <= 46
  {
    && y.a.Valid() && y.b == Holding(iss, irs, data, Full(iss, irs, data, 47), j)
    && forall i: nat :: i < 48 ==> Full(iss, irs, data, i) in y.toB
  }

  /** All has been sent, and `queue` is what has arrived early. */
  ghost predicate HasQueued(y: System, iss: U32, irs: U32, data: seq<Byte>, queue: seq<Segment>)
    requires Ports(iss, irs, data)
  {
    && y.a.Valid() && y.b == Initial(irs, iss, BUFFER_CAPACITY).(earlyArrivalQ := multiset(queue))
    && forall i: nat :: i < 48 ==> Full(iss, irs, data, i) in y.toB
  }

  lemma QueuesOne(x: System, n: nat, iss: U32, irs: U32, data: seq<Byte>, queue: seq<Segment>) returns (y: System)
    requires Ports(iss, irs, data) && Reaches(x, n) && HasQueued(x, iss, irs, data, queue)
    ensures Reaches(y, n + 1) && HasQueued(y, iss, irs, data, [Full(iss, irs, data, 47)] + queue)
  {
    var g := Full(iss, irs, data, 47);
    EarlyArrival(x.b, iss, irs, data, queue);
    y := StepTo(x, n, false, Arrival(g, queue));
  }

  lemma QueuesTwo(iss: U32, irs: U32, data: seq<Byte>) returns (y: System)
    requires Ports(iss, irs, data)
    ensures Reaches(y, 51) && HasTaken(y, iss, irs, data, 0)
  {
    var g := Full(iss, irs, data, 47);
    var x := SendsAll(iss, irs, data, 48);
    var x1 := QueuesOne(x, 49, iss, irs, data, []);
    y := QueuesOne(x1, 50, iss, irs, data, [g] + []);
    assert data[..0] == [] && [g] + ([g] + []) == [g, g];
  }

  lemma {:induction false} TakesAll(iss: U32, irs: U32, data: seq<Byte>, j: nat) returns (y: System)
    requires Ports(iss, irs, data) && j <= 46
    ensures Reaches(y, 51 + j) && HasTaken(y, iss, irs, data, j)
  {
    if j == 0 {
      y := QueuesTwo(iss, irs, data);
    } else {
      var g := Full(iss, irs, data, 47);
      var x := TakesAll(iss, irs, data, j - 1);
      InOrderArrival(iss, irs, data, j - 1);
      y := StepTo(x, 50 + j, false, Arrival(Full(iss, irs, data, j - 1), [g, g]));
    }
  }

  /** The crash is reached, whatever the data and wherever the sequence numbers start. */
  lemma CrashReached(iss: U32, irs: U32, data: seq<Byte>) returns (y: System)
    requires Ports(iss, irs, data)
    ensures Reaches(y, 98) && y.b.status == Crashed
  {
    var g := Full(iss, irs, data, 47);
    var x := TakesAll(iss, irs, data, 46);
    LastArrival(iss, irs, data);
    y := StepTo(x, 97, false, Arrival(Full(iss, irs, data, 46), [g, g]));
  }
}
