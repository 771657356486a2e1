/** Nothing written is ever out of reach: from every reachable state in which what is sent can still be taken,
    some continuation delivers all that one end has written. */
module Progress {
  import opened Arith
  import opened Segments
  import opened Reassembly
  import opened Retransmission
  import opened Endpoints
  import opened Transfer
  import opened Delivery
  import opened Crash
  import opened Sides

  /** Two ends of which `way` holds the segments to `b` that are not lost: only they, and what `a` goes on to
      send, can arrive there. */
  datatype Net = Net(a: Endpoint, b: Endpoint, toA: set<Segment>, toB: set<Segment>, way: set<Segment>) {
    function Sys(): System { System(a, b, toA, toB) }
  }

  /** Nothing is lost. */
  function Whole(x: System): Net { Net(x.a, x.b, x.toA, x.toB, x.toB) }

  /** One event, folded away. */
  ghost predicate Goes(x: Net, y: Net, atA: bool, ev: Event) {
    && Steps(x.Sys(), y.Sys(), atA, ev)
    && forall k: int :: Fold(k) ==>
         && x.a.Valid() && x.b.Valid()
         && if atA then Enabled(x.a, ev, x.toA) && y.way == x.way + Sent(Effect(x.a, ev, x.toA).1)
            else y.way == x.way && (ev.Arrival? ==> ev.g in x.way)
  }

  ghost predicate Leads(x: Net, y: Net, k: nat)
    decreases k
  {
    if k == 0 then x == y
    else exists z: Net, atA: bool, ev: Event :: Leads(x, z, k - 1) && Goes(z, y, atA, ev)
  }

  ghost predicate Continued(x: Net, y: Net) {
    exists k: nat :: Leads(x, y, k)
  }

  /** Nothing is lost in `y` that was not lost in `x`. */
  ghost predicate NoMoreLost(x: Net, y: Net) {
    y.way <= y.toB && x.way <= y.way && forall g :: g in y.toB && g !in y.way ==> g in x.toB && g !in x.way
  }

  /** `x` is reached, and continues `o`. */
  ghost predicate Onward(o: Net, x: Net) {
    NoMoreLost(o, x) && exists n: nat, k: nat :: Reaches(x.Sys(), n) && Leads(o, x, k)
  }

  lemma GoOn(o: Net, x: Net, atA: bool, ev: Event) returns (y: Net)
    requires Onward(o, x) && x.a.Valid() && x.b.Valid()
    requires if atA then Enabled(x.a, ev, x.toA) else Enabled(x.b, ev, x.toB) && (ev.Arrival? ==> ev.g in x.way)
    ensures Onward(o, y)
    ensures atA ==> var (e, out) := Effect(x.a, ev, x.toA); y == x.(a := e, toB := x.toB + Sent(out), way := x.way + Sent(out))
    ensures !atA ==> var (e, out) := Effect(x.b, ev, x.toB); y == x.(b := e, toA := x.toA + Sent(out))
  {
    var n: nat, k: nat :| Reaches(x.Sys(), n) && Leads(o, x, k);
    var z := StepTo(x.Sys(), n, atA, ev);
    y := Net(z.a, z.b, z.toA, z.toB, if atA then x.way + Sent(Effect(x.a, ev, x.toA).1) else x.way);
    assert Steps(x.Sys(), y.Sys(), atA, ev) && Goes(x, y, atA, ev);
    assert Leads(o, y, k + 1);
    assert Reaches(y.Sys(), n + 1);
  }

  /** The events of a continuation can happen with nothing lost just as well. */
  lemma {:induction false} LeadReaches(x: Net, y: Net, n: nat, k: nat)
    requires Reaches(x.Sys(), n) && Leads(x, y, k)
    ensures Reaches(y.Sys(), n + k)
    decreases k
  {
    if k > 0 {
      var z: Net, atA: bool, ev: Event :| Leads(x, z, k - 1) && Goes(z, y, atA, ev);
      LeadReaches(x, z, n, k - 1);
      assert n + k - 1 == n + (k - 1);
    }
  }

  ghost predicate Live(o: Net, x: Net) {
    Onward(o, x) && x.a.status == Open && x.b.status == Open
  }

  ghost predicate Facts(x: Net) {
    && x.a.Valid() && x.b.Valid() && NoWrap(x.a) && NoWrap(x.b)
    && Flow(x.a, x.b, x.toB, x.toA) && Flow(x.b, x.a, x.toA, x.toB)
    && Side(x.a, x.toB) && Side(x.b, x.toA)
  }

  lemma FactsReached(x: Net, n: nat)
    requires Reaches(x.Sys(), n)
    ensures Facts(x)
  {
    FlowReached(x.a, x.b, x.toB, x.toA, n);
    FlowReached(x.b, x.a, x.toA, x.toB, n);
    SidesReached(x.Sys(), n);
    assert Fold(0);
  }

  lemma FactsOf(o: Net, x: Net)
    requires Onward(o, x)
    ensures Facts(x)
  {
    var n: nat, k: nat :| Reaches(x.Sys(), n) && Leads(o, x, k);
    FactsReached(x, n);
  }

  // Both applications can read.

  function ReadOut(e: Endpoint): Endpoint {
    e.(delivered := e.delivered + e.pending, pending := [], windowSize := BUFFER_CAPACITY)
  }

  lemma ReadsB(o: Net, x: Net) returns (y: Net)
    requires Live(o, x)
    ensures Live(o, y) && y == x.(b := ReadOut(x.b))
  {
    FactsOf(o, x);
    if x.b.pending == [] {
      y := x;
    } else {
      y := GoOn(o, x, false, AppRead(|x.b.pending|));
    }
  }

  lemma ReadsA(o: Net, x: Net) returns (y: Net)
    requires Live(o, x)
    ensures Live(o, y) && y == x.(a := ReadOut(x.a))
  {
    FactsOf(o, x);
    if x.a.pending == [] {
      y := x;
    } else {
      y := GoOn(o, x, true, AppRead(|x.a.pending|));
    }
  }

  // An arrival need not crash a receiver that has read everything.

  /** A segment beyond `at` comes up first, if there is one. */
  ghost predicate Calm(order: seq<Segment>, at: int) {
    (order != [] && order[0].seqNum > at) || forall e :: e in order ==> e.seqNum <= at
  }

  lemma CalmOrder(queue: multiset<Segment>, at: int) returns (order: seq<Segment>)
    ensures multiset(order) == queue && Calm(order, at)
  {
    if e :| e in queue && e.seqNum > at {
      var rest := SomeOrder(queue - multiset{e});
      order := [e] + rest;
    } else {
      order := SomeOrder(queue);
      forall e | e in order ensures e.seqNum <= at {
        assert e in multiset(order);
      }
    }
  }

  lemma BlockedMerge(order: seq<Segment>, data: seq<Byte>, at: U32, wnd: nat)
    requires order != [] && order[0].seqNum > at && order[0].seqNum + |order[0].payload| < TWO32 && |data| <= wnd
    ensures AggregateEarlyArrivals(order, data, at, wnd) == Merged(data, order)
  {
  }

  /** No segment that starts at or below `at` ends near the edge of an open window. */
  lemma FarFromEdge(s: Endpoint, r: Endpoint, toR: set<Segment>, at: int)
    requires Side(s, toR) && AllSentBy(toR, s) && QueueSent(r, toR) && at <= r.expectedSeqNum + MSS && r.windowSize == BUFFER_CAPACITY
    requires forall e :: e in r.earlyArrivalQ ==> e.seqNum <= at
    ensures forall e :: e in r.earlyArrivalQ ==> !NearEdge(e, r.expectedSeqNum, r.windowSize)
  {
    forall e | e in r.earlyArrivalQ ensures !NearEdge(e, r.expectedSeqNum, r.windowSize) {
      Short(s, toR, e);
    }
  }

  ghost predicate HandsOn(r: Endpoint, g: Segment, order: seq<Segment>)
    requires r.Valid() && multiset(order) == r.earlyArrivalQ
  {
    var (r', data, out) := r.HandleSeqNum(g, order);
    r'.status == Open && data.Some? && |data.value| >= |g.payload| && out == []
  }

  lemma MergedHandsOn(r: Endpoint, g: Segment, order: seq<Segment>)
    requires r.Valid() && r.status == Open && multiset(order) == r.earlyArrivalQ
    requires g.seqNum == r.expectedSeqNum && IsValidSeg(g, r.expectedSeqNum, r.windowSize)
    requires Trim(g, r.expectedSeqNum, r.windowSize) == Bytes(g.payload) && |g.payload| <= r.windowSize
    requires r.HandleSeqNum(g, order).0.status == Open
             || AggregateEarlyArrivals(order, g.payload, Add(g.seqNum, |g.payload|), r.windowSize).Merged?
    ensures HandsOn(r, g, order)
  {
    SeqNumShape(r, g, order);
    HandsOnAtLeast(order, g.payload, Add(g.seqNum, |g.payload|), r.windowSize);
  }

  lemma CalmArrival(s: Endpoint, r: Endpoint, toR: set<Segment>, toS: set<Segment>, g: Segment, order: seq<Segment>)
    requires Flow(s, r, toR, toS) && Side(s, toR) && r.Valid() && Enabled(r, Arrival(g, order), toR)
    requires r.pending == [] && g.seqNum == r.expectedSeqNum && Calm(order, r.expectedSeqNum + |g.payload|)
    ensures HandsOn(r, g, order)
  {
    Short(s, toR, g);
    assert IsValidSeg(g, r.expectedSeqNum, r.windowSize);
    WholeArrival(s, r, toR, toS, g);
    var at := r.expectedSeqNum + |g.payload|;
    assert multiset(order) == r.earlyArrivalQ && Add(g.seqNum, |g.payload|) == at;
    if order != [] && order[0].seqNum > at {
      assert order[0] in multiset(order);
      QueuedBelow(s, r, toR, order[0]);
      BlockedMerge(order, g.payload, at, r.windowSize);
    } else {
      forall e | e in r.earlyArrivalQ ensures e.seqNum <= at {
        assert e in multiset(order);
      }
      FarFromEdge(s, r, toR, at);
      SeqNumInOrder(s, r, toR, toS, g, order);
      SeqNumSends(r, g, order);
    }
    MergedHandsOn(r, g, order);
  }

  lemma HandsOnAtLeast(order: seq<Segment>, data: seq<Byte>, startSeq: U32, wnd: nat)
    requires |data| <= wnd
    ensures var m := AggregateEarlyArrivals(order, data, startSeq, wnd); m.Merged? ==> |m.data| >= |data|
  {
    if |data| < wnd {
      AggregateAppends(order, data, startSeq, wnd - |data|);
    }
  }

  // At the receiver.

  /** An acknowledgement that is not too old for `handleAck`. */
  predicate Recent(g: Segment, r: Endpoint) { r.sndUna <= g.ackNum + BUFFER_CAPACITY }

  lemma RecentTaken(s: Endpoint, r: Endpoint, toR: set<Segment>, toS: set<Segment>, g: Segment)
    requires Flow(r, s, toS, toR) && g in toR
    ensures Recent(g, r) <==> Sub(r.sndUna, BUFFER_CAPACITY) <= g.ackNum
    ensures g.ackNum <= r.sndNxt
  {
    assert Truthful(g, s);
  }

  lemma TextTaken(s: Endpoint, r: Endpoint, toR: set<Segment>, toS: set<Segment>, g: Segment, order: seq<Segment>)
    requires Flow(s, r, toR, toS) && Flow(r, s, toS, toR) && Side(s, toR) && r.Valid() && Enabled(r, Arrival(g, order), toR)
    requires g.seqNum == r.expectedSeqNum && Recent(g, r) && r.HandleSeqNum(g, order).0.status == Open
    requires r.HandleSeqNum(g, order).1.Some? && r.HandleSeqNum(g, order).1.value != []
    ensures var r' := r.Receive(g, order).0;
            r'.status == Open && r'.expectedSeqNum == r.expectedSeqNum + |r.HandleSeqNum(g, order).1.value|
            && r' == r.(sndUna := r'.sndUna, sndWnd := r'.sndWnd, inflightQ := r'.inflightQ, pending := r'.pending,
                        expectedSeqNum := r'.expectedSeqNum, windowSize := r'.windowSize, earlyArrivalQ := r'.earlyArrivalQ)
  {
    ReceiveParts(r, g, order);
    SeqNumInOrder(s, r, toR, toS, g, order);
    SeqNumSends(r, g, order);
    var (r1, data, out1) := r.HandleSeqNum(g, order);
    RecentTaken(s, r, toR, toS, g);
    var (r2, ok, out2) := r1.HandleAck(g);
    AckSends(r1, g);
    assert ok;
    SegTextShape(r2, data.value);
  }

  /** `b` takes at least `n` bytes, and its own stream is left alone. */
  ghost predicate Received(x: Net, y: Net, n: nat) {
    && y == x.(b := y.b, toA := y.toA) && y.b.written == x.b.written && y.b.sndNxt == x.b.sndNxt
    && y.b.expectedSeqNum >= x.b.expectedSeqNum + n && |y.b.delivered| >= |x.b.delivered|
  }

  /** A recent copy of the next byte is taken. */
  lemma Takes(o: Net, x: Net, g: Segment) returns (y: Net)
    requires Live(o, x) && g in x.way && g.seqNum == x.b.expectedSeqNum && g.payload != [] && Recent(g, x.b)
    ensures Live(o, y) && Received(x, y, |g.payload|)
  {
    var z := ReadsB(o, x);
    FactsOf(o, z);
    var order := CalmOrder(z.b.earlyArrivalQ, z.b.expectedSeqNum + |g.payload|);
    CalmArrival(z.a, z.b, z.toB, z.toA, g, order);
    TextTaken(z.a, z.b, z.toB, z.toA, g, order);
    y := GoOn(o, z, false, Arrival(g, order));
  }

  /** Something that arrives once more is answered with what has been taken by now. */
  lemma AnswersAgain(o: Net, x: Net, g: Segment) returns (y: Net)
    requires Live(o, x) && g in x.way && g.payload != [] && g.seqNum + |g.payload| <= x.b.expectedSeqNum
    ensures Live(o, y) && y == x.(toA := y.toA) && x.b.AckSegment() in y.toA
  {
    FactsOf(o, x);
    assert SentBy(g, x.a);
    var order := SomeOrder(x.b.earlyArrivalQ);
    assert !IsValidSeg(g, x.b.expectedSeqNum, x.b.windowSize);
    SeqNumShape(x.b, g, order);
    ReceiveParts(x.b, g, order);
    y := GoOn(o, x, false, Arrival(g, order));
  }

  // At the sender.

  /** An acknowledgement of all that has been taken, numbered below the right edge. */
  lemma AckTaken(r: Endpoint, s: Endpoint, toS: set<Segment>, toR: set<Segment>, order: seq<Segment>)
    requires Flow(r, s, toS, toR) && Side(r, toS) && s.Valid() && NoWrap(s) && Enabled(s, Arrival(r.AckSegment(), order), toS)
    requires s.pending == [] && r.sndNxt < s.expectedSeqNum + BUFFER_CAPACITY && Calm(order, s.expectedSeqNum)
    requires s.sndUna < r.expectedSeqNum <= s.sndNxt
    ensures var s' := s.Receive(r.AckSegment(), order).0;
            s' == s.(sndUna := r.expectedSeqNum, sndWnd := r.windowSize,
                     inflightQ := Retransmission.AckInflight(s.inflightQ, r.expectedSeqNum), earlyArrivalQ := s'.earlyArrivalQ)
  {
    var g := r.AckSegment();
    ReceiveParts(s, g, order);
    SeqNumInOrder(r, s, toS, toR, g, order);
    assert IsValidSeg(g, s.expectedSeqNum, s.windowSize);
    if g.seqNum <= s.expectedSeqNum {
      AcceptedAtEdge(r, s, toS, toR, g);
      CalmArrival(r, s, toS, toR, g, order);
    }
    SeqNumShape(s, g, order);
    var (s1, data, out1) := s.HandleSeqNum(g, order);
    assert data == Some([]);
  }

  /** What an acknowledgement at `a` leaves alone: its stream and `b`. */
  ghost predicate Acknowledged(x: Net, y: Net) {
    && y.b == x.b && x.way <= y.way
    && y.a == ReadOut(x.a).(sndUna := x.b.expectedSeqNum, sndWnd := x.b.windowSize,
                            inflightQ := Retransmission.AckInflight(x.a.inflightQ, x.b.expectedSeqNum),
                            earlyArrivalQ := y.a.earlyArrivalQ)
  }

  /** `a` can take an acknowledgement: what `b` has sent ends before the window that `a` opens by reading. */
  ghost predicate AckFits(x: Net) { x.b.sndNxt < x.a.expectedSeqNum + BUFFER_CAPACITY }

  lemma Acked(o: Net, x: Net, g: Segment) returns (y: Net)
    requires Live(o, x) && AckFits(x) && x.a.sndUna < x.b.expectedSeqNum
    requires g in x.way && g.payload != [] && g.seqNum + |g.payload| <= x.b.expectedSeqNum
    ensures Live(o, y) && Acknowledged(x, y)
  {
    var x1 := ReadsA(o, x);
    var x2 := AnswersAgain(o, x1, g);
    FactsOf(o, x2);
    var order := CalmOrder(x2.a.earlyArrivalQ, x2.a.expectedSeqNum);
    AckTaken(x2.b, x2.a, x2.toA, x2.toB, order);
    y := GoOn(o, x2, true, Arrival(x2.b.AckSegment(), order));
  }

  lemma {:induction false} AckInflightDrops(q: seq<Flight>, ackNum: U32, f: Flight)
    requires f in q && Add(f.seg.seqNum, f.length) > ackNum
    ensures f in Retransmission.AckInflight(q, ackNum)
  {
    if Add(q[0].seg.seqNum, q[0].length) <= ackNum {
      AckInflightDrops(q[1..], ackNum, f);
    }
  }

  lemma FlightOf(s: Endpoint, f: Flight) returns (i: nat)
    requires Plain(s) && Books(s) && s.status == Open && f in s.inflightQ
    ensures i < |s.inflightQ| == |Unacked(s.log, s.sndUna)| && s.inflightQ[i] == f
    ensures Unacked(s.log, s.sndUna)[i] == Chunk(f.seg.seqNum, f.seg.payload, false)
    ensures Unacked(s.log, s.sndUna)[i] in s.log
    ensures f.length == |f.seg.payload| > 0 && s.sndUna < f.seg.seqNum + f.length <= s.sndNxt
  {
    var j :| 0 <= j < |s.inflightQ| && s.inflightQ[j] == f;
    i := j;
    var c := Unacked(s.log, s.sndUna)[i];
    assert c in Unacked(s.log, s.sndUna);
    UnackedMember(s.log, s.sndUna, c);
    LaidIff(s.log, s.iss + 1, SentPart(s));
    PartitionMember(s.log, s.iss + 1, SentPart(s), c);
  }

  predicate Covers(g: Segment, p: int) { g.seqNum <= p < g.seqNum + |g.payload| }

  /** Once all before it is acknowledged, the segment with the next byte is in front. */
  lemma FrontCovers(s: Endpoint, f: Flight)
    requires Plain(s) && Books(s) && s.status == Open && f in s.inflightQ && Covers(f.seg, s.sndUna)
    ensures s.inflightQ[0] == f
  {
    var i := FlightOf(s, f);
    var k := FlightOf(s, s.inflightQ[0]);
    if i > 0 {
      LaidIff(s.log, s.iss + 1, SentPart(s));
      var first := Unacked(s.log, s.sndUna)[0];
      assert first in Unacked(s.log, s.sndUna);
      UnackedMember(s.log, s.sndUna, first);
      QueueOrdered(s.log, s.iss + 1, SentPart(s), s.sndUna, 0, i);
    }
  }

  /** `y` comes of `x` by a retransmission of `f`, and maybe an acknowledgement before. */
  ghost predicate Resent(x: Net, y: Net, f: Flight) {
    && y.b == x.b && x.way <= y.way && |y.a.delivered| >= |x.a.delivered|
    && y.a == x.a.(sndUna := x.b.expectedSeqNum, sndWnd := y.a.sndWnd, inflightQ := y.a.inflightQ, delivered := y.a.delivered,
                   pending := y.a.pending, windowSize := y.a.windowSize, earlyArrivalQ := y.a.earlyArrivalQ)
    && f.seg.(ackNum := x.a.expectedSeqNum, window := y.a.windowSize) in y.way
    && forall e :: e in x.a.inflightQ && e != f && e.seg.seqNum + |e.seg.payload| > x.b.expectedSeqNum ==> e in y.a.inflightQ
  }

  lemma ResendsFront(o: Net, x: Net, f: Flight) returns (y: Net)
    requires Live(o, x) && f in x.a.inflightQ && f.counter < MAX_RETRANSMISSIONS
    requires Covers(f.seg, x.b.expectedSeqNum) && x.a.sndUna == x.b.expectedSeqNum
    ensures Live(o, y) && Resent(x, y, f)
  {
    FactsOf(o, x);
    FrontCovers(x.a, f);
    TimeoutShape(x.a);
    var (e, out) := x.a.Timeout();
    assert out[0] in Sent(out);
    y := GoOn(o, x, true, RetransTimer);
    forall e | e in x.a.inflightQ && e != f ensures e in y.a.inflightQ {
      var i :| 0 <= i < |x.a.inflightQ| && x.a.inflightQ[i] == e;
      assert y.a.inflightQ[i] == e;
    }
  }

  /** Something that `b` has taken before is still under way. */
  ghost predicate Older(x: Net) {
    exists g :: g in x.way && g.payload != [] && g.seqNum + |g.payload| <= x.b.expectedSeqNum
  }

  /** A queued segment with attempts left is resent, with a new acknowledgement number. */
  lemma Resends(o: Net, x: Net, f: Flight) returns (y: Net)
    requires Live(o, x) && f in x.a.inflightQ && f.counter < MAX_RETRANSMISSIONS && Covers(f.seg, x.b.expectedSeqNum)
    requires x.a.sndUna < x.b.expectedSeqNum ==> AckFits(x) && Older(x)
    ensures Live(o, y) && Resent(x, y, f)
  {
    FactsOf(o, x);
    if x.a.sndUna == x.b.expectedSeqNum {
      y := ResendsFront(o, x, f);
    } else {
      var g :| g in x.way && g.payload != [] && g.seqNum + |g.payload| <= x.b.expectedSeqNum;
      var z := Acked(o, x, g);
      forall e | e in x.a.inflightQ && e.seg.seqNum + |e.seg.payload| > x.b.expectedSeqNum ensures e in z.a.inflightQ {
        var i := FlightOf(x.a, e);
        AckInflightDrops(x.a.inflightQ, x.b.expectedSeqNum, e);
      }
      y := ResendsFront(o, z, f);
    }
  }

  // All that is written.

  /** Its acknowledgement stays recent, whatever the receiver has acknowledged of what it has sent by now. */
  predicate StaysRecent(g: Segment, r: Endpoint) { r.sndNxt <= g.ackNum + BUFFER_CAPACITY }

  ghost predicate HasCopy(c: Chunk, r: Endpoint, way: set<Segment>) {
    exists g :: g in way && g.seqNum == c.seqNum && g.payload == c.payload && StaysRecent(g, r)
  }

  ghost predicate HasFlight(c: Chunk, s: Endpoint) {
    exists f :: f in s.inflightQ && f.seg.seqNum == c.seqNum && f.seg.payload == c.payload && f.counter < MAX_RETRANSMISSIONS
  }

  /** Everything sent that `b` still waits for can still be taken: a copy with a recent acknowledgement is under
      way, or it is queued with attempts left. */
  ghost predicate Ready(x: Net) {
    && AckFits(x) && (x.b.expectedSeqNum > x.a.iss + 1 ==> Older(x))
    && (forall c :: c in x.a.log && c.End() > x.b.expectedSeqNum ==> HasCopy(c, x.b, x.way) || HasFlight(c, x.a))
    && (x.a.probe.Some? && x.a.probe.value.packet.seqNum >= x.b.expectedSeqNum ==> StaysRecent(x.a.probe.value.packet, x.b))
  }

  ghost predicate Running(o: Net, x: Net) { Live(o, x) && Ready(x) }

  /** Nothing was written in between. */
  ghost predicate SameStreams(x: Net, y: Net) {
    && y.a.written == x.a.written && y.b.written == x.b.written && y.b.sndNxt == x.b.sndNxt && y.a.iss == x.a.iss
    && y.b.expectedSeqNum >= x.b.expectedSeqNum && y.a.expectedSeqNum >= x.a.expectedSeqNum
    && |y.b.delivered| >= |x.b.delivered| && |y.a.delivered| >= |x.a.delivered|
  }

  lemma CopyStays(c: Chunk, x: Net, y: Net)
    requires HasCopy(c, x.b, x.way) && x.way <= y.way && y.b.sndNxt == x.b.sndNxt
    ensures HasCopy(c, y.b, y.way)
  {
    var g :| g in x.way && g.seqNum == c.seqNum && g.payload == c.payload && StaysRecent(g, x.b);
    assert g in y.way;
  }

  lemma ReadyStays(x: Net, y: Net)
    requires Ready(x) && SameStreams(x, y) && x.way <= y.way
    requires y.b.expectedSeqNum > x.b.expectedSeqNum && y.b.expectedSeqNum > x.a.iss + 1 ==> Older(y)
    requires y.a.probe.Some? && y.a.probe != x.a.probe ==> StaysRecent(y.a.probe.value.packet, y.b)
    requires forall c :: c in y.a.log && c !in x.a.log ==> HasCopy(c, y.b, y.way)
    requires forall f :: f in x.a.inflightQ && f.seg.seqNum + |f.seg.payload| > y.b.expectedSeqNum ==>
               f in y.a.inflightQ || HasCopy(Chunk(f.seg.seqNum, f.seg.payload, false), y.b, y.way)
    ensures Ready(y)
  {
    if y.b.expectedSeqNum > y.a.iss + 1 && y.b.expectedSeqNum == x.b.expectedSeqNum {
      var g :| g in x.way && g.payload != [] && g.seqNum + |g.payload| <= x.b.expectedSeqNum;
      assert g in y.way;
    }
    forall c | c in y.a.log && c.End() > y.b.expectedSeqNum ensures HasCopy(c, y.b, y.way) || HasFlight(c, y.a) {
      if c in x.a.log {
        if HasCopy(c, x.b, x.way) {
          CopyStays(c, x, y);
        } else {
          FlightStays(c, x, y);
        }
      }
    }
  }

  lemma FlightStays(c: Chunk, x: Net, y: Net)
    requires HasFlight(c, x.a) && c.End() > y.b.expectedSeqNum
    requires forall f :: f in x.a.inflightQ && f.seg.seqNum + |f.seg.payload| > y.b.expectedSeqNum ==>
               f in y.a.inflightQ || HasCopy(Chunk(f.seg.seqNum, f.seg.payload, false), y.b, y.way)
    ensures HasCopy(c, y.b, y.way) || HasFlight(c, y.a)
  {
    var f :| f in x.a.inflightQ && f.seg.seqNum == c.seqNum && f.seg.payload == c.payload && f.counter < MAX_RETRANSMISSIONS;
    if f !in y.a.inflightQ {
      var d := Chunk(f.seg.seqNum, f.seg.payload, false);
      assert HasCopy(d, y.b, y.way);
      var g :| g in y.way && g.seqNum == d.seqNum && g.payload == d.payload && StaysRecent(g, y.b);
    }
  }

  /** The chunk that holds byte `p`. */
  lemma ChunkAt(x: Net, p: int) returns (c: Chunk)
    requires Facts(x) && x.a.iss + 1 <= p < x.a.sndNxt
    ensures c in x.a.log && x.a.iss + 1 <= c.seqNum <= p < c.End() && c.payload != []
    ensures p == x.b.expectedSeqNum ==> c.seqNum == p
  {
    var s := x.a;
    LaidIff(s.log, s.iss + 1, SentPart(s));
    PartitionCovers(s.log, s.iss + 1, SentPart(s), p);
    c :| c in s.log && c.seqNum <= p < c.End();
    PartitionMember(s.log, s.iss + 1, SentPart(s), c);
  }

  lemma TakesOn(o: Net, x: Net, g: Segment) returns (y: Net)
    requires Running(o, x) && g in x.way && g.seqNum == x.b.expectedSeqNum && g.payload != [] && StaysRecent(g, x.b)
    ensures Running(o, y) && SameStreams(x, y) && y.b.expectedSeqNum > x.b.expectedSeqNum
  {
    FactsOf(o, x);
    assert x.b.sndUna <= x.b.sndNxt;
    y := Takes(o, x, g);
    assert Older(y);
    ReadyStays(x, y);
  }

  /** The next byte sent is taken. */
  lemma NextTaken(o: Net, x: Net) returns (y: Net)
    requires Running(o, x) && x.b.expectedSeqNum < x.a.sndNxt
    ensures Running(o, y) && SameStreams(x, y) && y.b.expectedSeqNum > x.b.expectedSeqNum
  {
    FactsOf(o, x);
    var c := ChunkAt(x, x.b.expectedSeqNum);
    var z := x;
    if !HasCopy(c, x.b, x.way) {
      assert HasFlight(c, x.a);
      var f :| f in x.a.inflightQ && f.seg.seqNum == c.seqNum && f.seg.payload == c.payload && f.counter < MAX_RETRANSMISSIONS;
      z := Resends(o, x, f);
      var g := f.seg.(ackNum := x.a.expectedSeqNum, window := z.a.windowSize);
      assert StaysRecent(g, z.b) && HasCopy(c, z.b, z.way) && c == Chunk(f.seg.seqNum, f.seg.payload, c.probe);
      assert HasCopy(Chunk(f.seg.seqNum, f.seg.payload, false), z.b, z.way);
      ReadyStays(x, z);
    }
    var g :| g in z.way && g.seqNum == c.seqNum && g.payload == c.payload && StaysRecent(g, z.b);
    y := TakesOn(o, z, g);
  }

  /** All that was sent is acknowledged. */
  lemma AllAcked(o: Net, x: Net) returns (y: Net)
    requires Running(o, x) && x.b.expectedSeqNum == x.a.sndNxt
    ensures Running(o, y) && SameStreams(x, y) && y.b == x.b && y.a.sndUna == y.a.sndNxt == x.a.sndNxt
  {
    FactsOf(o, x);
    if x.a.sndUna == x.a.sndNxt {
      y := x;
    } else {
      var g :| g in x.way && g.payload != [] && g.seqNum + |g.payload| <= x.b.expectedSeqNum;
      y := Acked(o, x, g);
      forall f | f in x.a.inflightQ ensures f.seg.seqNum + |f.seg.payload| <= x.b.expectedSeqNum {
        var i := FlightOf(x.a, f);
      }
      ReadyStays(x, y);
    }
  }

  /** The send loop looks: it sends, or forms a probe. */
  lemma LoopTurns(o: Net, x: Net) returns (y: Net)
    requires Running(o, x) && x.a.sndUna == x.a.sndNxt < x.a.iss + 1 + |x.a.written| && x.a.probe == None
    requires x.b.expectedSeqNum == x.a.sndNxt
    ensures Running(o, y) && SameStreams(x, y) && y.b == x.b && y.a.sndUna == x.a.sndUna
    ensures y.a.sndNxt > x.a.sndNxt
            || (y.a.sndNxt == x.a.sndNxt && y.a.sndWnd == 0 && y.a.probe.Some?
                && y.a.probe.value.packet.seqNum == y.a.sndNxt && y.a.probe.value.oldUna == y.a.sndUna)
  {
    FactsOf(o, x);
    WindowDistances(x.a);
    SendShape(x.a);
    y := GoOn(o, x, true, SendLoop);
    var out := x.a.SendTurn().1;
    if out != [] {
      assert out[0] in Sent(out) && StaysRecent(out[0], y.b);
      assert HasCopy(Chunk(out[0].seqNum, out[0].payload, false), y.b, y.way);
    }
    ReadyStays(x, y);
  }

  /** The probe timer: the probe goes out, or the loop leaves it. */
  lemma ProbeFires(o: Net, x: Net) returns (y: Net)
    requires Running(o, x) && x.a.sndUna == x.a.sndNxt == x.b.expectedSeqNum && x.a.probe.Some?
    ensures Running(o, y) && SameStreams(x, y) && y.b == x.b && y.a.sndUna == x.a.sndUna
    ensures if x.a.sndWnd == 0 && x.a.sndUna == x.a.probe.value.oldUna then y.a.sndNxt > x.a.sndNxt
            else y.a.probe == None && y.a.sndNxt == x.a.sndNxt
  {
    FactsOf(o, x);
    ValidIsPlain(x.a);
    ProbeShape(x.a);
    y := GoOn(o, x, true, ProbeTimer);
    var packet, out := x.a.probe.value.packet, x.a.ProbeTurn().1;
    if out != [] {
      assert packet in Sent(out);
      assert HasCopy(Chunk(packet.seqNum, packet.payload, true), y.b, y.way);
    }
    ReadyStays(x, y);
  }

  /** A sender with nothing in flight and something to send gets more on the wire. */
  lemma SendsAnew(o: Net, x: Net) returns (y: Net)
    requires Running(o, x) && x.a.sndUna == x.a.sndNxt == x.b.expectedSeqNum < x.a.iss + 1 + |x.a.written|
    ensures Running(o, y) && SameStreams(x, y) && y.b == x.b && y.a.sndNxt > x.a.sndNxt
  {
    y := x;
    if y.a.probe.Some? {
      y := ProbeFires(o, y);
    }
    if y.a.sndNxt == x.a.sndNxt {
      y := LoopTurns(o, y);
    }
    if y.a.sndNxt == x.a.sndNxt {
      y := ProbeFires(o, y);
    }
  }

  lemma GetsFurther(o: Net, x: Net) returns (y: Net)
    requires Running(o, x) && x.b.expectedSeqNum < x.a.iss + 1 + |x.a.written|
    ensures Running(o, y) && SameStreams(x, y) && y.b.expectedSeqNum > x.b.expectedSeqNum
  {
    FactsOf(o, x);
    y := x;
    if x.b.expectedSeqNum == x.a.sndNxt {
      y := AllAcked(o, x);
      y := SendsAnew(o, y);
    }
    y := NextTaken(o, y);
  }

  lemma {:induction false} AllDeliverable(o: Net, x: Net) returns (y: Net)
    requires Running(o, x)
    ensures Running(o, y) && SameStreams(x, y) && y.b.delivered == x.a.written
    decreases x.a.iss + 1 + |x.a.written| - x.b.expectedSeqNum
  {
    FactsOf(o, x);
    if x.b.expectedSeqNum < x.a.iss + 1 + |x.a.written| {
      var z := GetsFurther(o, x);
      FactsOf(o, z);
      y := AllDeliverable(o, z);
    } else {
      y := ReadsB(o, x);
      ReceiptIsPrefix(x.a, x.b);
      ReadyStays(x, y);
    }
  }

  /** From every reachable state in which both ends are open, whatever has been lost since: if all that has been
      sent can still be taken, some continuation has `b`'s reader get all that `a` has written. */
  lemma NeverStuck(x: Net, n: nat) returns (y: Net)
    requires Reaches(x.Sys(), n) && x.a.status == Open && x.b.status == Open && x.way <= x.toB && Ready(x)
    ensures Continued(x, y) && y.a.written == x.a.written && y.b.delivered == x.a.written
  {
    assert Leads(x, x, 0);
    y := AllDeliverable(x, x);
  }

  lemma WholeOlder(x: Net)
    requires Facts(x) && x.toB <= x.way && x.b.expectedSeqNum > x.a.iss + 1
    ensures Older(x)
  {
    var c := ChunkAt(x, x.a.iss + 1);
    assert OnWire(c, x.toB);
    var g :| g in x.toB && g.seqNum == c.seqNum && g.payload == c.payload;
    assert g in x.way && g.seqNum + |g.payload| <= x.b.expectedSeqNum;
  }

  /** With nothing lost it can, if `b` has written less than a buffer: no acknowledgement is too old for it. */
  lemma WholeReady(x: System, n: nat)
    requires Reaches(x, n) && x.a.status == Open && |x.b.written| < BUFFER_CAPACITY
    ensures Ready(Whole(x))
  {
    var w := Whole(x);
    FactsReached(w, n);
    forall g | g in x.toB ensures StaysRecent(g, x.b) {
      assert Truthful(g, x.a);
    }
    forall c | c in x.a.log ensures HasCopy(c, x.b, x.toB) {
      assert OnWire(c, x.toB);
      var g :| g in x.toB && g.seqNum == c.seqNum && g.payload == c.payload;
      assert StaysRecent(g, x.b);
    }
    if x.b.expectedSeqNum > x.a.iss + 1 {
      WholeOlder(w);
    }
  }

  // The same both ways.

  ghost predicate Follows(x: System, y: System, k: nat)
    decreases k
  {
    if k == 0 then x == y
    else exists z: System, atA: bool, ev: Event :: Follows(x, z, k - 1) && Steps(z, y, atA, ev)
  }

  lemma {:induction false} LeadFollows(x: Net, y: Net, k: nat)
    requires Leads(x, y, k)
    ensures Follows(x.Sys(), y.Sys(), k)
    decreases k
  {
    if k > 0 {
      var z: Net, atA: bool, ev: Event :| Leads(x, z, k - 1) && Goes(z, y, atA, ev);
      LeadFollows(x, z, k - 1);
    }
  }

  lemma {:induction false} FollowsOn(x: System, y: System, z: System, j: nat, k: nat)
    requires Follows(x, y, j) && Follows(y, z, k)
    ensures Follows(x, z, j + k)
    decreases k
  {
    if k > 0 {
      var w: System, atA: bool, ev: Event :| Follows(y, w, k - 1) && Steps(w, z, atA, ev);
      FollowsOn(x, y, w, j, k - 1);
      assert j + k - 1 == j + (k - 1);
    }
  }

  function Swap(x: System): System { System(x.b, x.a, x.toB, x.toA) }

  lemma StepSwaps(x: System, y: System, atA: bool, ev: Event)
    requires Steps(x, y, atA, ev)
    ensures Steps(Swap(x), Swap(y), !atA, ev)
  {
    assert Fold(0);
  }

  lemma {:induction false} ReachSwaps(y: System, n: nat)
    requires Reaches(y, n)
    ensures Reaches(Swap(y), n)
    decreases n
  {
    if n > 0 {
      var x: System, atA: bool, ev: Event :| Reaches(x, n - 1) && Steps(x, y, atA, ev);
      ReachSwaps(x, n - 1);
      StepSwaps(x, y, atA, ev);
    }
  }

  lemma {:induction false} FollowSwaps(x: System, y: System, k: nat)
    requires Follows(x, y, k)
    ensures Follows(Swap(x), Swap(y), k)
    decreases k
  {
    if k > 0 {
      var z: System, atA: bool, ev: Event :| Follows(x, z, k - 1) && Steps(z, y, atA, ev);
      FollowSwaps(x, z, k - 1);
      StepSwaps(z, y, atA, ev);
    }
  }

  lemma ReadsPrefix(x: Net, n: nat)
    requires Reaches(x.Sys(), n)
    ensures x.a.delivered <= x.b.written
  {
    FactsReached(x, n);
    ReceiptIsPrefix(x.b, x.a);
  }

  lemma Delivers(x: System, n: nat) returns (y: System, k: nat)
    requires Reaches(x, n) && x.a.status == Open && x.b.status == Open && |x.b.written| < BUFFER_CAPACITY
    ensures Follows(x, y, k) && Reaches(y, n + k) && y.a.status == Open && y.b.status == Open
    ensures SameStreams(Whole(x), Whole(y)) && y.b.delivered == x.a.written && y.a.delivered <= y.b.written
  {
    var w := Whole(x);
    WholeReady(x, n);
    assert Leads(w, w, 0) && w.Sys() == x;
    var z := AllDeliverable(w, w);
    y := z.Sys();
    var m: nat, j: nat :| Reaches(z.Sys(), m) && Leads(w, z, j);
    LeadFollows(w, z, j);
    LeadReaches(w, z, n, j);
    ReadsPrefix(z, n + j);
    k := j;
  }

  /** If both have written less than a buffer, one continuation delivers all both ways. */
  lemma NeitherStuck(x: System, n: nat) returns (y: System, k: nat)
    requires Reaches(x, n) && x.a.status == Open && x.b.status == Open
    requires |x.a.written| < BUFFER_CAPACITY && |x.b.written| < BUFFER_CAPACITY
    ensures Follows(x, y, k) && y.b.delivered == x.a.written && y.a.delivered == x.b.written
  {
    var z, j := Delivers(x, n);
    ReachSwaps(z, n + j);
    var w, i := Delivers(Swap(z), n + j);
    FollowSwaps(Swap(z), w, i);
    y, k := Swap(w), j + i;
    FollowsOn(x, z, y, j, i);
    assert |w.a.delivered| >= |w.b.written| && w.a.delivered <= w.b.written;
  }
}
