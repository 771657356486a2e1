/** Whether a byte that was sent can still come, and when it is gone for good, whatever has been lost. */
module Copies {
  import opened Arith
  import opened Segments
  import opened Reassembly
  import opened Retransmission
  import opened Endpoints
  import opened Transfer
  import opened Delivery
  import opened Crash
  import opened Sides
  import opened Progress

  /** The probe of byte `p` goes out again when its timer fires next, unless the window opens first. */
  ghost predicate Probing(s: Endpoint, p: int) {
    s.probe.Some? && s.probe.value.packet.seqNum == p && s.sndUna == s.probe.value.oldUna
  }

  ghost predicate EarlyCopy(r: Endpoint, p: int) {
    exists e :: e in r.earlyArrivalQ && Covers(e, p)
  }

  /** `r` waits for `p` and turns the segment away: its acknowledgement is too old. (While `r` still waits for
      something before `p`, it queues such a segment.) */
  ghost predicate TooOld(g: Segment, r: Endpoint, p: int) {
    r.expectedSeqNum == p && !Recent(g, r)
  }

  /** Nowhere is there a segment with byte `p` that `r` could still take: not under way, not queued for
      retransmission with attempts left, not as a probe; and if `r` has queued one early, nothing is under way
      that would set off the merge. */
  ghost predicate NoCopy(s: Endpoint, r: Endpoint, way: set<Segment>, p: int) {
    && (forall g :: g in way && Covers(g, p) ==> TooOld(g, r, p))
    && (forall f :: f in s.inflightQ && Covers(f.seg, p) ==> f.counter >= MAX_RETRANSMISSIONS)
    && (Probing(s, p) ==> TooOld(s.probe.value.packet, r, p))
    && (EarlyCopy(r, p) ==> r.expectedSeqNum == p && forall g :: g in way && g.seqNum == p ==> TooOld(g, r, p))
  }

  // Once byte `p` is gone, the receiver never gets beyond it.

  ghost predicate Gone(x: Net, p: int) {
    Facts(x) && x.way <= x.toB && x.b.expectedSeqNum <= p < x.a.sndNxt && NoCopy(x.a, x.b, x.way, p)
  }

  lemma GoneWhenAcked(s: Endpoint, r: Endpoint, way: set<Segment>, g: Segment, order: seq<Segment>, p: int)
    requires Plain(s) && s.Valid() && s.status == Open && multiset(order) == s.earlyArrivalQ && Sendable(s)
    requires NoCopy(s, r, way, p) && p < s.sndNxt
    ensures var (s', out) := s.Receive(g, order); s'.sndNxt == s.sndNxt && NoCopy(s', r, way + Sent(out), p)
  {
    ReceiveParts(s, g, order);
    SeqNumSends(s, g, order);
    var (s1, data, out1) := s.HandleSeqNum(g, order);
    var (s2, ok, out2) := s1.HandleAck(g);
    AckSends(s1, g);
    forall f | f in s2.inflightQ ensures f in s.inflightQ {
      if s2.inflightQ != s.inflightQ {
        AckInflightKeeps(s.inflightQ, g.ackNum, f);
      }
    }
    if data.Some? {
      SegTextSends(s2, data.value);
    }
  }

  lemma GoneAfterTimeout(s: Endpoint, r: Endpoint, way: set<Segment>, p: int)
    requires Plain(s) && s.Valid() && Books(s) && s.status == Open && Sendable(s) && NoCopy(s, r, way, p) && p < s.sndNxt
    ensures var (s', out) := s.Timeout(); p < s'.sndNxt && NoCopy(s', r, way + Sent(out), p)
  {
    TimeoutShape(s);
    var (s', out) := s.Timeout();
    if out != [] {
      var f := s.inflightQ[0];
      var i := FlightOf(s, f);
      assert f in s.inflightQ && !Covers(f.seg, p) && Sent(out) == {out[0]};
      assert !Covers(out[0], p) && out[0].seqNum != p;
      forall e | e in s'.inflightQ && Covers(e.seg, p) ensures e.counter >= MAX_RETRANSMISSIONS {
        var j :| 0 <= j < |s'.inflightQ| && s'.inflightQ[j] == e;
        assert j > 0 && s.inflightQ[j] == e;
      }
    } else {
      assert way + Sent(out) == way;
    }
  }

  lemma GoneAfterSend(s: Endpoint, r: Endpoint, way: set<Segment>, p: int)
    requires s.Valid() && NoWrap(s) && Enabled(s, SendLoop, {}) && NoCopy(s, r, way, p) && p < s.sndNxt
    ensures var (s', out) := s.SendTurn(); p < s'.sndNxt && NoCopy(s', r, way + Sent(out), p)
  {
    SendShape(s);
  }

  lemma GoneAfterProbe(s: Endpoint, r: Endpoint, way: set<Segment>, p: int)
    requires s.Valid() && NoWrap(s) && s.status == Open && s.probe.Some? && NoCopy(s, r, way, p) && p < s.sndNxt
    ensures var (s', out) := s.ProbeTurn(); p < s'.sndNxt && NoCopy(s', r, way + Sent(out), p)
  {
    ProbeShape(s);
  }

  lemma GoneAtSender(x: Net, ev: Event, p: int)
    requires Gone(x, p) && Enabled(x.a, ev, x.toA)
    ensures var (e, out) := Effect(x.a, ev, x.toA); p < e.sndNxt && NoCopy(e, x.b, x.way + Sent(out), p)
  {
    var s := x.a;
    assert x.way + Sent([]) == x.way;
    match ev {
      case AppWrite(data) => WriteShape(s, data);
      case AppRead(n) =>
      case SendLoop => GoneAfterSend(s, x.b, x.way, p);
      case ProbeTimer => GoneAfterProbe(s, x.b, x.way, p);
      case RetransTimer => GoneAfterTimeout(s, x.b, x.way, p);
      case Arrival(g, order) => GoneWhenAcked(s, x.b, x.way, g, order, p);
    }
  }

  /** A merge that starts at or below a byte none of the queued segments has ends there. */
  lemma {:induction false} MergeStopsAt(queue: seq<Segment>, data: seq<Byte>, startSeq: U32, avaiWnd: nat, p: int)
    requires startSeq <= p < TWO32 && forall g :: g in queue ==> g.seqNum + |g.payload| < TWO32 && !Covers(g, p)
    ensures var m := Aggregate(queue, data, startSeq, avaiWnd); m.Merged? ==> |data| <= |m.data| <= |data| + p - startSeq
    decreases |queue|, avaiWnd
  {
    if queue != [] {
      var seg := queue[0];
      assert seg in queue;
      var segEnd := seg.seqNum + |seg.payload|;
      if segEnd < startSeq {
        MergeStopsAt(queue[1..], data, startSeq, avaiWnd, p);
      } else if seg.seqNum <= startSeq {
        var start, end := startSeq - seg.seqNum, Min(|seg.payload|, avaiWnd);
        if start <= end {
          var trim := seg.payload[start..end];
          var rest := if segEnd <= startSeq + |trim| then queue[1..] else queue;
          if |trim| < avaiWnd && (rest != queue || trim != []) {
            MergeStopsAt(rest, data + trim, startSeq + |trim|, avaiWnd - |trim|, p);
          }
        }
      }
    }
  }

  lemma {:induction false} RestWithin(queue: seq<Segment>, data: seq<Byte>, startSeq: U32, avaiWnd: nat)
    ensures var m := Aggregate(queue, data, startSeq, avaiWnd); m.Merged? ==> forall g :: g in m.rest ==> g in queue
    decreases |queue|, avaiWnd
  {
    if queue != [] {
      var seg := queue[0];
      var segEnd := Add(seg.seqNum, |seg.payload|);
      if segEnd < startSeq {
        RestWithin(queue[1..], data, startSeq, avaiWnd);
      } else if seg.seqNum <= startSeq {
        var start, end := startSeq - seg.seqNum, Min(|seg.payload|, avaiWnd);
        if start <= end {
          var trim := seg.payload[start..end];
          var left, next := avaiWnd - |trim|, Add(startSeq, |trim|);
          var rest := if segEnd <= next then queue[1..] else queue;
          assert forall g :: g in rest ==> g in queue;
          if left != 0 && (rest != queue || trim != []) {
            RestWithin(rest, data + trim, next, left);
          }
        }
      }
    }
  }

  lemma MergedUpTo(order: seq<Segment>, data: seq<Byte>, at: U32, wnd: nat, p: int)
    requires |data| <= wnd && at <= p < TWO32
    requires forall e :: e in order ==> e.seqNum + |e.payload| < TWO32 && !Covers(e, p)
    ensures var m := AggregateEarlyArrivals(order, data, at, wnd); m.Merged? ==> |data| <= |m.data| <= |data| + p - at
  {
    if |data| < wnd {
      MergeStopsAt(order, data, at, wnd - |data|, p);
    }
  }

  /** What an arrival leads to without an early copy of byte `p` and not itself having it ends at `p`. */
  lemma HandsOnUpTo(s: Endpoint, r: Endpoint, toR: set<Segment>, toS: set<Segment>, g: Segment, order: seq<Segment>, p: int)
    requires Flow(s, r, toR, toS) && r.Valid() && Enabled(r, Arrival(g, order), toR)
    requires IsValidSeg(g, r.expectedSeqNum, r.windowSize) && g.seqNum <= r.expectedSeqNum <= p < s.sndNxt
    requires !EarlyCopy(r, p) && !Covers(g, p)
    ensures var data := r.HandleSeqNum(g, order).1; data.Some? ==> r.expectedSeqNum + |data.value| <= p
  {
    WholeArrival(s, r, toR, toS, g);
    forall e | e in order ensures e.seqNum + |e.payload| < TWO32 && !Covers(e, p) {
      assert e in multiset(order);
      QueuedBelow(s, r, toR, e);
    }
    MergedUpTo(order, g.payload, r.expectedSeqNum + |g.payload|, r.windowSize, p);
    SeqNumShape(r, g, order);
  }

  /** A segment that has byte `p`, or sets off the merge of one that does, comes with an acknowledgement too old. */
  lemma RefusedOrBelow(x: Net, g: Segment, order: seq<Segment>, p: int)
    requires Gone(x, p) && Enabled(x.b, Arrival(g, order), x.toB) && g in x.way
    ensures var (r1, data, out) := x.b.HandleSeqNum(g, order);
            data.Some? && data.value != [] && r1.HandleAck(g).1 ==> x.b.expectedSeqNum + |data.value| <= p
  {
    var s, r := x.a, x.b;
    SeqNumShape(r, g, order);
    SeqNumSends(r, g, order);
    RecentTaken(s, r, x.toB, x.toA, g);
    if Recent(g, r) && IsValidSeg(g, r.expectedSeqNum, r.windowSize) && g.seqNum <= r.expectedSeqNum {
      WholeArrival(s, r, x.toB, x.toA, g);
      HandsOnUpTo(s, r, x.toB, x.toA, g, order, p);
    }
  }

  lemma MergeRestWithin(order: seq<Segment>, data: seq<Byte>, at: U32, wnd: nat)
    requires |data| <= wnd
    ensures var m := AggregateEarlyArrivals(order, data, at, wnd);
            m.Merged? ==> forall e :: e in multiset(m.rest) ==> e in multiset(order)
  {
    if |data| < wnd {
      RestWithin(order, data, at, wnd - |data|);
    }
    var m := AggregateEarlyArrivals(order, data, at, wnd);
    if m.Merged? {
      Bagged(m.rest, order);
    }
  }

  lemma Bagged(rest: seq<Segment>, order: seq<Segment>)
    requires forall g :: g in rest ==> g in order
    ensures forall e :: e in multiset(rest) ==> e in multiset(order)
  {
    forall e | e in multiset(rest) ensures e in multiset(order) {
      assert e in rest && e in order;
    }
  }

  lemma QueueAfter(r: Endpoint, g: Segment, order: seq<Segment>)
    requires r.Valid() && multiset(order) == r.earlyArrivalQ
    ensures forall e :: e in r.HandleSeqNum(g, order).0.earlyArrivalQ ==>
              e in r.earlyArrivalQ || (e == g && g.seqNum > r.expectedSeqNum)
  {
    if IsValidSeg(g, r.expectedSeqNum, r.windowSize) && g.seqNum <= r.expectedSeqNum
       && Trim(g, r.expectedSeqNum, r.windowSize).Bytes? {
      var data := Trim(g, r.expectedSeqNum, r.windowSize).data;
      MergeRestWithin(order, data, Add(g.seqNum, |data|), r.windowSize);
    }
  }

  /** The receiver acknowledges more, and its queue gains only what is early. */
  lemma NoCopyStays(s: Endpoint, r: Endpoint, r': Endpoint, way: set<Segment>, g: Segment, p: int)
    requires NoCopy(s, r, way, p) && g in way && r.sndUna <= r'.sndUna && r.expectedSeqNum <= r'.expectedSeqNum <= p
    requires forall e :: e in r'.earlyArrivalQ ==> e in r.earlyArrivalQ || (e == g && g.seqNum > r.expectedSeqNum)
    ensures NoCopy(s, r', way, p)
  {
    if EarlyCopy(r', p) {
      var e :| e in r'.earlyArrivalQ && Covers(e, p);
      assert e in r.earlyArrivalQ || TooOld(g, r, p);
      assert EarlyCopy(r, p);
    }
  }

  /** How far an arrival moves the parts that matter here. */
  lemma ArrivalMoves(r: Endpoint, g: Segment, order: seq<Segment>)
    requires r.Valid() && r.status == Open && multiset(order) == r.earlyArrivalQ && r.expectedSeqNum + 65535 < TWO32
    requires var data := r.HandleSeqNum(g, order).1; data.Some? ==> |data.value| <= r.windowSize
    ensures var r', (r1, data, out) := r.Receive(g, order).0, r.HandleSeqNum(g, order);
            && r'.earlyArrivalQ == r1.earlyArrivalQ && r.sndUna <= r'.sndUna
            && r'.expectedSeqNum == r.expectedSeqNum
                                    + if data.Some? && data.value != [] && g.isAck && r1.HandleAck(g).1 then |data.value| else 0
  {
    ReceiveParts(r, g, order);
    SeqNumSends(r, g, order);
    var (r1, data, out1) := r.HandleSeqNum(g, order);
    AckSends(r1, g);
    var (r2, ok, out2) := r1.HandleAck(g);
    if data.Some? && data.value != [] {
      SegTextShape(r2, data.value);
    }
  }

  /** An arrival at a receiver that is at or below `p`. */
  lemma GoneAfterArrival(x: Net, g: Segment, order: seq<Segment>, p: int)
    requires Gone(x, p) && Enabled(x.b, Arrival(g, order), x.toB) && g in x.way
    ensures var r := x.b.Receive(g, order).0; r.expectedSeqNum <= p && NoCopy(x.a, r, x.way, p)
  {
    SeqNumInOrder(x.a, x.b, x.toB, x.toA, g, order);
    ArrivalMoves(x.b, g, order);
    QueueAfter(x.b, g, order);
    RefusedOrBelow(x, g, order, p);
    NoCopyStays(x.a, x.b, x.b.Receive(g, order).0, x.way, g, p);
  }

  lemma GoneAtReceiver(x: Net, ev: Event, p: int)
    requires Gone(x, p) && Enabled(x.b, ev, x.toB) && (ev.Arrival? ==> ev.g in x.way)
    ensures var r := Effect(x.b, ev, x.toB).0; r.expectedSeqNum <= p && NoCopy(x.a, r, x.way, p)
  {
    var r := x.b;
    match ev {
      case AppWrite(data) => WriteShape(r, data);
      case AppRead(n) =>
      case SendLoop => SendShape(r);
      case ProbeTimer => ProbeShape(r);
      case RetransTimer => TimeoutShape(r);
      case Arrival(g, order) => GoneAfterArrival(x, g, order, p);
    }
  }

  lemma GoneNext(x: Net, y: Net, n: nat, atA: bool, ev: Event, p: int)
    requires Gone(x, p) && Goes(x, y, atA, ev) && Reaches(y.Sys(), n)
    ensures Gone(y, p)
  {
    assert Fold(0);
    FactsReached(y, n);
    if atA {
      GoneAtSender(x, ev, p);
    } else {
      GoneAtReceiver(x, ev, p);
    }
  }

  lemma {:induction false} StaysGone(x: Net, y: Net, n: nat, k: nat, p: int)
    requires Gone(x, p) && Reaches(x.Sys(), n) && Leads(x, y, k)
    ensures Gone(y, p)
    decreases k
  {
    if k > 0 {
      var z: Net, atA: bool, ev: Event :| Leads(x, z, k - 1) && Goes(z, y, atA, ev);
      StaysGone(x, z, n, k - 1, p);
      LeadReaches(x, z, n, k - 1);
      GoneNext(z, y, n + k, atA, ev, p);
    }
  }

  /** In no continuation of `x` does `b` get beyond `p`. */
  ghost predicate StuckAt(x: Net, p: int) {
    forall y: Net, k: nat :: Leads(x, y, k) ==> y.b.expectedSeqNum <= p < y.a.sndNxt
  }

  /** A byte sent of which no copy is left, in any reachable state and whatever has been lost: nothing that can
      happen afterwards makes the stream go beyond it. */
  lemma LostForever(x: Net, n: nat, p: int)
    requires Reaches(x.Sys(), n) && x.way <= x.toB && x.b.expectedSeqNum <= p < x.a.sndNxt
    requires NoCopy(x.a, x.b, x.way, p)
    ensures StuckAt(x, p)
  {
    FactsReached(x, n);
    forall y: Net, k: nat | Leads(x, y, k) ensures y.b.expectedSeqNum <= p < y.a.sndNxt {
      StaysGone(x, y, n, k, p);
    }
  }

  // As long as there is a copy, the receiver can get beyond it.

  ghost predicate GetsBeyond(x: Net, p: int) {
    exists y: Net, k: nat :: Leads(x, y, k) && y.b.expectedSeqNum > p
  }

  lemma Beyond(o: Net, y: Net, p: int)
    requires Onward(o, y) && y.b.expectedSeqNum > p
    ensures GetsBeyond(o, p)
  {
    var n: nat, k: nat :| Reaches(y.Sys(), n) && Leads(o, y, k);
    assert Leads(o, y, k) && y.b.expectedSeqNum > p;
  }

  lemma StartsAt(s: Endpoint, r: Endpoint, toR: set<Segment>, toS: set<Segment>, g: Segment)
    requires Flow(s, r, toR, toS) && g in toR && Covers(g, r.expectedSeqNum)
    ensures g.seqNum == r.expectedSeqNum
  {
    assert SentBy(g, s);
    var c := Chunk(g.seqNum, g.payload, Chunk(g.seqNum, g.payload, false) !in s.log);
    assert c in s.log;
  }

  lemma BeyondByCopy(o: Net, x: Net, g: Segment)
    requires Live(o, x) && g in x.way && Covers(g, x.b.expectedSeqNum) && Recent(g, x.b)
    ensures GetsBeyond(o, x.b.expectedSeqNum)
  {
    FactsOf(o, x);
    StartsAt(x.a, x.b, x.toB, x.toA, g);
    var y := Takes(o, x, g);
    Beyond(o, y, x.b.expectedSeqNum);
  }

  lemma BeyondByResending(o: Net, x: Net, f: Flight)
    requires Live(o, x) && f in x.a.inflightQ && Covers(f.seg, x.b.expectedSeqNum) && f.counter < MAX_RETRANSMISSIONS
    requires x.a.sndUna < x.b.expectedSeqNum ==> AckFits(x) && Older(x)
    ensures GetsBeyond(o, x.b.expectedSeqNum)
  {
    FactsOf(o, x);
    var y := Resends(o, x, f);
    BeyondByCopy(o, y, f.seg.(ackNum := x.a.expectedSeqNum, window := y.a.windowSize));
  }

  lemma BeyondByProbing(o: Net, x: Net)
    requires Live(o, x) && Probing(x.a, x.b.expectedSeqNum) && Recent(x.a.probe.value.packet, x.b) && x.a.sndWnd == 0
    ensures GetsBeyond(o, x.b.expectedSeqNum)
  {
    FactsOf(o, x);
    ProbeShape(x.a);
    var packet := x.a.probe.value.packet;
    assert packet in Sent(x.a.ProbeTurn().1);
    var y := GoOn(o, x, true, ProbeTimer);
    BeyondByCopy(o, y, packet);
  }

  lemma MergeWithHead(e: Segment, rest: seq<Segment>, wnd: nat)
    requires 0 < |e.payload| < wnd && e.seqNum + |e.payload| < TWO32
    ensures var m, blocked := AggregateEarlyArrivals([e] + rest, [], e.seqNum, wnd), rest != [] && rest[0].seqNum > e.seqNum + |e.payload|;
            && (m.Merged? ==> m.data != [])
            && (blocked && rest[0].seqNum + |rest[0].payload| < TWO32 ==> m == Merged(e.payload, rest))
  {
    var order, at, left := [e] + rest, e.seqNum + |e.payload|, wnd - |e.payload|;
    assert order[1..] == rest && [] + e.payload == e.payload;
    WholeHeadTurn(order, [], e.seqNum, wnd);
    AggregateAppends(rest, e.payload, at, left);
  }

  /** A bare segment sets off the merge of the queued copy. */
  lemma QueuedMerges(s: Endpoint, r: Endpoint, toR: set<Segment>, toS: set<Segment>, g: Segment, e: Segment, rest: seq<Segment>)
    requires Flow(s, r, toR, toS) && Side(s, toR) && r.Valid() && Enabled(r, Arrival(g, [e] + rest), toR)
    requires r.pending == [] && g.seqNum == e.seqNum == r.expectedSeqNum && g.payload == [] != e.payload
    requires Calm(rest, r.expectedSeqNum + |e.payload|)
    ensures var (r', data, out) := r.HandleSeqNum(g, [e] + rest); r'.status == Open && data.Some? && data.value != []
  {
    var order, at := [e] + rest, r.expectedSeqNum + |e.payload|;
    assert e in multiset(order);
    Short(s, toR, e);
    QueuedBelow(s, r, toR, e);
    assert IsValidSeg(g, r.expectedSeqNum, r.windowSize);
    WholeArrival(s, r, toR, toS, g);
    MergeWithHead(e, rest, r.windowSize);
    if rest != [] && rest[0].seqNum > at {
      assert rest[0] in multiset(order);
      QueuedBelow(s, r, toR, rest[0]);
    } else {
      forall d | d in r.earlyArrivalQ ensures d.seqNum <= at {
        assert d in multiset(order);
      }
      FarFromEdge(s, r, toR, at);
      SeqNumInOrder(s, r, toR, toS, g, order);
    }
    SeqNumShape(r, g, order);
  }

  lemma BeyondByQueue(o: Net, x: Net, g: Segment, e: Segment)
    requires Live(o, x) && g in x.way && g.seqNum == x.b.expectedSeqNum && Recent(g, x.b) && g.payload == []
    requires e in x.b.earlyArrivalQ && Covers(e, x.b.expectedSeqNum)
    ensures GetsBeyond(o, x.b.expectedSeqNum)
  {
    var z := ReadsB(o, x);
    FactsOf(o, z);
    StartsAt(z.a, z.b, z.toB, z.toA, e);
    var rest := CalmOrder(z.b.earlyArrivalQ - multiset{e}, z.b.expectedSeqNum + |e.payload|);
    QueuedMerges(z.a, z.b, z.toB, z.toA, g, e, rest);
    TextTaken(z.a, z.b, z.toB, z.toA, g, [e] + rest);
    var y := GoOn(o, z, false, Arrival(g, [e] + rest));
    Beyond(o, y, x.b.expectedSeqNum);
  }

  lemma CopyMovesOn(o: Net, x: Net)
    requires Live(o, x) && (x.a.sndUna < x.b.expectedSeqNum ==> AckFits(x) && Older(x))
    requires Probing(x.a, x.b.expectedSeqNum) && Recent(x.a.probe.value.packet, x.b) ==> x.a.sndWnd == 0
    requires !NoCopy(x.a, x.b, x.way, x.b.expectedSeqNum)
    ensures GetsBeyond(o, x.b.expectedSeqNum)
  {
    FactsOf(o, x);
    var p := x.b.expectedSeqNum;
    if g :| g in x.way && Covers(g, p) && Recent(g, x.b) {
      BeyondByCopy(o, x, g);
    } else if f :| f in x.a.inflightQ && Covers(f.seg, p) && f.counter < MAX_RETRANSMISSIONS {
      BeyondByResending(o, x, f);
    } else if Probing(x.a, p) && Recent(x.a.probe.value.packet, x.b) {
      BeyondByProbing(o, x);
    } else {
      var e :| e in x.b.earlyArrivalQ && Covers(e, p);
      var g :| g in x.way && g.seqNum == p && Recent(g, x.b);
      BeyondByQueue(o, x, g, e);
    }
  }

  /** For the byte `b` waits for, exactly: in every reachable state, whatever has been lost, some continuation
      gets beyond it if and only if a copy is left. Two things are asked: that an acknowledgement can get back to
      `a`, and that the window has not just opened on a probe the send loop has yet to leave. */
  lemma MovesOnIff(x: Net, n: nat)
    requires Reaches(x.Sys(), n) && x.way <= x.toB && x.a.status == Open && x.b.status == Open
    requires x.b.expectedSeqNum < x.a.sndNxt && (x.a.sndUna < x.b.expectedSeqNum ==> AckFits(x) && Older(x))
    requires Probing(x.a, x.b.expectedSeqNum) && Recent(x.a.probe.value.packet, x.b) ==> x.a.sndWnd == 0
    ensures GetsBeyond(x, x.b.expectedSeqNum) <==> !NoCopy(x.a, x.b, x.way, x.b.expectedSeqNum)
  {
    var p := x.b.expectedSeqNum;
    assert Leads(x, x, 0);
    if NoCopy(x.a, x.b, x.way, p) {
      LostForever(x, n, p);
    } else {
      CopyMovesOn(x, x);
    }
  }
}
