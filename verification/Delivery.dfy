/** What holds at every point of every run of two connected ends: the theorems of the data phase. */
module Delivery {
  import opened Arith
  import opened Segments
  import opened Reassembly
  import opened Retransmission
  import opened Endpoints
  import opened Transfer

  /** The system can be in state `y` after `n` events, in any interleaving at both ends. */
  ghost predicate Reaches(y: System, n: nat)
    decreases n
  {
    if n == 0 then Init(y)
    else exists x: System, atA: bool, ev: Event :: Reaches(x, n - 1) && Steps(x, y, atA, ev)
  }

  /** One event, folded away like `Laid`. */
  ghost predicate Steps(x: System, y: System, atA: bool, ev: Event) {
    forall k: int :: Fold(k) ==> x.a.Valid() && x.b.Valid() && Step(x, y, atA, ev)
  }

  /** `Inv`, folded away. */
  ghost predicate Holds(y: System) {
    forall k: int :: Fold(k) ==> Inv(y)
  }

  lemma HoldsAtStart(y: System)
    requires Init(y)
    ensures Holds(y)
  {
    InitHolds(y);
  }

  lemma HoldsNext(x: System, y: System, atA: bool, ev: Event)
    requires Holds(x) && Steps(x, y, atA, ev)
    ensures Holds(y)
  {
    assert Fold(0);
    StepKeepsInv(x, y, atA, ev);
  }

  /** The invariant at one end: `s` as sender, `r` as receiver. */
  lemma FlowsOf(y: System)
    requires Holds(y)
    ensures y.a.Valid() && y.b.Valid()
    ensures Flow(y.a, y.b, y.toB, y.toA) && Flow(y.b, y.a, y.toA, y.toB)
  {
    assert Fold(0);
  }

  lemma {:induction false} ReachedHolds(y: System, n: nat)
    requires Reaches(y, n)
    ensures Holds(y)
    decreases n
  {
    if n == 0 {
      HoldsAtStart(y);
    } else {
      var x: System, atA: bool, ev: Event :| Reaches(x, n - 1) && Steps(x, y, atA, ev);
      ReachedHolds(x, n - 1);
      HoldsNext(x, y, atA, ev);
    }
  }

  /** `s` and `r` are the two ends, either way round, of a system reached after `n` events. */
  ghost predicate Ends(s: Endpoint, r: Endpoint, toR: set<Segment>, toS: set<Segment>, n: nat) {
    Reaches(System(s, r, toS, toR), n) || Reaches(System(r, s, toR, toS), n)
  }

  lemma FlowReached(s: Endpoint, r: Endpoint, toR: set<Segment>, toS: set<Segment>, n: nat)
    requires Ends(s, r, toR, toS, n)
    ensures s.Valid() && r.Valid() && Flow(s, r, toR, toS)
  {
    if Reaches(System(s, r, toS, toR), n) {
      ReachedHolds(System(s, r, toS, toR), n);
      FlowsOf(System(s, r, toS, toR));
    } else {
      ReachedHolds(System(r, s, toR, toS), n);
      FlowsOf(System(r, s, toR, toS));
    }
  }

  /** End-to-end prefix delivery: what the application at `r` has read, followed by what is still
      buffered, is the first `expectedSeqNum - (iss + 1)` bytes written at `s`. */
  lemma EndToEndPrefix(s: Endpoint, r: Endpoint, toR: set<Segment>, toS: set<Segment>, n: nat)
    requires Ends(s, r, toR, toS, n)
    ensures s.iss + 1 <= r.expectedSeqNum <= s.iss + 1 + |s.written|
    ensures r.delivered + r.pending == s.written[..r.expectedSeqNum - (s.iss + 1)]
    ensures r.delivered <= s.written
  {
    FlowReached(s, r, toR, toS, n);
    ReceiptIsPrefix(s, r);
  }

  lemma ReceiptIsPrefix(s: Endpoint, r: Endpoint)
    requires Receipt(s, r)
    ensures r.delivered + r.pending == s.written[..r.expectedSeqNum - (s.iss + 1)]
    ensures r.delivered <= s.written
  {
    assert r.delivered == (r.delivered + r.pending)[..|r.delivered|];
  }

  /** Truthful cumulative acknowledgement: until an end gives up, what it takes as acknowledged the peer
      has; what the peer has was sent; and what is written and unacknowledged fits the buffer. */
  lemma TruthfulAck(s: Endpoint, r: Endpoint, toR: set<Segment>, toS: set<Segment>, n: nat)
    requires Ends(s, r, toR, toS, n)
    ensures s.status != GaveUp ==> s.sndUna <= r.expectedSeqNum
    ensures r.expectedSeqNum <= s.sndNxt <= s.iss + 1 + |s.written| <= s.sndUna + BUFFER_CAPACITY
  {
    FlowReached(s, r, toR, toS, n);
  }

  /** So a write only overwrites ring cells whose bytes the peer has accepted: the byte one lap before
      the `k`th byte stored is below the peer's `expectedSeqNum`. */
  lemma OverwritesOnlyAccepted(s: Endpoint, r: Endpoint, toR: set<Segment>, toS: set<Segment>, n: nat, data: seq<Byte>, k: nat)
    requires Ends(s, r, toR, toS, n) && s.Valid() && Enabled(s, AppWrite(data), toS) && k < s.Write(data).1
    ensures s.iss + 1 + |s.written| + k - BUFFER_CAPACITY < s.sndUna <= r.expectedSeqNum
  {
    FlowReached(s, r, toR, toS, n);
    WriteShape(s, data);
  }

  /** The window edge across the two parties: a sender that has not given up never believes in more
      than its receiver offers, and no event at the receiver moves the right edge to the left. */
  lemma EdgeNeverRetreats(s: Endpoint, r: Endpoint, toR: set<Segment>, toS: set<Segment>, n: nat, ev: Event)
    requires Ends(s, r, toR, toS, n)
    ensures Edge(r) == r.irs + 1 + |r.delivered| + BUFFER_CAPACITY
    ensures s.status != GaveUp ==> s.sndUna + s.sndWnd <= Edge(r)
    ensures r.Valid() && (Enabled(r, ev, toR) ==> Edge(Effect(r, ev, toR).0) >= Edge(r))
  {
    FlowReached(s, r, toR, toS, n);
    if Enabled(r, ev, toR) {
      ReachedNoWrap(s, r, toR, toS, n);
      EdgeAfter(s, r, toR, toS, ev);
    }
  }

  lemma ReachedNoWrap(s: Endpoint, r: Endpoint, toR: set<Segment>, toS: set<Segment>, n: nat)
    requires Ends(s, r, toR, toS, n)
    ensures NoWrap(s) && NoWrap(r)
  {
    FlowReached(s, r, toR, toS, n);
    FlowReached(r, s, toS, toR, n);
  }

  lemma EdgeAfter(s: Endpoint, r: Endpoint, toR: set<Segment>, toS: set<Segment>, ev: Event)
    requires Flow(s, r, toR, toS) && r.Valid() && NoWrap(r) && Enabled(r, ev, toR)
    ensures Edge(Effect(r, ev, toR).0) >= Edge(r)
  {
    match ev {
      case AppWrite(data) =>
      case AppRead(k) =>
      case SendLoop => SendShape(r);
      case ProbeTimer => ProbeShape(r);
      case RetransTimer => TimeoutShape(r);
      case Arrival(g, order) => EdgeAfterArrival(s, r, toR, toS, g, order);
    }
  }

  lemma EdgeAfterArrival(s: Endpoint, r: Endpoint, toR: set<Segment>, toS: set<Segment>, g: Segment, order: seq<Segment>)
    requires Flow(s, r, toR, toS) && r.Valid() && Enabled(r, Arrival(g, order), toR)
    ensures Edge(r.Receive(g, order).0) >= Edge(r)
  {
    ReceiveParts(r, g, order);
    SeqNumSends(r, g, order);
    SeqNumAtReceiver(s, r, toR, toS, g, order);
    var (r1, data, out1) := r.HandleSeqNum(g, order);
    if data.Some? && g.isAck {
      AckSends(r1, g);
      if data.value != [] {
        SegTextShape(r1.HandleAck(g).0, data.value);
      }
    }
  }

  /** In a reachable state nothing of an accepted segment is cut off, the data it leads to fits the
      receive buffer, the receiving goroutine does not hang, and it crashes only over an early arrival
      that ends less than its own length before the right edge. */
  lemma ArrivalsWhole(s: Endpoint, r: Endpoint, toR: set<Segment>, toS: set<Segment>, n: nat, g: Segment, order: seq<Segment>)
    requires Ends(s, r, toR, toS, n) && r.Valid() && Enabled(r, Arrival(g, order), toR)
    ensures IsValidSeg(g, r.expectedSeqNum, r.windowSize) && g.seqNum <= r.expectedSeqNum ==>
              g.seqNum == r.expectedSeqNum && Trim(g, r.expectedSeqNum, r.windowSize) == Bytes(g.payload)
    ensures var (r', data, out) := r.HandleSeqNum(g, order);
            && (data.Some? ==> |r.pending| + |data.value| <= BUFFER_CAPACITY)
            && r'.status != Hung
            && (r'.status == Crashed ==>
                  exists e :: e in r.earlyArrivalQ && NearEdge(e, r.expectedSeqNum, r.windowSize))
  {
    FlowReached(s, r, toR, toS, n);
    SeqNumInOrder(s, r, toR, toS, g, order);
    if IsValidSeg(g, r.expectedSeqNum, r.windowSize) && g.seqNum <= r.expectedSeqNum {
      AcceptedAtEdge(s, r, toR, toS, g);
    }
  }

  lemma AcceptedAtEdge(s: Endpoint, r: Endpoint, toR: set<Segment>, toS: set<Segment>, g: Segment)
    requires Flow(s, r, toR, toS) && g in toR
    requires IsValidSeg(g, r.expectedSeqNum, r.windowSize) && g.seqNum <= r.expectedSeqNum
    ensures g.seqNum == r.expectedSeqNum && Trim(g, r.expectedSeqNum, r.windowSize) == Bytes(g.payload)
  {
    assert SentBy(g, s);
    AcceptedWhole(g, r.expectedSeqNum, r.windowSize, s.log, s.iss + 1, SentPart(s));
  }

  /** The crash: of two copies of one early segment, the second is stale once the first is merged, and
      the loop trips over it if and only if the window left is shorter than it is. */
  lemma DuplicateEarlyCrashesIff(e: Endpoint, d: Segment, g: Segment)
    requires e.Valid() && e.status == Open && e.earlyArrivalQ == multiset([g, g]) && g.payload != []
    requires d.seqNum == e.expectedSeqNum && g.seqNum == d.seqNum + |d.payload|
    requires 0 < |d.payload| && |d.payload| + |g.payload| <= e.windowSize
    requires e.expectedSeqNum + e.windowSize + |g.payload| < TWO32
    ensures var (e', data, out) := e.HandleSeqNum(d, [g, g]);
            && (e'.status == Crashed <==> |d.payload| + |g.payload| < e.windowSize < |d.payload| + 2 * |g.payload|)
            && (e'.status != Crashed ==> e'.status == Open && data == Some(d.payload + g.payload))
  {
    var n, left := |g.payload|, e.windowSize - |d.payload|;
    assert IsValidSeg(d, e.expectedSeqNum, e.windowSize);
    assert d.payload[0..|d.payload|] == d.payload;
    SeqNumShape(e, d, [g, g]);
    WholeHeadTurn([g, g], d.payload, g.seqNum, left);
    assert [g, g][1..] == [g];
    if n < left {
      WholeHeadTurn([g], d.payload + g.payload, g.seqNum + n, left - n);
      assert [g][1..] == [];
    }
  }

  /** The receive ring never gets near 2^32 in such a run, which is what its methods ask for. */
  lemma ReceiveRingStaysBelow(s: Endpoint, r: Endpoint, toR: set<Segment>, toS: set<Segment>, n: nat)
    requires Ends(s, r, toR, toS, n)
    ensures r.expectedSeqNum - 1 - |r.pending| == r.irs + |r.delivered|
    ensures r.irs + |r.delivered| + BUFFER_CAPACITY < TWO32
  {
    FlowReached(s, r, toR, toS, n);
  }

  ghost predicate InFlight(s: Endpoint, p: int) {
    exists j :: 0 <= j < |s.inflightQ| && s.inflightQ[j].seg.seqNum <= p < s.inflightQ[j].seg.seqNum + |s.inflightQ[j].seg.payload|
  }

  ghost predicate Probed(s: Endpoint, p: int) {
    exists c :: c in s.log && c.probe && c.seqNum <= p < c.End()
  }

  /** The queue holds exactly the data segments of the log that are not fully acknowledged, in order,
      disjoint, each with its slice of the stream. */
  ghost predicate QueueExact(s: Endpoint) {
    && Queued(s.inflightQ, Unacked(s.log, s.sndUna))
    && (forall j, k :: 0 <= j < k < |s.inflightQ| ==>
          s.inflightQ[j].seg.seqNum + |s.inflightQ[j].seg.payload| <= s.inflightQ[k].seg.seqNum)
    && s.iss + 1 < TWO32
    && (forall j :: 0 <= j < |s.inflightQ| ==> Carries(s.inflightQ[j].seg, s.written, s.iss + 1))
  }

  /** Retransmission coverage: besides, every byte in flight is in a queued segment or was a probe. */
  lemma RetransmissionCovers(s: Endpoint, r: Endpoint, toR: set<Segment>, toS: set<Segment>, n: nat)
    requires Ends(s, r, toR, toS, n) && s.status == Open
    ensures QueueExact(s)
    ensures forall p :: s.sndUna <= p < s.sndNxt ==> InFlight(s, p) || Probed(s, p)
  {
    FlowReached(s, r, toR, toS, n);
    LaidIff(s.log, s.iss + 1, SentPart(s));
    QueueOf(s);
    forall p | s.sndUna <= p < s.sndNxt ensures InFlight(s, p) || Probed(s, p) {
      Covered(s.inflightQ, s.log, s.iss + 1, SentPart(s), s.sndUna, p);
    }
  }

  /** Whoever gives up has something unacknowledged. */
  lemma GivesUpUnacknowledged(s: Endpoint, r: Endpoint, toR: set<Segment>, toS: set<Segment>, n: nat)
    requires Ends(s, r, toR, toS, n) && s.Valid() && s.status == Open && s.Timeout().0.status == GaveUp
    ensures s.sndUna < s.sndNxt
  {
    FlowReached(s, r, toR, toS, n);
    var c := Unacked(s.log, s.sndUna)[0];
    assert c in Unacked(s.log, s.sndUna);
    UnackedMember(s.log, s.sndUna, c);
    LaidIff(s.log, s.iss + 1, SentPart(s));
    PartitionMember(s.log, s.iss + 1, SentPart(s), c);
  }

  lemma QueueOf(s: Endpoint)
    requires Plain(s) && Books(s) && s.status == Open
    ensures QueueExact(s)
  {
    LaidIff(s.log, s.iss + 1, SentPart(s));
    forall j, k | 0 <= j < k < |s.inflightQ|
      ensures s.inflightQ[j].seg.seqNum + |s.inflightQ[j].seg.payload| <= s.inflightQ[k].seg.seqNum
    {
      QueueOrdered(s.log, s.iss + 1, SentPart(s), s.sndUna, j, k);
    }
    forall j | 0 <= j < |s.inflightQ| ensures Carries(s.inflightQ[j].seg, s.written, s.iss + 1) {
      QueuedCarries(s, j);
    }
  }

  lemma QueuedCarries(s: Endpoint, j: nat)
    requires Plain(s) && Books(s) && s.status == Open && j < |s.inflightQ|
    ensures Carries(s.inflightQ[j].seg, s.written, s.iss + 1)
  {
    var c := Unacked(s.log, s.sndUna)[j];
    assert c in Unacked(s.log, s.sndUna);
    UnackedMember(s.log, s.sndUna, c);
    LaidIff(s.log, s.iss + 1, SentPart(s));
    PartitionMember(s.log, s.iss + 1, SentPart(s), c);
    SentPiece(s, c);
  }

  lemma SentPiece(s: Endpoint, c: Chunk)
    requires Plain(s) && s.iss + 1 <= c.seqNum && c.End() <= s.sndNxt
    requires c.payload == SentPart(s)[c.seqNum - (s.iss + 1)..c.End() - (s.iss + 1)]
    ensures c.payload == s.written[c.seqNum - (s.iss + 1)..c.End() - (s.iss + 1)]
  {
  }

  /** Segmentation: all first-time data segments and probes, in order, are the stream up to `sndNxt`;
      and every data segment lies inside the window the receiver offers. */
  lemma SegmentsMakeTheStream(s: Endpoint, r: Endpoint, toR: set<Segment>, toS: set<Segment>, n: nat)
    requires Ends(s, r, toR, toS, n)
    ensures 0 <= s.sndNxt - (s.iss + 1) <= |s.written|
    ensures Concat(s.log) == s.written[..s.sndNxt - (s.iss + 1)]
    ensures InEdge(s.log, Edge(r))
  {
    FlowReached(s, r, toR, toS, n);
    LaidIff(s.log, s.iss + 1, SentPart(s));
    PartitionConcat(s.log, s.iss + 1, SentPart(s));
  }
}
