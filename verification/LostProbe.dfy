/** A probe of a zero window is never queued, so its byte has no other copy once the send loop has left the probe;
    and a run that loses one. */
module LostProbe {
  import opened Arith
  import opened Segments
  import opened Reassembly
  import opened Retransmission
  import opened Endpoints
  import opened Transfer
  import opened Delivery
  import opened Crash
  import opened Sides
  import opened Progress
  import opened Copies

  /** All that is under way with byte `p` is lost. */
  function Lose(x: System, p: int): Net {
    Net(x.a, x.b, x.toA, x.toB, set g | g in x.toB && !Covers(g, p))
  }

  lemma {:induction false} OneChunk(log: seq<Chunk>, from: int, w: seq<Byte>, c: Chunk, d: Chunk, p: int)
    requires Partition(log, from, w) && c in log && d in log && c.seqNum <= p < c.End() && d.seqNum <= p < d.End()
    ensures c == d
  {
    var rest, at, w' := log[1..], log[0].End(), w[|log[0].payload|..];
    if c in rest {
      PartitionBounds(rest, at, w', c);
    }
    if d in rest {
      PartitionBounds(rest, at, w', d);
    }
    if c in rest && d in rest {
      OneChunk(rest, at, w', c, d, p);
    }
  }

  lemma ProbesNotQueued(s: Endpoint, c: Chunk, p: int)
    requires Plain(s) && Books(s) && s.status == Open && c in s.log && c.probe && c.seqNum <= p < c.End()
    ensures forall f :: f in s.inflightQ ==> !Covers(f.seg, p)
  {
    LaidIff(s.log, s.iss + 1, SentPart(s));
    forall f | f in s.inflightQ ensures !Covers(f.seg, p) {
      var i := FlightOf(s, f);
      if Covers(f.seg, p) {
        OneChunk(s.log, s.iss + 1, SentPart(s), c, Chunk(f.seg.seqNum, f.seg.payload, false), p);
      }
    }
  }

  lemma OneFlight(s: Endpoint, f: Flight, d: Flight, p: int)
    requires Plain(s) && Books(s) && s.status == Open && f in s.inflightQ && d in s.inflightQ && Covers(f.seg, p) && Covers(d.seg, p)
    ensures f == d
  {
    var i := FlightOf(s, f);
    var j := FlightOf(s, d);
    LaidIff(s.log, s.iss + 1, SentPart(s));
    if i < j {
      QueueOrdered(s.log, s.iss + 1, SentPart(s), s.sndUna, i, j);
    } else if j < i {
      QueueOrdered(s.log, s.iss + 1, SentPart(s), s.sndUna, j, i);
    }
  }

  /** Byte `p` is in a queued segment that has been resent as often as it may be. */
  ghost predicate Spent(s: Endpoint, p: int) {
    exists f :: f in s.inflightQ && Covers(f.seg, p) && f.counter >= MAX_RETRANSMISSIONS
  }

  lemma SpentOrProbed(x: System, n: nat)
    requires Reaches(x, n) && x.a.status == Open && x.b.expectedSeqNum < x.a.sndNxt
    ensures var p := x.b.expectedSeqNum;
            (forall f :: f in x.a.inflightQ && Covers(f.seg, p) ==> f.counter >= MAX_RETRANSMISSIONS)
            <==> Probed(x.a, p) || Spent(x.a, p)
  {
    var p := x.b.expectedSeqNum;
    FlowReached(x.a, x.b, x.toB, x.toA, n);
    RetransmissionCovers(x.a, x.b, x.toB, x.toA, n);
    assert x.a.sndUna <= p;
    if Probed(x.a, p) {
      var c :| c in x.a.log && c.probe && c.seqNum <= p < c.End();
      ProbesNotQueued(x.a, c, p);
    } else {
      assert InFlight(x.a, p);
      var j :| 0 <= j < |x.a.inflightQ|
               && x.a.inflightQ[j].seg.seqNum <= p < x.a.inflightQ[j].seg.seqNum + |x.a.inflightQ[j].seg.payload|;
      var f := x.a.inflightQ[j];
      assert f in x.a.inflightQ && Covers(f.seg, p);
      forall d | d in x.a.inflightQ && Covers(d.seg, p) ensures d == f {
        OneFlight(x.a, f, d, p);
      }
    }
  }

  /** In every reachable state, exactly: losing what is under way with the byte that `b` waits for leaves no
      copy of it, if and only if it was sent as a probe, or has been resent as often as may be; it is not being
      probed; and `b` has not queued it early with something under way to set off its merge. */
  lemma NoCopyLeftIff(x: System, n: nat)
    requires Reaches(x, n) && x.a.status == Open && x.b.expectedSeqNum < x.a.sndNxt
    ensures var p, way := x.b.expectedSeqNum, Lose(x, x.b.expectedSeqNum).way;
            NoCopy(x.a, x.b, way, p)
            <==> && (Probed(x.a, p) || Spent(x.a, p))
                 && !(Probing(x.a, p) && Recent(x.a.probe.value.packet, x.b))
                 && !(EarlyCopy(x.b, p) && exists g :: g in way && g.seqNum == p && Recent(g, x.b))
  {
    SpentOrProbed(x, n);
  }

  // A run into such a state: the buffer is filled, one byte is sent as a probe, and all is read.

  ghost predicate Filled(x: Net, iss: U32, irs: U32, data: seq<Byte>, n: nat)
    requires Ports(iss, irs, data) && n <= BUFFER_CAPACITY
  {
    && Filling(x.a, iss, irs, data, n)
    && x.b == Filler(iss, irs, data, n)
    && (n > 0 ==> x.b.AckSegment() in x.toA)
  }

  /** The `n`th byte and what goes with it in one segment. */
  function NextSegment(iss: U32, irs: U32, data: seq<Byte>, n: nat): Segment
    requires Ports(iss, irs, data) && n < BUFFER_CAPACITY
  {
    Segment(iss + 1 + n, irs + 1, BUFFER_CAPACITY, true, data[n..n + Min(MSS, BUFFER_CAPACITY - n)])
  }

  lemma NextSent(a: Endpoint, iss: U32, irs: U32, data: seq<Byte>, n: nat)
    requires Ports(iss, irs, data) && n < BUFFER_CAPACITY && Filling(a, iss, irs, data, n)
    ensures Enabled(a, SendLoop, {})
    ensures var (e, out) := a.SendTurn();
            && out == [NextSegment(iss, irs, data, n)]
            && e == a.(inflightQ := e.inflightQ, log := e.log, sndNxt := iss + 1 + n + Min(MSS, BUFFER_CAPACITY - n))
  {
    WindowDistances(a);
    SendShape(a);
  }

  function Filler(iss: U32, irs: U32, data: seq<Byte>, n: nat): Endpoint
    requires Ports(iss, irs, data) && n <= BUFFER_CAPACITY
  {
    Initial(irs, iss, BUFFER_CAPACITY).(
      pending := data[..n], expectedSeqNum := iss + 1 + n, windowSize := BUFFER_CAPACITY - n)
  }

  lemma TakesNext(iss: U32, irs: U32, data: seq<Byte>, n: nat)
    requires Ports(iss, irs, data) && n < BUFFER_CAPACITY
    ensures var m, r := n + Min(MSS, BUFFER_CAPACITY - n), Filler(iss, irs, data, n);
            && r.Valid() && multiset([]) == r.earlyArrivalQ
            && r.Receive(NextSegment(iss, irs, data, n), []).0 == Filler(iss, irs, data, m)
            && Filler(iss, irs, data, m).AckSegment() in r.Receive(NextSegment(iss, irs, data, n), []).1
  {
    var m, r, g := n + Min(MSS, BUFFER_CAPACITY - n), Filler(iss, irs, data, n), NextSegment(iss, irs, data, n);
    PlainArrival(r, g);
    SegTextShape(r, g.payload);
    assert data[..n] + g.payload == data[..m];
  }

  /** A sender that has sent `n` bytes of its buffer into an open window. */
  ghost predicate Filling(a: Endpoint, iss: U32, irs: U32, data: seq<Byte>, n: nat)
    requires Ports(iss, irs, data) && n <= BUFFER_CAPACITY
  {
    && a.Valid() && a.status == Open && a.iss == iss && a.written == data && a.sndUna == iss + 1
    && a.sndNxt == iss + 1 + n && a.sndWnd == BUFFER_CAPACITY && a.probe == None
    && a.expectedSeqNum == irs + 1 && a.windowSize == BUFFER_CAPACITY && a.earlyArrivalQ == multiset{}
  }

  lemma FillSends(o: Net, x: Net, iss: U32, irs: U32, data: seq<Byte>, n: nat) returns (y: Net)
    requires Ports(iss, irs, data) && n < BUFFER_CAPACITY && Onward(o, x) && Filling(x.a, iss, irs, data, n) && x.b.Valid()
    ensures Onward(o, y) && Filling(y.a, iss, irs, data, n + Min(MSS, BUFFER_CAPACITY - n)) && y.b == x.b
    ensures NextSegment(iss, irs, data, n) in y.way && y.way <= y.toB
  {
    NextSent(x.a, iss, irs, data, n);
    var out := x.a.SendTurn().1;
    assert out[0] in Sent(out);
    y := GoOn(o, x, true, SendLoop);
  }

  lemma Fills(o: Net, x: Net, iss: U32, irs: U32, data: seq<Byte>, n: nat) returns (y: Net, m: nat)
    requires Ports(iss, irs, data) && n < BUFFER_CAPACITY && Onward(o, x) && Filled(x, iss, irs, data, n)
    ensures n < m <= BUFFER_CAPACITY && Onward(o, y) && Filled(y, iss, irs, data, m)
  {
    m := n + Min(MSS, BUFFER_CAPACITY - n);
    TakesNext(iss, irs, data, n);
    var z := FillSends(o, x, iss, irs, data, n);
    y := GoOn(o, z, false, Arrival(NextSegment(iss, irs, data, n), []));
  }

  lemma {:induction false} FillsUp(o: Net, x: Net, iss: U32, irs: U32, data: seq<Byte>, n: nat) returns (y: Net)
    requires Ports(iss, irs, data) && n <= BUFFER_CAPACITY && Onward(o, x) && Filled(x, iss, irs, data, n)
    ensures Onward(o, y) && Filled(y, iss, irs, data, BUFFER_CAPACITY)
    decreases BUFFER_CAPACITY - n
  {
    if n == BUFFER_CAPACITY {
      y := x;
    } else {
      var z, m := Fills(o, x, iss, irs, data, n);
      y := FillsUp(o, z, iss, irs, data, m);
    }
  }

  /** What `a` has, once all it wrote is acknowledged with a window of `wnd`. */
  ghost predicate Settled(a: Endpoint, iss: U32, irs: U32, written: seq<Byte>, sndUna: U32, wnd: Window) {
    && a.Valid() && a.status == Open && a.iss == iss && a.written == written && a.sndUna == sndUna && a.sndWnd == wnd
    && a.expectedSeqNum == irs + 1 && a.windowSize == BUFFER_CAPACITY && a.earlyArrivalQ == multiset{}
  }

  lemma Shuts(o: Net, x: Net, iss: U32, irs: U32, data: seq<Byte>) returns (y: Net)
    requires Ports(iss, irs, data) && Onward(o, x) && Filled(x, iss, irs, data, BUFFER_CAPACITY)
    ensures Onward(o, y) && y.b == x.b && Settled(y.a, iss, irs, data, iss + 65536, 0)
    ensures y.a.sndNxt == iss + 65536 && y.a.probe == None
  {
    FactsOf(o, x);
    WindowTold(x.a, x.b.AckSegment());
    y := GoOn(o, x, true, Arrival(x.b.AckSegment(), []));
  }

  /** A byte more is written, and goes out as a probe. */
  lemma Probes(o: Net, x: Net, iss: U32, irs: U32, data: seq<Byte>, byte: Byte) returns (y: Net)
    requires Ports(iss, irs, data) && iss + 65537 <= TWO32 - 65536 && Onward(o, x)
    requires Settled(x.a, iss, irs, data, iss + 65536, 0) && x.a.sndNxt == iss + 65536 && x.a.probe == None
    ensures Onward(o, y) && y.b == x.b && Settled(y.a, iss, irs, data + [byte], iss + 65536, 0)
    ensures y.a.sndNxt == iss + 65537 && y.a.probe.Some? && Chunk(iss + 65536, [byte], true) in y.a.log
  {
    FactsOf(o, x);
    WriteShape(x.a, [byte]);
    assert [byte][..1] == [byte];
    x.a.Distances();
    var x1 := GoOn(o, x, true, AppWrite([byte]));
    assert Settled(x1.a, iss, irs, data + [byte], iss + 65536, 0);
    WindowDistances(x1.a);
    SendShape(x1.a);
    assert Stream(data + [byte], iss + 1, iss + 65536, iss + 65537) == [byte];
    var x2 := GoOn(o, x1, true, SendLoop);
    ProbeShape(x2.a);
    y := GoOn(o, x2, true, ProbeTimer);
  }

  /** All is read; the next acknowledgement opens the window, and the send loop leaves the probe. */
  lemma Leaves(o: Net, x: Net, iss: U32, irs: U32, data: seq<Byte>, byte: Byte) returns (y: Net)
    requires Ports(iss, irs, data) && iss + 65537 <= TWO32 - 65536 && Onward(o, x) && o.way == o.toB
    requires Settled(x.a, iss, irs, data + [byte], iss + 65536, 0) && x.a.sndNxt == iss + 65537
    requires x.a.probe.Some? && Chunk(iss + 65536, [byte], true) in x.a.log && x.b == Filler(iss, irs, data, BUFFER_CAPACITY)
    ensures Onward(o, y) && y.b.expectedSeqNum == iss + 65536 && y.b.earlyArrivalQ == multiset{} && y.b.status == Open
    ensures y.a.status == Open && y.a.sndNxt == iss + 65537 && y.a.probe == None && Chunk(iss + 65536, [byte], true) in y.a.log
    ensures y.b.delivered == data && y.a.written == data + [byte]
  {
    var x1 := GoOn(o, x, false, AppRead(BUFFER_CAPACITY));
    assert [] + data == data && data[..BUFFER_CAPACITY] == data;
    FactsOf(o, x1);
    WholeOlder(x1);
    var g :| g in x1.way && g.payload != [] && g.seqNum + |g.payload| <= x1.b.expectedSeqNum;
    var x2 := AnswersAgain(o, x1, g);
    FactsOf(o, x2);
    WindowTold(x2.a, x2.b.AckSegment());
    var x3 := GoOn(o, x2, true, Arrival(x2.b.AckSegment(), []));
    FactsOf(o, x3);
    ProbeShape(x3.a);
    y := GoOn(o, x3, true, ProbeTimer);
  }

  /** A run from the start, whatever the data: all but the last byte has been read, both ends are open, the window
      is, and if what is under way with the last byte is lost, no continuation brings it. */
  lemma ProbeLost(iss: U32, irs: U32, data: seq<Byte>, byte: Byte) returns (x: System, n: nat)
    requires Ports(iss, irs, data) && iss + 65537 <= TWO32 - 65536
    ensures Reaches(x, n) && x.a.status == Open && x.b.status == Open
    ensures x.a.written == data + [byte] && x.b.delivered == data && x.b.expectedSeqNum == iss + 65536
    ensures StuckAt(Lose(x, iss + 65536), iss + 65536)
  {
    var x0 := Whole(System(Initial(iss, irs, BUFFER_CAPACITY), Initial(irs, iss, BUFFER_CAPACITY), {}, {}));
    assert Reaches(x0.Sys(), 0) && Leads(x0, x0, 0);
    WriteShape(x0.a, data);
    assert data[..BUFFER_CAPACITY] == data && data[..0] == [];
    var x1 := GoOn(x0, x0, true, AppWrite(data));
    var x2 := FillsUp(x0, x1, iss, irs, data, 0);
    var x3 := Shuts(x0, x2, iss, irs, data);
    var x4 := Probes(x0, x3, iss, irs, data, byte);
    var x5 := Leaves(x0, x4, iss, irs, data, byte);
    x := x5.Sys();
    var m: nat, k: nat :| Reaches(x5.Sys(), m) && Leads(x0, x5, k);
    n := m;
    assert Probed(x.a, iss + 65536);
    NoCopyLeftIff(x, n);
    LostForever(Lose(x, iss + 65536), n, iss + 65536);
  }
}
