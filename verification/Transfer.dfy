/** Two connected ends over a network that loses, duplicates and reorders: the data phase. */
module Transfer {
  import opened Arith
  import opened Segments
  import opened Reassembly
  import opened Retransmission
  import opened Endpoints

  /** What can happen at one end. Each is one atomic step. */
  datatype Event =
    | AppWrite(data: seq<Byte>)
    | AppRead(n: nat)
    | SendLoop
    | ProbeTimer
    | RetransTimer
    | Arrival(g: Segment, order: seq<Segment>)

  ghost predicate Enabled(e: Endpoint, ev: Event, incoming: set<Segment>)
    requires e.Valid()
  {
    && e.status == Open
    && match ev
       case AppWrite(data) => e.SendBufFreeSpace() > 0 && e.iss + 1 + |e.written| + |data| <= TWO32 - 65536
       case AppRead(n) => n > 0 && e.pending != []
       case SendLoop => e.probe.None? && e.NumBytesNotSent() > 0
       case ProbeTimer => e.probe.Some?
       case RetransTimer => true
       case Arrival(g, order) => g in incoming && multiset(order) == e.earlyArrivalQ
  }

  ghost function Effect(e: Endpoint, ev: Event, incoming: set<Segment>): (r: (Endpoint, seq<Segment>))
    requires e.Valid() && Enabled(e, ev, incoming)
    ensures r.0.Valid()
  {
    match ev
    case AppWrite(data) => (e.Write(data).0, [])
    case AppRead(n) => (e.Read(n).0, [])
    case SendLoop => e.SendTurn()
    case ProbeTimer => e.ProbeTurn()
    case RetransTimer => e.Timeout()
    case Arrival(g, order) => e.Receive(g, order)
  }

  /** `toA` and `toB`: every segment ever sent each way. Any of them may arrive, any number of times. */
  datatype System = System(a: Endpoint, b: Endpoint, toA: set<Segment>, toB: set<Segment>)

  function Sent(out: seq<Segment>): set<Segment> { set g | g in out }

  ghost predicate Step(s: System, s': System, atA: bool, ev: Event)
    requires s.a.Valid() && s.b.Valid()
  {
    if atA then
      && Enabled(s.a, ev, s.toA)
      && var (e, out) := Effect(s.a, ev, s.toA);
         s' == s.(a := e, toB := s.toB + Sent(out))
    else
      && Enabled(s.b, ev, s.toB)
      && var (e, out) := Effect(s.b, ev, s.toB);
         s' == s.(b := e, toA := s.toA + Sent(out))
  }

  /** Every sequence number of the run lies in [65535, 2^32 - 65536]. */
  ghost predicate NoWrap(e: Endpoint) {
    65535 <= e.iss && e.iss + 1 + |e.written| <= TWO32 - 65536
  }

  /** Where the handshake leaves both ends. */
  ghost predicate Fresh(e: Endpoint, peer: Endpoint) {
    e == Initial(e.iss, peer.iss, BUFFER_CAPACITY)
  }

  ghost predicate Init(s: System) {
    && Fresh(s.a, s.b) && Fresh(s.b, s.a) && s.toA == {} && s.toB == {}
    && NoWrap(s.a) && NoWrap(s.b)
  }

  /** The right edge of the window a receiver offers. */
  function Edge(r: Endpoint): int { r.expectedSeqNum + r.windowSize }

  /** The segment repeats a chunk of the log, or carries no data. */
  ghost predicate OnLog(log: seq<Chunk>, g: Segment) {
    g.payload == [] || Chunk(g.seqNum, g.payload, false) in log || Chunk(g.seqNum, g.payload, true) in log
  }

  /** The segment acknowledges and offers no more than `r` has taken and has room for. */
  ghost predicate Truthful(g: Segment, r: Endpoint) {
    && r.irs + 1 <= g.ackNum <= r.expectedSeqNum
    && g.ackNum + g.window <= Edge(r)
  }

  ghost predicate AllTruthful(toS: set<Segment>, r: Endpoint) {
    forall g :: g in toS ==> Truthful(g, r)
  }

  ghost predicate SentBy(g: Segment, s: Endpoint) {
    s.iss + 1 <= g.seqNum && g.seqNum + |g.payload| <= s.sndNxt && OnLog(s.log, g)
  }

  ghost predicate AllSentBy(toR: set<Segment>, s: Endpoint) {
    forall g :: g in toR ==> SentBy(g, s)
  }

  /** `Valid` in plain integers, for an end whose sequence numbers do not wrap. */
  ghost predicate Plain(s: Endpoint) {
    && NoWrap(s)
    && s.iss + 1 <= s.sndUna <= s.sndNxt <= s.iss + 1 + |s.written| <= s.sndUna + BUFFER_CAPACITY
    && (s.probe.Some? && s.status == Open ==>
          var packet := s.probe.value.packet;
          && |packet.payload| == 1 && s.iss + 1 <= packet.seqNum < s.iss + 1 + |s.written|
          && (s.sndNxt == packet.seqNum || s.sndNxt == packet.seqNum + 1))
  }

  lemma ValidIsPlain(s: Endpoint)
    requires s.Valid() && NoWrap(s)
    ensures Plain(s)
  {
  }

  /** The bytes of `w`, numbered from `base` on, with numbers from `lo` up to but not including `hi`. */
  function Stream(w: seq<Byte>, base: int, lo: int, hi: int): seq<Byte>
    requires base <= lo <= hi <= base + |w|
  {
    w[lo - base..hi - base]
  }

  function SentPart(s: Endpoint): seq<Byte>
    requires Plain(s)
  {
    Stream(s.written, s.iss + 1, s.iss + 1, s.sndNxt)
  }

  lemma StreamExtends(w: seq<Byte>, data: seq<Byte>, base: int, lo: int, hi: int)
    requires base <= lo <= hi <= base + |w|
    ensures Stream(w + data, base, lo, hi) == Stream(w, base, lo, hi)
  {
  }

  /** The sender's books: the log is the sent part of the stream, and the queue its unacknowledged
      data segments. */
  ghost predicate Books(s: Endpoint)
    requires Plain(s)
  {
    && Laid(s.log, s.iss + 1, SentPart(s))
    && (forall c :: c in s.log && c.probe ==> |c.payload| == 1)
    && (s.status == Open ==> Queued(s.inflightQ, Unacked(s.log, s.sndUna)))
    && (s.status == Open && s.probe.Some? ==>
          var packet := s.probe.value.packet;
          && packet.payload == Stream(s.written, s.iss + 1, packet.seqNum, packet.seqNum + 1)
          && (s.sndNxt == packet.seqNum || Chunk(packet.seqNum, packet.payload, true) in s.log))
  }

  /** The window keeps every data segment ever sent inside what the receiver offers now. */
  ghost predicate InEdge(log: seq<Chunk>, edge: int) {
    forall c :: c in log && !c.probe ==> c.End() <= edge
  }

  ghost predicate QueueSent(r: Endpoint, toR: set<Segment>) {
    forall g :: g in r.earlyArrivalQ ==> g in toR
  }

  /** What `r` has is the stream of `s` up to `expectedSeqNum`, and its window is its free space. */
  ghost predicate Receipt(s: Endpoint, r: Endpoint) {
    && r.irs == s.iss && r.windowSize == BUFFER_CAPACITY - |r.pending|
    && r.expectedSeqNum == s.iss + 1 + |r.delivered| + |r.pending|
    && r.expectedSeqNum <= s.iss + 1 + |s.written|
    && r.delivered + r.pending == Stream(s.written, s.iss + 1, s.iss + 1, r.expectedSeqNum)
  }

  /** Everything that ties the data `s` sends to what `r` has of it. */
  ghost predicate Flow(s: Endpoint, r: Endpoint, toR: set<Segment>, toS: set<Segment>) {
    && Plain(s) && Books(s) && Receipt(s, r)
    && (s.status == GaveUp || s.sndUna <= r.expectedSeqNum)
    && r.expectedSeqNum <= s.sndNxt
    && (s.status == GaveUp || s.sndUna + s.sndWnd <= Edge(r))
    && AllSentBy(toR, s) && QueueSent(r, toR)
    && Boundary(s.log, r.expectedSeqNum) && InEdge(s.log, Edge(r))
    && AllTruthful(toS, r)
    && (r.status == Open && r.probe.Some? ==> Truthful(r.probe.value.packet, r))
  }

  ghost predicate Inv(s: System) {
    && s.a.Valid() && s.b.Valid()
    && Flow(s.a, s.b, s.toB, s.toA) && Flow(s.b, s.a, s.toA, s.toB)
  }

  lemma FreshBooks(s: Endpoint)
    requires NoWrap(s) && s == Initial(s.iss, s.irs, BUFFER_CAPACITY)
    ensures Plain(s) && Books(s)
  {
    assert SentPart(s) == [] && Unacked([], s.sndUna) == [];
    LaidIff([], s.iss + 1, []);
  }

  lemma FreshReceipt(s: Endpoint, r: Endpoint)
    requires Fresh(s, r) && Fresh(r, s) && NoWrap(s) && NoWrap(r)
    ensures Receipt(s, r)
  {
    assert Stream([], s.iss + 1, s.iss + 1, s.iss + 1) == [];
  }

  lemma FreshFlow(s: Endpoint, r: Endpoint)
    requires Fresh(s, r) && Fresh(r, s) && NoWrap(s) && NoWrap(r)
    ensures s.Valid() && Flow(s, r, {}, {})
  {
    FreshBooks(s);
    FreshReceipt(s, r);
    assert s.log == [] && r.expectedSeqNum == s.sndNxt == s.sndUna;
    assert QueueSent(r, {}) && AllSentBy({}, s) && AllTruthful({}, r);
  }

  lemma InitHolds(s: System)
    requires Init(s)
    ensures Inv(s)
  {
    FreshFlow(s.a, s.b);
    FreshFlow(s.b, s.a);
  }

  // Events at the sending end.

  lemma WriteShape(s: Endpoint, data: seq<Byte>)
    requires s.Valid() && NoWrap(s) && |s.written| + |data| + 1 < TWO32
    ensures var (s', n) := s.Write(data);
            && n == Min(BUFFER_CAPACITY - (s.iss + 1 + |s.written| - s.sndUna), |data|)
            && s' == s.(written := s.written + data[..n])
  {
    s.Distances();
  }

  lemma SenderWrites(s: Endpoint, s': Endpoint, r: Endpoint, toR: set<Segment>, toS: set<Segment>, data: seq<Byte>)
    requires Flow(s, r, toR, toS) && s' == s.(written := s.written + data) && Plain(s')
    ensures Flow(s', r, toR, toS)
  {
    StreamExtends(s.written, data, s.iss + 1, s.iss + 1, s.sndNxt);
    StreamExtends(s.written, data, s.iss + 1, s.iss + 1, r.expectedSeqNum);
    if s.status == Open && s.probe.Some? {
      var at := s.probe.value.packet.seqNum;
      StreamExtends(s.written, data, s.iss + 1, at, at + 1);
    }
  }

  /** New transmissions: the log only grows, above `sndNxt`, data within the known window. */
  ghost predicate Advances(s: Endpoint, s': Endpoint, sent: set<Segment>) {
    && Plain(s') && s'.iss == s.iss && s'.written == s.written && s'.status == s.status
    && s'.sndUna == s.sndUna && s'.sndWnd == s.sndWnd && s.sndNxt <= s'.sndNxt
    && Books(s') && AllSentBy(sent, s')
    && (forall c :: c in s.log ==> c in s'.log)
    && (forall c :: c in s'.log && c !in s.log ==> c.seqNum >= s.sndNxt && (c.probe || c.End() <= s.sndUna + s.sndWnd))
  }

  lemma AdvanceKeepsFlow(s: Endpoint, s': Endpoint, r: Endpoint, toR: set<Segment>, toS: set<Segment>, sent: set<Segment>)
    requires Flow(s, r, toR, toS) && s.status == Open && Advances(s, s', sent)
    ensures Flow(s', r, toR + sent, toS)
  {
  }

  lemma StreamContinues(w: seq<Byte>, base: int, lo: int, hi: int, data: seq<Byte>)
    requires base <= lo <= hi && hi + |data| <= base + |w| && data == Stream(w, base, hi, hi + |data|)
    ensures Stream(w, base, lo, hi) + data == Stream(w, base, lo, hi + |data|)
  {
  }

  lemma ChunkAppended(s: Endpoint, c: Chunk)
    requires Plain(s) && Books(s) && c.End() <= s.iss + 1 + |s.written|
    requires c.seqNum == s.sndNxt && c.payload != [] && c.payload == Stream(s.written, s.iss + 1, s.sndNxt, c.End())
    ensures Laid(s.log + [c], s.iss + 1, Stream(s.written, s.iss + 1, s.iss + 1, c.End()))
    ensures Unacked(s.log + [c], s.sndUna) == Unacked(s.log, s.sndUna) + if c.probe then [] else [c]
  {
    StreamContinues(s.written, s.iss + 1, s.iss + 1, s.sndNxt, c.payload);
    LaidAppend(s.log, s.iss + 1, SentPart(s), c);
    UnackedAppend(s.log, c, s.sndUna);
    assert Unacked([], s.sndUna) == [];
  }

  lemma LaidAppend(log: seq<Chunk>, from: int, w: seq<Byte>, c: Chunk)
    requires Laid(log, from, w) && c.payload != [] && c.seqNum == from + |w|
    ensures Laid(log + [c], from, w + c.payload)
  {
    LaidIff(log, from, w);
    PartitionAppend(log, from, w, c);
    LaidIff(log + [c], from, w + c.payload);
  }

  lemma OneByte(w: seq<Byte>, at: nat)
    requires at < |w|
    ensures w[at..at + 1] == [w[at]]
  {
    assert |w[at..at + 1]| == 1 && w[at..at + 1][0] == w[at];
  }

  /** What one turn of the send loop does: nothing, or form a probe of the next byte when the window
      is zero, or send and queue the next bytes, at most MSS, below the known right edge. */
  ghost predicate SendsNext(s: Endpoint, s': Endpoint, out: seq<Segment>) {
    && s.iss + 1 <= s.sndNxt < s.iss + 1 + |s.written|
    && if s.sndWnd == 0 then
         out == [] && s' == s.(probe := Some(Probe(s.sndUna,
           Segment(s.sndNxt, s.expectedSeqNum, s.windowSize, true, Stream(s.written, s.iss + 1, s.sndNxt, s.sndNxt + 1)))))
       else if s.sndUna + s.sndWnd <= s.sndNxt then out == [] && s' == s
       else
         var n := Min(MSS, Min(s.iss + 1 + |s.written| - s.sndNxt, s.sndUna + s.sndWnd - s.sndNxt));
         var payload := Stream(s.written, s.iss + 1, s.sndNxt, s.sndNxt + n);
         var packet := Segment(s.sndNxt, s.expectedSeqNum, s.windowSize, true, payload);
         && s.sndNxt + n < TWO32 && |payload| <= 65535
         && out == [packet] && s' == s.(inflightQ := s.inflightQ + [Flight(packet, n, 0)],
                                        log := s.log + [Chunk(s.sndNxt, payload, false)], sndNxt := s.sndNxt + n)
  }

  lemma SendShape(s: Endpoint)
    requires s.Valid() && NoWrap(s) && Enabled(s, SendLoop, {})
    ensures SendsNext(s, s.SendTurn().0, s.SendTurn().1)
  {
    WindowDistances(s);
    OneByte(s.written, s.sndNxt - (s.iss + 1));
  }

  /** How much goes out in a segment, in numerals: 1360 bytes, unless less is unsent or the window allows less. */
  lemma SendsUpTo1360(s: Endpoint)
    requires s.Valid() && NoWrap(s) && Enabled(s, SendLoop, {}) && s.sndWnd > 0
    ensures var out, n := s.SendTurn().1, Min(1360, Min(s.iss + 1 + |s.written| - s.sndNxt, s.sndUna + s.sndWnd - s.sndNxt));
            if n <= 0 then out == [] else |out| == 1 && |out[0].payload| == n && out[0].seqNum == s.sndNxt
  {
    SendShape(s);
  }

  lemma WindowDistances(s: Endpoint)
    requires s.Valid() && NoWrap(s)
    ensures s.Off(s.sndNxt) - 1 == s.sndNxt - (s.iss + 1) && s.NumBytesNotSent() == s.iss + 1 + |s.written| - s.sndNxt
    ensures s.UsableSendWindow() == Max(0, s.sndUna + s.sndWnd - s.sndNxt)
  {
    s.Distances();
  }

  lemma DataKeepsBooks(s: Endpoint, s': Endpoint, packet: Segment)
    requires Plain(s) && Books(s) && s.status == Open && s.probe.None?
    requires packet.seqNum == s.sndNxt && packet.payload != []
    requires s.sndNxt + |packet.payload| <= Min(s.iss + 1 + |s.written|, s.sndUna + s.sndWnd)
    requires packet.payload == Stream(s.written, s.iss + 1, s.sndNxt, s.sndNxt + |packet.payload|)
    requires s' == s.(inflightQ := s.inflightQ + [Flight(packet, |packet.payload|, 0)],
                      log := s.log + [Chunk(s.sndNxt, packet.payload, false)], sndNxt := s.sndNxt + |packet.payload|)
    ensures Plain(s') && Books(s')
  {
    ChunkAppended(s, Chunk(s.sndNxt, packet.payload, false));
    QueuedAppend(s.inflightQ, Unacked(s.log, s.sndUna), packet, 0);
  }

  lemma DataAdvances(s: Endpoint, s': Endpoint, packet: Segment)
    requires Plain(s) && Books(s) && s.status == Open && s.probe.None?
    requires packet.seqNum == s.sndNxt && packet.payload != []
    requires s.sndNxt + |packet.payload| <= Min(s.iss + 1 + |s.written|, s.sndUna + s.sndWnd)
    requires packet.payload == Stream(s.written, s.iss + 1, s.sndNxt, s.sndNxt + |packet.payload|)
    requires s' == s.(inflightQ := s.inflightQ + [Flight(packet, |packet.payload|, 0)],
                      log := s.log + [Chunk(s.sndNxt, packet.payload, false)], sndNxt := s.sndNxt + |packet.payload|)
    ensures Advances(s, s', Sent([packet]))
  {
    DataKeepsBooks(s, s', packet);
    assert Chunk(packet.seqNum, packet.payload, false) in s'.log;
  }

  lemma SendAdvances(s: Endpoint, s': Endpoint, out: seq<Segment>)
    requires Plain(s) && Books(s) && s.status == Open && s.probe.None? && SendsNext(s, s', out)
    ensures Advances(s, s', Sent(out))
  {
    if out != [] {
      DataAdvances(s, s', out[0]);
      assert out == [out[0]];
    }
  }

  lemma ProbeKeepsBooks(s: Endpoint, s': Endpoint, packet: Segment)
    requires Plain(s) && Books(s) && s.status == Open && s.probe.Some? && packet == s.probe.value.packet
    requires s.sndNxt == packet.seqNum
    requires s' == s.(log := s.log + [Chunk(s.sndNxt, packet.payload, true)], sndNxt := packet.seqNum + 1)
    ensures Plain(s') && Books(s')
  {
    ChunkAppended(s, Chunk(packet.seqNum, packet.payload, true));
  }

  lemma ProbeAdvances(s: Endpoint, s': Endpoint, packet: Segment)
    requires Plain(s) && Books(s) && s.status == Open && s.probe.Some? && packet == s.probe.value.packet
    requires s' == s.(log := if s.sndNxt == packet.seqNum then s.log + [Chunk(s.sndNxt, packet.payload, true)] else s.log,
                      sndNxt := packet.seqNum + 1)
    ensures Advances(s, s', Sent([packet]))
  {
    if s.sndNxt == packet.seqNum {
      ProbeKeepsBooks(s, s', packet);
    }
    assert Chunk(packet.seqNum, packet.payload, true) in s'.log;
  }

  lemma RetransmitAdvances(s: Endpoint, s': Endpoint, packet: Segment)
    requires Plain(s) && Books(s) && s.status == Open && s.inflightQ != []
    requires packet == s.inflightQ[0].seg.(ackNum := packet.ackNum, window := packet.window)
    requires s' == s.(inflightQ := [s.inflightQ[0].(seg := packet, counter := s.inflightQ[0].counter + 1)] + s.inflightQ[1..])
    ensures Advances(s, s', Sent([packet]))
  {
    var chunks := Unacked(s.log, s.sndUna);
    assert chunks[0] in chunks;
    UnackedMember(s.log, s.sndUna, chunks[0]);
    LaidIff(s.log, s.iss + 1, SentPart(s));
    PartitionBounds(s.log, s.iss + 1, SentPart(s), chunks[0]);
  }

  /** Giving up drops the unsent end of the stream; what the receiver has stays a prefix of the rest. */
  lemma SenderGivesUp(s: Endpoint, s': Endpoint, r: Endpoint, toR: set<Segment>, toS: set<Segment>)
    requires Flow(s, r, toR, toS) && s.status == Open
    requires s' == s.(status := GaveUp, inflightQ := [], written := s.written[..s.sndNxt - (s.iss + 1)], sndUna := s.sndNxt)
    ensures Flow(s', r, toR, toS)
  {
    var k := s.sndNxt - (s.iss + 1);
    assert s.written == s'.written + s.written[k..];
    StreamExtends(s'.written, s.written[k..], s.iss + 1, s.iss + 1, s.sndNxt);
    StreamExtends(s'.written, s.written[k..], s.iss + 1, s.iss + 1, r.expectedSeqNum);
  }

  lemma AckShape(s: Endpoint, g: Segment)
    requires s.Valid() && NoWrap(s) && s.iss + 1 <= g.ackNum <= s.sndNxt
    ensures var (s', ok, out) := s.HandleAck(g);
            s' == if g.ackNum + BUFFER_CAPACITY < s.sndUna || g.ackNum < s.sndUna then s
                  else if s.sndUna < g.ackNum then
                    s.(sndUna := g.ackNum, sndWnd := g.window, inflightQ := AckInflight(s.inflightQ, g.ackNum))
                  else s.(sndWnd := g.window)
    ensures s.HandleAck(g).2 == [] || s.HandleAck(g).2 == [s.AckSegment()]
  {
  }

  /** `handleAck` in plain integers, all of it: an acknowledgement more than 65535 behind `sndUna`, or beyond
      `sndNxt`, changes nothing and is answered with where this end stands; another is answered with nothing. */
  lemma AckExact(s: Endpoint, g: Segment)
    requires s.Valid() && NoWrap(s)
    ensures var (s', ok, out) := s.HandleAck(g);
            && (ok <==> s.sndUna - 65535 <= g.ackNum <= s.sndNxt)
            && out == (if ok then [] else [Segment(s.sndNxt, s.expectedSeqNum, s.windowSize, true, [])])
            && (ok && s.sndUna < g.ackNum ==>
                  s' == s.(sndUna := g.ackNum, sndWnd := g.window, inflightQ := AckInflight(s.inflightQ, g.ackNum)))
            && (g.ackNum == s.sndUna ==> s' == s.(sndWnd := g.window))
            && (!ok || g.ackNum < s.sndUna ==> s' == s)
  {
  }

  /** A front segment sent once is sent three times more, each time with the acknowledgement and window of now,
      before the fourth timeout tears the connection down. */
  lemma ResendsThrice(s: Endpoint)
    requires s.Valid() && NoWrap(s) && s.status == Open && s.inflightQ != [] && s.inflightQ[0].counter == 0
    ensures var (s1, out1) := s.Timeout();
            && s1.status == Open && var (s2, out2) := s1.Timeout();
            && s2.status == Open && var (s3, out3) := s2.Timeout();
            && s3.status == Open && var (s4, out4) := s3.Timeout();
            && out1 == out2 == out3 == [s.inflightQ[0].seg.(ackNum := s.expectedSeqNum, window := s.windowSize)]
            && s4.status == GaveUp && out4 == [] && s4.inflightQ == [] && s4.sndUna == s4.sndNxt == s.sndNxt
  {
    TimeoutShape(s);
    var s1 := s.Timeout().0;
    TimeoutShape(s1);
    var s2 := s1.Timeout().0;
    TimeoutShape(s2);
    var s3 := s2.Timeout().0;
    TimeoutShape(s3);
  }

  /** How `handleSeqNum` can fail: exactly when slicing, or the merge, panics, or the merge never ends. */
  lemma SeqNumFails(r: Endpoint, g: Segment, order: seq<Segment>)
    requires r.Valid() && r.status == Open && multiset(order) == r.earlyArrivalQ
    requires IsValidSeg(g, r.expectedSeqNum, r.windowSize) && g.seqNum <= r.expectedSeqNum
    ensures var (r', data, out) := r.HandleSeqNum(g, order);
            && out == [] && (data == None <==> r'.status != Open)
            && match Trim(g, r.expectedSeqNum, r.windowSize)
               case OutOfBounds => r' == r.(status := Crashed)
               case Bytes(kept) =>
                 match AggregateEarlyArrivals(order, kept, Add(g.seqNum, |kept|), r.windowSize)
                 case Panicked => r' == r.(status := Crashed)
                 case Spinning => r' == r.(status := Hung)
                 case Merged(all, rest) => r' == r.(earlyArrivalQ := multiset(rest)) && data == Some(all)
  {
  }

  /** `handleSegText`, whatever the length: what fits is stored and acknowledged; a full buffer takes nothing and
      answers nothing. */
  lemma SegTextCut(r: Endpoint, data: seq<Byte>)
    requires r.Valid() && r.expectedSeqNum + 65535 < TWO32
    ensures var (r', out) := r.HandleSegText(data);
            if |r.pending| == 65535 then r' == r && out == []
            else
              var n := Min(|data|, 65535 - |r.pending|);
              && r' == r.(pending := r.pending + data[..n], expectedSeqNum := r.expectedSeqNum + n, windowSize := 65535 - |r.pending| - n)
              && out == [Segment(r.sndNxt, r'.expectedSeqNum, r'.windowSize, true, [])]
  {
  }

  lemma AckKeepsBooks(s: Endpoint, s': Endpoint, ackNum: U32)
    requires Plain(s) && Books(s) && s.status == Open && s.sndUna <= ackNum <= s.sndNxt
    requires s' == s.(sndUna := ackNum, sndWnd := s'.sndWnd, inflightQ := AckInflight(s.inflightQ, ackNum))
    ensures Plain(s') && Books(s')
  {
    LaidIff(s.log, s.iss + 1, SentPart(s));
    AckInflightExact(s.inflightQ, s.log, s.iss + 1, SentPart(s), s.sndUna, ackNum);
  }

  /** A truthful acknowledgement arrives. */
  lemma SenderAcked(s: Endpoint, s': Endpoint, r: Endpoint, toR: set<Segment>, toS: set<Segment>, g: Segment)
    requires Flow(s, r, toR, toS) && s.status == Open && Truthful(g, r) && s.sndUna <= g.ackNum
    requires s' == s.(sndUna := g.ackNum, sndWnd := g.window, inflightQ := AckInflight(s.inflightQ, g.ackNum))
             || (g.ackNum == s.sndUna && s' == s.(sndWnd := g.window))
    ensures Flow(s', r, toR, toS)
  {
    if s' != s.(sndWnd := g.window) {
      AckKeepsBooks(s, s', g.ackNum);
    }
  }

  // Events at the receiving end.

  /** Events that leave the receive side alone, and only send what is truthful. */
  lemma ReceiverEmits(s: Endpoint, r: Endpoint, r': Endpoint, toR: set<Segment>, toS: set<Segment>, sent: set<Segment>)
    requires Flow(s, r, toR, toS) && AllTruthful(sent, r)
    requires r'.irs == r.irs && r'.delivered == r.delivered && r'.pending == r.pending
    requires r'.expectedSeqNum == r.expectedSeqNum && r'.windowSize == r.windowSize
    requires QueueSent(r', toR)
    requires r'.status == Open && r'.probe.Some? ==> Truthful(r'.probe.value.packet, r)
    ensures Flow(s, r', toR, toS + sent)
  {
  }

  /** Bytes move from the buffer to the application; the right edge moves right. */
  lemma ReceiverReads(s: Endpoint, r: Endpoint, r': Endpoint, toR: set<Segment>, toS: set<Segment>, k: nat)
    requires Flow(s, r, toR, toS) && k <= |r.pending|
    requires r' == r.(delivered := r.delivered + r.pending[..k], pending := r.pending[k..], windowSize := r.windowSize + k)
    ensures Flow(s, r', toR, toS)
  {
    assert r'.delivered + r'.pending == r.delivered + r.pending;
  }

  lemma SegTextShape(r: Endpoint, data: seq<Byte>)
    requires r.Valid() && 0 < |data| <= r.windowSize && r.expectedSeqNum + |data| < TWO32
    ensures var (r', out) := r.HandleSegText(data);
            && r' == r.(pending := r.pending + data, expectedSeqNum := r.expectedSeqNum + |data|,
                        windowSize := r.windowSize - |data|)
            && out == [r'.AckSegment()]
  {
    assert data[..|data|] == data;
  }

  lemma ReceiptGrows(s: Endpoint, r: Endpoint, r': Endpoint, data: seq<Byte>)
    requires Receipt(s, r) && |data| <= r.windowSize && r.expectedSeqNum + |data| <= s.iss + 1 + |s.written|
    requires r.expectedSeqNum + |data| < TWO32
    requires data == Stream(s.written, s.iss + 1, r.expectedSeqNum, r.expectedSeqNum + |data|)
    requires r' == r.(pending := r.pending + data, expectedSeqNum := r.expectedSeqNum + |data|,
                      windowSize := r.windowSize - |data|)
    ensures Receipt(s, r')
  {
    StreamContinues(s.written, s.iss + 1, s.iss + 1, r.expectedSeqNum, data);
    assert r'.delivered + r'.pending == (r.delivered + r.pending) + data;
  }

  /** In-order data that fits is appended. */
  lemma ReceiverTakes(s: Endpoint, r: Endpoint, r': Endpoint, toR: set<Segment>, toS: set<Segment>, data: seq<Byte>)
    requires Flow(s, r, toR, toS) && 0 < |data| <= r.windowSize && r.expectedSeqNum + |data| <= s.sndNxt
    requires data == Stream(s.written, s.iss + 1, r.expectedSeqNum, r.expectedSeqNum + |data|)
    requires Boundary(s.log, r.expectedSeqNum + |data|)
    requires r' == r.(pending := r.pending + data, expectedSeqNum := r.expectedSeqNum + |data|,
                      windowSize := r.windowSize - |data|)
    ensures Flow(s, r', toR, toS + {r'.AckSegment()})
  {
    ReceiptGrows(s, r, r', data);
  }

  // The merge, over the sent stream alone.

  /** The log lays out `sent`, numbered from `base`; no number in reach wraps. */
  ghost predicate Ledger(log: seq<Chunk>, base: U32, sent: seq<Byte>) {
    && base + |sent| + 65535 < TWO32 && Laid(log, base, sent)
    && (forall c :: c in log && c.probe ==> |c.payload| == 1)
  }

  /** A segment of the log never straddles a boundary, and fits when it starts there. */
  lemma AlignedHead(seg: Segment, at: int, wnd: nat, log: seq<Chunk>, base: U32, sent: seq<Byte>)
    requires Ledger(log, base, sent) && OnLog(log, seg) && seg.payload != []
    requires 0 < wnd && Boundary(log, at) && InEdge(log, at + wnd)
    ensures var n := |seg.payload|;
            && base <= seg.seqNum && seg.seqNum + n <= base + |sent|
            && (seg.seqNum + n <= at || at <= seg.seqNum)
            && (seg.seqNum == at ==> n <= wnd && Boundary(log, at + n))
    ensures Carries(seg, sent, base)
  {
    var c := Chunk(seg.seqNum, seg.payload, Chunk(seg.seqNum, seg.payload, false) !in log);
    LaidIff(log, base, sent);
    PartitionMember(log, base, sent, c);
  }

  ghost predicate AlignedOutcome(m: Merge, queue: seq<Segment>, at: int, wnd: nat, len: nat, log: seq<Chunk>, end: int) {
    match m
    case Merged(data, rest) =>
      len <= |data| && at + (|data| - len) <= end && Boundary(log, at + (|data| - len))
    case Spinning => false
    case Panicked => exists g :: g in queue && NearEdge(g, at, wnd)
  }

  /** A queued segment that ends at or above `at`, less than its own length before the right edge. */
  ghost predicate NearEdge(g: Segment, at: int, wnd: nat) {
    at <= g.seqNum + |g.payload| <= at + wnd < g.seqNum + |g.payload| + |g.payload|
  }

  lemma NearEdgeWidens(queue: seq<Segment>, queue': seq<Segment>, at: int, wnd: nat, n: nat)
    requires n <= wnd && (forall g :: g in queue' ==> g in queue)
    requires exists g :: g in queue' && NearEdge(g, at + n, wnd - n)
    ensures exists g :: g in queue && NearEdge(g, at, wnd)
  {
    var g :| g in queue' && NearEdge(g, at + n, wnd - n);
    assert g in queue && NearEdge(g, at, wnd);
  }

  /** The early arrivals that can be merged lie on chunk boundaries, so the loop never has to cut one
      and never spins; it can only trip over a stale copy close to the right edge. */
  lemma {:induction false} AggregateAligned(queue: seq<Segment>, data: seq<Byte>, at: int, wnd: nat, log: seq<Chunk>, base: U32, sent: seq<Byte>)
    requires 0 < wnd && Ledger(log, base, sent) && base <= at <= base + |sent|
    requires forall g :: g in queue ==> OnLog(log, g)
    requires Boundary(log, at) && InEdge(log, at + wnd)
    ensures AlignedOutcome(Aggregate(queue, data, at, wnd), queue, at, wnd, |data|, log, base + |sent|)
    decreases |queue|
  {
    if queue != [] {
      var seg := queue[0];
      var n := |seg.payload|;
      if n > 0 {
        AlignedHead(seg, at, wnd, log, base, sent);
      }
      WholeHeadTurn(queue, data, at, wnd);
      if seg.seqNum + n == at && n > wnd {
        assert NearEdge(seg, at, wnd);
      } else if seg.seqNum + n <= at {
        AggregateAligned(queue[1..], data, at, wnd, log, base, sent);
      } else if seg.seqNum == at && n < wnd {
        AggregateAligned(queue[1..], data + seg.payload, at + n, wnd - n, log, base, sent);
        if Aggregate(queue, data, at, wnd).Panicked? {
          NearEdgeWidens(queue, queue[1..], at, wnd, n);
        }
      }
    }
  }

  /** An accepted segment that does not start beyond `nxt` starts at it, and is kept whole: no segment
      of the log has the boundary `nxt` inside it, and all data fits the window. */
  lemma AcceptedWhole(g: Segment, nxt: U32, wnd: Window, log: seq<Chunk>, base: U32, sent: seq<Byte>)
    requires Ledger(log, base, sent) && OnLog(log, g) && Boundary(log, nxt) && InEdge(log, nxt + wnd)
    requires base <= nxt <= base + |sent| && IsValidSeg(g, nxt, wnd) && g.seqNum <= nxt
    ensures g.seqNum == nxt && nxt + |g.payload| <= base + |sent| && Boundary(log, nxt + |g.payload|)
    ensures |g.payload| <= wnd && Trim(g, nxt, wnd) == Bytes(g.payload) && IsPiece(g.payload, sent, base, nxt)
  {
    if g.payload != [] {
      AlignedHead(g, nxt, wnd, log, base, sent);
    }
    assert g.payload[0..|g.payload|] == g.payload;
  }

  /** A merge that ends extends the data along `sent` from `nxt` to a boundary, within the window. */
  ghost predicate MergeOutcome(m: Merge, order: seq<Segment>, nxt: int, wnd: nat, log: seq<Chunk>, base: U32, sent: seq<Byte>) {
    match m
    case Spinning => false
    case Panicked => exists e :: e in order && NearEdge(e, nxt, wnd)
    case Merged(data, rest) =>
      |data| <= wnd && IsPiece(data, sent, base, nxt) && Boundary(log, nxt + |data|) && forall e :: e in rest ==> e in order
  }

  lemma MergeAfter(data: seq<Byte>, order: seq<Segment>, nxt: U32, wnd: nat, log: seq<Chunk>, base: U32, sent: seq<Byte>)
    requires Ledger(log, base, sent) && |data| <= wnd && IsPiece(data, sent, base, nxt)
    requires Boundary(log, nxt + |data|) && InEdge(log, nxt + wnd)
    requires AllCarry(order, sent, base) && forall e :: e in order ==> OnLog(log, e)
    ensures MergeOutcome(AggregateEarlyArrivals(order, data, nxt + |data|, wnd), order, nxt, wnd, log, base, sent)
  {
    var n := |data|;
    if n < wnd {
      AggregateSound(order, data, nxt, wnd - n, sent, base);
      AggregateAligned(order, data, nxt + n, wnd - n, log, base, sent);
      if Aggregate(order, data, nxt + n, wnd - n).Panicked? {
        NearEdgeWidens(order, order, nxt, wnd, n);
      }
    }
  }

  // `handleSeqNum` and a whole arrival, between the two ends.

  lemma SentCarries(s: Endpoint, g: Segment)
    requires Plain(s) && Books(s) && SentBy(g, s)
    ensures Carries(g, SentPart(s), s.iss + 1)
  {
    if g.payload != [] {
      var c := Chunk(g.seqNum, g.payload, Chunk(g.seqNum, g.payload, false) !in s.log);
      LaidIff(s.log, s.iss + 1, SentPart(s));
      PartitionMember(s.log, s.iss + 1, SentPart(s), c);
    }
  }

  /** What the early-arrival queue holds, the merge may rely on. */
  lemma QueueCarries(s: Endpoint, r: Endpoint, toR: set<Segment>, order: seq<Segment>)
    requires Plain(s) && Books(s) && AllSentBy(toR, s) && QueueSent(r, toR) && multiset(order) == r.earlyArrivalQ
    ensures AllCarry(order, SentPart(s), s.iss + 1)
    ensures forall g :: g in order ==> g in r.earlyArrivalQ && g in toR && OnLog(s.log, g)
  {
    forall g | g in order ensures g in r.earlyArrivalQ && g in toR && OnLog(s.log, g) && Carries(g, SentPart(s), s.iss + 1) {
      assert g in multiset(order);
      SentCarries(s, g);
    }
  }

  /** Data that continues what `r` has: the next bytes of the stream, up to a boundary, within the window. */
  ghost predicate Continues(data: seq<Byte>, s: Endpoint, r: Endpoint)
    requires Plain(s) && Receipt(s, r)
  {
    && |data| <= r.windowSize && r.expectedSeqNum + |data| <= s.sndNxt
    && data == Stream(s.written, s.iss + 1, r.expectedSeqNum, r.expectedSeqNum + |data|)
    && Boundary(s.log, r.expectedSeqNum + |data|)
  }

  lemma PieceContinues(s: Endpoint, r: Endpoint, data: seq<Byte>)
    requires Plain(s) && Receipt(s, r) && r.expectedSeqNum <= s.sndNxt
    requires IsPiece(data, SentPart(s), s.iss + 1, r.expectedSeqNum)
    ensures r.expectedSeqNum + |data| <= s.sndNxt
    ensures data == Stream(s.written, s.iss + 1, r.expectedSeqNum, r.expectedSeqNum + |data|)
  {
  }

  /** The three ways through `handleSeqNum` that a reachable state has. */
  lemma SeqNumShape(r: Endpoint, g: Segment, order: seq<Segment>)
    requires r.Valid() && multiset(order) == r.earlyArrivalQ
    ensures !IsValidSeg(g, r.expectedSeqNum, r.windowSize) ==> r.HandleSeqNum(g, order) == (r, None, [r.AckSegment()])
    ensures IsValidSeg(g, r.expectedSeqNum, r.windowSize) && g.seqNum > r.expectedSeqNum ==>
              r.HandleSeqNum(g, order) == (r.(earlyArrivalQ := r.earlyArrivalQ + multiset{g}), Some([]), [r.AckSegment()])
    ensures IsValidSeg(g, r.expectedSeqNum, r.windowSize) && g.seqNum <= r.expectedSeqNum
            && Trim(g, r.expectedSeqNum, r.windowSize) == Bytes(g.payload) && |g.payload| <= r.windowSize ==>
              r.HandleSeqNum(g, order)
              == match AggregateEarlyArrivals(order, g.payload, Add(g.seqNum, |g.payload|), r.windowSize)
                 case Panicked => (r.(status := Crashed), None, [])
                 case Spinning => (r.(status := Hung), None, [])
                 case Merged(data', rest) => (r.(earlyArrivalQ := multiset(rest)), Some(data'), [])
  {
  }

  /** `handleSeqNum` in a reachable state: the data it hands on continues the stream, fits the window
      and ends on a boundary; it never hangs; and it crashes only over a stale early arrival. */
  ghost predicate SeqNumOutcome(s: Endpoint, r: Endpoint, toR: set<Segment>, turn: (Endpoint, Option<seq<Byte>>, seq<Segment>))
    requires Plain(s) && Receipt(s, r)
  {
    var (r', data, out) := turn;
    && r' == r.(status := r'.status, earlyArrivalQ := r'.earlyArrivalQ) && QueueSent(r', toR)
    && (out == [] || out == [r.AckSegment()])
    && r'.status != Hung
    && (r'.status == Crashed ==> exists e :: e in r.earlyArrivalQ && NearEdge(e, r.expectedSeqNum, r.windowSize))
    && (data.Some? ==> r'.status == Open && Continues(data.value, s, r))
  }

  lemma SeqNumInOrder(s: Endpoint, r: Endpoint, toR: set<Segment>, toS: set<Segment>, g: Segment, order: seq<Segment>)
    requires Flow(s, r, toR, toS) && r.Valid() && r.status == Open && g in toR && multiset(order) == r.earlyArrivalQ
    ensures SeqNumOutcome(s, r, toR, r.HandleSeqNum(g, order))
  {
    SeqNumShape(r, g, order);
    assert SentBy(g, s);
    if !IsValidSeg(g, r.expectedSeqNum, r.windowSize) {
    } else if g.seqNum > r.expectedSeqNum {
      assert Continues([], s, r);
    } else {
      MergeInOrder(s, r, toR, g, order);
    }
  }

  /** `MergeOutcome`, in the receiver's terms. */
  ghost predicate InOrder(s: Endpoint, r: Endpoint, toR: set<Segment>, m: Merge)
    requires Plain(s) && Receipt(s, r)
  {
    match m
    case Spinning => false
    case Panicked => exists e :: e in r.earlyArrivalQ && NearEdge(e, r.expectedSeqNum, r.windowSize)
    case Merged(data, rest) => Continues(data, s, r) && QueueSent(r.(earlyArrivalQ := multiset(rest)), toR)
  }

  lemma OutcomeAtReceiver(s: Endpoint, r: Endpoint, toR: set<Segment>, m: Merge, order: seq<Segment>)
    requires Plain(s) && Receipt(s, r) && r.expectedSeqNum <= s.sndNxt && QueueSent(r, toR)
    requires forall e :: e in order ==> e in r.earlyArrivalQ
    requires MergeOutcome(m, order, r.expectedSeqNum, r.windowSize, s.log, s.iss + 1, SentPart(s))
    ensures InOrder(s, r, toR, m)
  {
    if m.Merged? {
      PieceContinues(s, r, m.data);
    }
  }

  lemma MergeInOrder(s: Endpoint, r: Endpoint, toR: set<Segment>, g: Segment, order: seq<Segment>)
    requires Plain(s) && Books(s) && Receipt(s, r) && r.expectedSeqNum <= s.sndNxt
    requires AllSentBy(toR, s) && QueueSent(r, toR) && Boundary(s.log, r.expectedSeqNum) && InEdge(s.log, Edge(r))
    requires SentBy(g, s) && multiset(order) == r.earlyArrivalQ
    requires IsValidSeg(g, r.expectedSeqNum, r.windowSize) && g.seqNum <= r.expectedSeqNum
    ensures Trim(g, r.expectedSeqNum, r.windowSize) == Bytes(g.payload) && |g.payload| <= r.windowSize
    ensures Add(g.seqNum, |g.payload|) == r.expectedSeqNum + |g.payload|
    ensures InOrder(s, r, toR, AggregateEarlyArrivals(order, g.payload, r.expectedSeqNum + |g.payload|, r.windowSize))
  {
    AcceptedWhole(g, r.expectedSeqNum, r.windowSize, s.log, s.iss + 1, SentPart(s));
    MergeAtReceiver(s, r, toR, g.payload, order);
  }

  lemma MergeAtReceiver(s: Endpoint, r: Endpoint, toR: set<Segment>, data: seq<Byte>, order: seq<Segment>)
    requires Plain(s) && Books(s) && Receipt(s, r) && AllSentBy(toR, s) && QueueSent(r, toR) && InEdge(s.log, Edge(r))
    requires multiset(order) == r.earlyArrivalQ && |data| <= r.windowSize && r.expectedSeqNum + |data| <= s.sndNxt
    requires IsPiece(data, SentPart(s), s.iss + 1, r.expectedSeqNum) && Boundary(s.log, r.expectedSeqNum + |data|)
    ensures InOrder(s, r, toR, AggregateEarlyArrivals(order, data, r.expectedSeqNum + |data|, r.windowSize))
  {
    QueueCarries(s, r, toR, order);
    MergeAfter(data, order, r.expectedSeqNum, r.windowSize, s.log, s.iss + 1, SentPart(s));
    OutcomeAtReceiver(s, r, toR, AggregateEarlyArrivals(order, data, r.expectedSeqNum + |data|, r.windowSize), order);
  }

  // One event, seen from each of the two flows.

  /** Events that leave the send side alone and send bare acknowledgements. */
  lemma SenderUnmoved(s: Endpoint, s': Endpoint, r: Endpoint, toR: set<Segment>, toS: set<Segment>, sent: set<Segment>)
    requires Flow(s, r, toR, toS)
    requires s'.iss == s.iss && s'.written == s.written && s'.sndUna == s.sndUna && s'.sndNxt == s.sndNxt
    requires s'.sndWnd == s.sndWnd && s'.inflightQ == s.inflightQ && s'.probe == s.probe && s'.log == s.log
    requires s'.status == s.status || s'.status == Crashed || s'.status == Hung
    requires s.status == Open
    requires forall g :: g in sent ==> g.payload == [] && g.seqNum == s.sndNxt
    ensures Flow(s', r, toR + sent, toS)
  {
  }

  /** The parts of a whole arrival, named. */
  lemma ReceiveParts(e: Endpoint, g: Segment, order: seq<Segment>)
    requires e.Valid() && e.status == Open && multiset(order) == e.earlyArrivalQ
    ensures var (e1, data, out1) := e.HandleSeqNum(g, order);
            var (e2, ok, out2) := e1.HandleAck(g);
            e.Receive(g, order)
            == if data.None? || !g.isAck then (e1, out1)
               else if !ok || data.value == [] then (e2, out1 + out2)
               else (e2.HandleSegText(data.value).0, out1 + out2 + e2.HandleSegText(data.value).1)
  {
  }

  /** A segment of the stream arrives in order, with nothing queued. */
  lemma PlainArrival(r: Endpoint, g: Segment)
    requires r.Valid() && r.status == Open && r.earlyArrivalQ == multiset{} && g.isAck
    requires g.seqNum == r.expectedSeqNum && |g.payload| <= r.windowSize && (r.windowSize == 0 || r.expectedSeqNum + 65535 < TWO32)
    requires Sub(r.sndUna, BUFFER_CAPACITY) <= g.ackNum <= r.sndNxt
    ensures var (r2, ok, out) := r.HandleAck(g);
            r.Receive(g, []) == if g.payload == [] then (r2, out) else (r2.HandleSegText(g.payload).0, out + r2.HandleSegText(g.payload).1)
  {
    assert multiset([]) == r.earlyArrivalQ;
    assert g.payload[0..|g.payload|] == g.payload;
    SeqNumShape(r, g, []);
    ReceiveParts(r, g, []);
    assert r.(earlyArrivalQ := multiset([])) == r;
    assert r.HandleSeqNum(g, []) == (r, Some(g.payload), []);
    assert [] + r.HandleAck(g).2 == r.HandleAck(g).2;
  }

  /** An acknowledgement that brings a window arrives with nothing queued. */
  lemma WindowTold(a: Endpoint, g: Segment)
    requires a.Valid() && NoWrap(a) && a.status == Open && a.earlyArrivalQ == multiset{}
    requires a.windowSize == 0 || a.expectedSeqNum + 65535 < TWO32
    requires g.isAck && g.payload == [] && g.seqNum == a.expectedSeqNum && a.sndUna <= g.ackNum <= a.sndNxt
    ensures multiset([]) == a.earlyArrivalQ
    ensures var a' := a.Receive(g, []).0; a' == a.(sndUna := g.ackNum, sndWnd := g.window, inflightQ := a'.inflightQ)
  {
    PlainArrival(a, g);
    AckShape(a, g);
  }

  lemma SeqNumSends(e: Endpoint, g: Segment, order: seq<Segment>)
    requires e.Valid() && multiset(order) == e.earlyArrivalQ
    ensures var (e1, data, out) := e.HandleSeqNum(g, order);
            && (out == [] || out == [e.AckSegment()])
            && e1 == e.(status := e1.status, earlyArrivalQ := e1.earlyArrivalQ)
            && (e1.status == e.status || e1.status == Crashed || e1.status == Hung)
            && (data.Some? ==> e1.status == e.status)
  {
  }

  lemma SegTextSends(e: Endpoint, data: seq<Byte>)
    requires e.Valid()
    ensures var (e', out) := e.HandleSegText(data);
            && e' == e.(pending := e'.pending, expectedSeqNum := e'.expectedSeqNum, windowSize := e'.windowSize)
            && forall g :: g in out ==> g.payload == [] && g.seqNum == e.sndNxt
  {
  }

  lemma SentConcat(base: set<Segment>, a: seq<Segment>, b: seq<Segment>)
    ensures base + Sent(a) + Sent(b) == base + Sent(a + b)
  {
    assert Sent(a + b) == Sent(a) + Sent(b);
  }

  lemma AckAtSender(s: Endpoint, r: Endpoint, toR: set<Segment>, toS: set<Segment>, g: Segment)
    requires Flow(s, r, toR, toS) && s.Valid() && s.status == Open && g in toS
    ensures var (s', ok, out) := s.HandleAck(g); s'.status == Open && Flow(s', r, toR + Sent(out), toS)
  {
    assert Truthful(g, r);
    AckShape(s, g);
    var (s', ok, out) := s.HandleAck(g);
    if s' != s {
      SenderAcked(s, s', r, toR, toS, g);
    }
    AckSends(s, g);
    SenderUnmoved(s', s', r, toR, toS, Sent(out));
  }

  lemma ArrivalAtSender(s: Endpoint, r: Endpoint, toR: set<Segment>, toS: set<Segment>, g: Segment, order: seq<Segment>)
    requires Flow(s, r, toR, toS) && s.Valid() && Enabled(s, Arrival(g, order), toS)
    ensures var (s', out) := s.Receive(g, order); Flow(s', r, toR + Sent(out), toS)
  {
    ReceiveParts(s, g, order);
    SeqNumSends(s, g, order);
    var (s1, data, out1) := s.HandleSeqNum(g, order);
    var toR1 := toR + Sent(out1);
    SenderUnmoved(s, s1, r, toR, toS, Sent(out1));
    if data.Some? && g.isAck {
      AckAtSender(s1, r, toR1, toS, g);
      var (s2, ok, out2) := s1.HandleAck(g);
      SentConcat(toR, out1, out2);
      if ok && data.value != [] {
        SegTextSends(s2, data.value);
        var (s3, out3) := s2.HandleSegText(data.value);
        SenderUnmoved(s2, s3, r, toR1 + Sent(out2), toS, Sent(out3));
        SentConcat(toR, out1 + out2, out3);
      }
    }
  }

  lemma ProbeShape(s: Endpoint)
    requires s.Valid() && NoWrap(s) && s.status == Open && s.probe.Some?
    ensures var (s', out) := s.ProbeTurn();
            var packet := s.probe.value.packet;
            if s.sndWnd == 0 && s.sndUna == s.probe.value.oldUna then
              && out == [packet]
              && s' == s.(log := if s.sndNxt == packet.seqNum then s.log + [Chunk(s.sndNxt, packet.payload, true)] else s.log,
                          sndNxt := packet.seqNum + 1)
            else out == [] && s' == s.(probe := None)
  {
  }

  lemma ProbeDropped(s: Endpoint, s': Endpoint, r: Endpoint, toR: set<Segment>, toS: set<Segment>)
    requires Flow(s, r, toR, toS) && s' == s.(probe := None)
    ensures Flow(s', r, toR, toS)
  {
  }

  lemma TimeoutShape(s: Endpoint)
    requires s.Valid() && NoWrap(s) && s.status == Open
    ensures var (s', out) := s.Timeout();
            if s.inflightQ == [] then s' == s && out == []
            else if s.inflightQ[0].counter >= MAX_RETRANSMISSIONS then
              && out == []
              && s' == s.(status := GaveUp, inflightQ := [], written := s.written[..s.sndNxt - (s.iss + 1)], sndUna := s.sndNxt)
            else
              var packet := s.inflightQ[0].seg.(ackNum := s.expectedSeqNum, window := s.windowSize);
              && out == [packet]
              && s' == s.(inflightQ := [s.inflightQ[0].(seg := packet, counter := s.inflightQ[0].counter + 1)] + s.inflightQ[1..])
  {
  }

  lemma SendingAtSender(s: Endpoint, r: Endpoint, toR: set<Segment>, toS: set<Segment>)
    requires Flow(s, r, toR, toS) && s.Valid() && Enabled(s, SendLoop, toS)
    ensures var (s', out) := s.SendTurn(); Flow(s', r, toR + Sent(out), toS)
  {
    SendShape(s);
    var (s', out) := s.SendTurn();
    SendAdvances(s, s', out);
    AdvanceKeepsFlow(s, s', r, toR, toS, Sent(out));
  }

  lemma ProbingAtSender(s: Endpoint, r: Endpoint, toR: set<Segment>, toS: set<Segment>)
    requires Flow(s, r, toR, toS) && s.Valid() && Enabled(s, ProbeTimer, toS)
    ensures var (s', out) := s.ProbeTurn(); Flow(s', r, toR + Sent(out), toS)
  {
    ProbeShape(s);
    var (s', out) := s.ProbeTurn();
    if out != [] {
      ProbeAdvances(s, s', s.probe.value.packet);
      AdvanceKeepsFlow(s, s', r, toR, toS, Sent(out));
    } else {
      ProbeDropped(s, s', r, toR, toS);
      assert toR + Sent([]) == toR;
    }
  }

  lemma TimeoutAtSender(s: Endpoint, r: Endpoint, toR: set<Segment>, toS: set<Segment>)
    requires Flow(s, r, toR, toS) && s.Valid() && s.status == Open
    ensures var (s', out) := s.Timeout(); Flow(s', r, toR + Sent(out), toS)
  {
    TimeoutShape(s);
    var (s', out) := s.Timeout();
    if out != [] {
      RetransmitAdvances(s, s', out[0]);
      AdvanceKeepsFlow(s, s', r, toR, toS, Sent(out));
    } else {
      assert toR + Sent([]) == toR;
      if s'.status == GaveUp {
        SenderGivesUp(s, s', r, toR, toS);
      }
    }
  }

  lemma WriteAtSender(s: Endpoint, r: Endpoint, toR: set<Segment>, toS: set<Segment>, data: seq<Byte>)
    requires Flow(s, r, toR, toS) && s.Valid() && Enabled(s, AppWrite(data), toS)
    ensures Flow(s.Write(data).0, r, toR, toS)
  {
    WriteShape(s, data);
    ValidIsPlain(s.Write(data).0);
    SenderWrites(s, s.Write(data).0, r, toR, toS, data[..s.Write(data).1]);
  }

  lemma SenderStep(s: Endpoint, r: Endpoint, toR: set<Segment>, toS: set<Segment>, ev: Event)
    requires Flow(s, r, toR, toS) && s.Valid() && Enabled(s, ev, toS)
    ensures var (s', out) := Effect(s, ev, toS); Flow(s', r, toR + Sent(out), toS)
  {
    assert toR + Sent([]) == toR;
    match ev {
      case AppWrite(data) => WriteAtSender(s, r, toR, toS, data);
      case AppRead(n) => SenderUnmoved(s, s.Read(n).0, r, toR, toS, {});
      case SendLoop => SendingAtSender(s, r, toR, toS);
      case ProbeTimer => ProbingAtSender(s, r, toR, toS);
      case RetransTimer => TimeoutAtSender(s, r, toR, toS);
      case Arrival(g, order) => ArrivalAtSender(s, r, toR, toS, g, order);
    }
  }

  lemma AckAtReceiver(s: Endpoint, r: Endpoint, toR: set<Segment>, toS: set<Segment>, g: Segment)
    requires Flow(s, r, toR, toS) && r.Valid()
    ensures var (r', ok, out) := r.HandleAck(g); Flow(s, r', toR, toS + Sent(out))
  {
    AckSends(r, g);
    var (r', ok, out) := r.HandleAck(g);
    ReceiverEmits(s, r, r', toR, toS, Sent(out));
  }

  lemma SeqNumAtReceiver(s: Endpoint, r: Endpoint, toR: set<Segment>, toS: set<Segment>, g: Segment, order: seq<Segment>)
    requires Flow(s, r, toR, toS) && r.Valid() && Enabled(r, Arrival(g, order), toR)
    ensures var (r', data, out) := r.HandleSeqNum(g, order);
            Flow(s, r', toR, toS + Sent(out)) && (data.Some? ==> Continues(data.value, s, r'))
  {
    SeqNumInOrder(s, r, toR, toS, g, order);
    var (r', data, out) := r.HandleSeqNum(g, order);
    ReceiverEmits(s, r, r', toR, toS, Sent(out));
  }

  lemma AckBeforeText(s: Endpoint, r: Endpoint, toR: set<Segment>, toS: set<Segment>, g: Segment, data: seq<Byte>)
    requires Flow(s, r, toR, toS) && r.Valid() && Continues(data, s, r)
    ensures var (r', ok, out) := r.HandleAck(g); Flow(s, r', toR, toS + Sent(out)) && Continues(data, s, r')
  {
    AckAtReceiver(s, r, toR, toS, g);
    AckSends(r, g);
  }

  lemma ArrivalAtReceiver(s: Endpoint, r: Endpoint, toR: set<Segment>, toS: set<Segment>, g: Segment, order: seq<Segment>)
    requires Flow(s, r, toR, toS) && r.Valid() && Enabled(r, Arrival(g, order), toR)
    ensures var (r', out) := r.Receive(g, order); Flow(s, r', toR, toS + Sent(out))
  {
    SeqNumAtReceiver(s, r, toR, toS, g, order);
    ReceiveParts(r, g, order);
    var (r1, data, out1) := r.HandleSeqNum(g, order);
    if data.Some? && g.isAck {
      AckBeforeText(s, r1, toR, toS + Sent(out1), g, data.value);
      var (r2, ok, out2) := r1.HandleAck(g);
      SentConcat(toS, out1, out2);
      if ok && data.value != [] {
        TextAtReceiver(s, r2, toR, toS + Sent(out1 + out2), data.value);
        SentConcat(toS, out1 + out2, r2.HandleSegText(data.value).1);
      }
    }
  }

  lemma TextAtReceiver(s: Endpoint, r: Endpoint, toR: set<Segment>, toS: set<Segment>, data: seq<Byte>)
    requires Flow(s, r, toR, toS) && r.Valid() && data != [] && Continues(data, s, r)
    ensures var (r', out) := r.HandleSegText(data); Flow(s, r', toR, toS + Sent(out))
  {
    SegTextShape(r, data);
    var (r', out) := r.HandleSegText(data);
    ReceiverTakes(s, r, r', toR, toS, data);
    assert Sent(out) == {r'.AckSegment()};
  }

  /** `handleAck` leaves the receive side alone. */
  lemma AckSends(e: Endpoint, g: Segment)
    requires e.Valid()
    ensures var (e', ok, out) := e.HandleAck(g);
            && e' == e.(sndUna := e'.sndUna, sndWnd := e'.sndWnd, inflightQ := e'.inflightQ)
            && (out == [] || out == [e.AckSegment()])
  {
  }

  /** Data, probes and retransmissions carry the acknowledgement and the window of now, or of when the
      probe was formed. */
  lemma SendingAtReceiver(s: Endpoint, r: Endpoint, r': Endpoint, toR: set<Segment>, toS: set<Segment>, out: seq<Segment>)
    requires Flow(s, r, toR, toS) && r.status == Open
    requires r' == r.(status := r'.status, written := r'.written, sndUna := r'.sndUna, sndNxt := r'.sndNxt,
                      inflightQ := r'.inflightQ, probe := r'.probe, log := r'.log)
    requires |out| <= 1
    requires out != [] ==> (out[0].ackNum == r.expectedSeqNum && out[0].window == r.windowSize)
                           || (r.probe.Some? && out[0] == r.probe.value.packet)
    requires r'.probe.Some? ==> r'.probe == r.probe
                                || (r'.probe.value.packet.ackNum == r.expectedSeqNum && r'.probe.value.packet.window == r.windowSize)
    ensures Flow(s, r', toR, toS + Sent(out))
  {
    ReceiverEmits(s, r, r', toR, toS, Sent(out));
  }

  lemma ReceiverStep(s: Endpoint, r: Endpoint, toR: set<Segment>, toS: set<Segment>, ev: Event)
    requires Flow(s, r, toR, toS) && r.Valid() && NoWrap(r) && Enabled(r, ev, toR)
    ensures var (r', out) := Effect(r, ev, toR); Flow(s, r', toR, toS + Sent(out))
  {
    var (r', out) := Effect(r, ev, toR);
    assert Sent([]) == {};
    match ev {
      case AppWrite(data) =>
        ReceiverEmits(s, r, r', toR, toS, {});
      case AppRead(n) =>
        ReceiverReads(s, r, r', toR, toS, Min(n, |r.pending|));
      case SendLoop =>
        SendShape(r);
        SendingAtReceiver(s, r, r', toR, toS, out);
      case ProbeTimer =>
        ProbeShape(r);
        SendingAtReceiver(s, r, r', toR, toS, out);
      case RetransTimer =>
        TimeoutShape(r);
        SendingAtReceiver(s, r, r', toR, toS, out);
      case Arrival(g, order) =>
        ArrivalAtReceiver(s, r, toR, toS, g, order);
    }
  }

  /** Every step keeps the invariant. */
  lemma StepKeepsInv(s: System, s': System, atA: bool, ev: Event)
    requires Inv(s) && Step(s, s', atA, ev)
    ensures Inv(s')
  {
    if atA {
      SenderStep(s.a, s.b, s.toB, s.toA, ev);
      ReceiverStep(s.b, s.a, s.toA, s.toB, ev);
    } else {
      SenderStep(s.b, s.a, s.toA, s.toB, ev);
      ReceiverStep(s.a, s.b, s.toB, s.toA, ev);
    }
  }
}
