/** One established connection end as a value: what each event does to it and what it sends.
    The histories `written`, `delivered` and `log` say what the application and the wire have seen;
    `VTCPConn` in Conn.dfy is proved to take exactly these steps. */
module Endpoints {
  import opened Arith
  import opened Segments
  import opened Reassembly
  import opened Retransmission

  /** `Crashed`: a Go run-time panic. `Hung`: the receiving goroutine loops for ever. `GaveUp`: torn
      down after too many retransmissions. */
  datatype Status = Open | Crashed | Hung | GaveUp

  /** A zero-window probe that the send loop has formed, and `sndUna` as it was then. */
  datatype Probe = Probe(oldUna: U32, packet: Segment)

  datatype Endpoint = Endpoint(
    iss: U32, irs: U32, status: Status,
    written: seq<Byte>, sndUna: U32, sndNxt: U32, sndWnd: Window,
    inflightQ: seq<Flight>, probe: Option<Probe>, log: seq<Chunk>,
    delivered: seq<Byte>, pending: seq<Byte>, expectedSeqNum: U32, windowSize: Window,
    earlyArrivalQ: multiset<Segment>)
  {
    /** Distance from the initial sequence number, which survives a wrap. */
    function Off(x: U32): nat { Sub(x, iss) }

    function Lbw(): U32
      requires |written| + 1 < TWO32
    {
      Add(iss, 1 + |written|)
    }

    /** What one end alone keeps, wrap or no wrap. */
    ghost predicate Valid() {
      && |written| + 1 < TWO32
      && 1 <= Off(sndUna) <= Off(sndNxt) <= 1 + |written| <= Off(sndUna) + BUFFER_CAPACITY
      && |pending| <= BUFFER_CAPACITY
      && windowSize == BUFFER_CAPACITY - |pending|
      && (probe.Some? && status == Open ==>
            var packet := probe.value.packet;
            && |packet.payload| == 1 && 1 <= Off(packet.seqNum) <= |written|
            && (sndNxt == packet.seqNum || sndNxt == Add(packet.seqNum, 1)))
    }

    function AckSegment(): Segment { Segment(sndNxt, expectedSeqNum, windowSize, true, []) }

    function SendBufFreeSpace(): nat
      requires |written| + 1 < TWO32
    {
      var used := Sub(Lbw(), sndUna);
      if used <= BUFFER_CAPACITY then BUFFER_CAPACITY - used else 0
    }

    function NumBytesNotSent(): U32
      requires |written| + 1 < TWO32
    {
      Sub(Lbw(), sndNxt)
    }

    function UsableSendWindow(): U32 {
      var edge := Add(sndUna, sndWnd);
      if edge > sndNxt then Sub(edge, sndNxt) else 0
    }

    lemma Distances()
      requires Valid()
      ensures NumBytesNotSent() == 1 + |written| - Off(sndNxt)
      ensures SendBufFreeSpace() == BUFFER_CAPACITY - (1 + |written| - Off(sndUna))
    {
    }

    /** `writeToSendBuf`, once there is room. */
    function Write(data: seq<Byte>): (r: (Endpoint, nat))
      requires Valid() && |written| + |data| + 1 < TWO32
      ensures r.0.Valid()
    {
      Distances();
      var n := Min(SendBufFreeSpace(), |data|);
      (this.(written := written + data[..n]), n)
    }

    /** `VRead` with a buffer of `n` bytes, once there is something to read. */
    function Read(n: nat): (r: (Endpoint, seq<Byte>))
      requires Valid()
      ensures r.0.Valid()
    {
      var k := Min(n, |pending|);
      (this.(delivered := delivered + pending[..k], pending := pending[k..], windowSize := windowSize + k),
       pending[..k])
    }

    /** A turn of the send loop that found something unsent. */
    function SendTurn(): (r: (Endpoint, seq<Segment>))
      requires Valid() && status == Open && probe.None? && NumBytesNotSent() > 0
      ensures r.0.Valid()
    {
      Distances();
      var at := Off(sndNxt) - 1;
      if sndWnd == 0 then
        (this.(probe := Some(Probe(sndUna, Segment(sndNxt, expectedSeqNum, windowSize, true, [written[at]])))), [])
      else
        var n := Min(MSS, Min(NumBytesNotSent(), UsableSendWindow()));
        if n == 0 then (this, [])
        else
          var payload := written[at..at + n];
          var packet := Segment(sndNxt, expectedSeqNum, windowSize, true, payload);
          (this.(inflightQ := inflightQ + [Flight(packet, n, 0)],
                 log := log + [Chunk(sndNxt, payload, false)],
                 sndNxt := Add(sndNxt, n)),
           [packet])
    }

    /** The probe timer: send the formed probe as long as nothing has changed, else leave the loop. */
    function ProbeTurn(): (r: (Endpoint, seq<Segment>))
      requires Valid() && status == Open && probe.Some?
      ensures r.0.Valid()
    {
      var packet := probe.value.packet;
      if sndWnd == 0 && sndUna == probe.value.oldUna then
        (this.(log := if sndNxt == packet.seqNum then log + [Chunk(sndNxt, packet.payload, true)] else log,
               sndNxt := Add(packet.seqNum, 1)),
         [packet])
      else (this.(probe := None), [])
    }

    /** The retransmission timer. */
    function Timeout(): (r: (Endpoint, seq<Segment>))
      requires Valid() && status == Open
      ensures r.0.Valid()
    {
      if inflightQ == [] then (this, [])
      else
        var front := inflightQ[0];
        if front.counter >= MAX_RETRANSMISSIONS then
          (this.(status := GaveUp, inflightQ := [], written := written[..Off(sndNxt) - 1], sndUna := sndNxt), [])
        else
          var packet := front.seg.(ackNum := expectedSeqNum, window := windowSize);
          (this.(inflightQ := [front.(seg := packet, counter := front.counter + 1)] + inflightQ[1..]), [packet])
    }

    /** `handleSeqNum`, with the order in which the heap will surface the early arrivals. The second
        part is the data to hand on; `None` when the segment is dropped here. */
    function HandleSeqNum(g: Segment, order: seq<Segment>): (r: (Endpoint, Option<seq<Byte>>, seq<Segment>))
      requires Valid() && multiset(order) == earlyArrivalQ
      ensures r.0.Valid() && r.0 == this.(status := r.0.status, earlyArrivalQ := r.0.earlyArrivalQ)
      ensures r.1.Some? ==> r.0.status == status
    {
      if !IsValidSeg(g, expectedSeqNum, windowSize) then (this, None, [AckSegment()])
      else if g.seqNum > expectedSeqNum then
        (this.(earlyArrivalQ := earlyArrivalQ + multiset{g}), Some([]), [AckSegment()])
      else
        match Trim(g, expectedSeqNum, windowSize)
        case OutOfBounds => (this.(status := Crashed), None, [])
        case Bytes(data) =>
          match AggregateEarlyArrivals(order, data, Add(g.seqNum, |data|), windowSize)
          case Panicked => (this.(status := Crashed), None, [])
          case Spinning => (this.(status := Hung), None, [])
          case Merged(data', rest) => (this.(earlyArrivalQ := multiset(rest)), Some(data'), [])
    }

    /** `handleAck`; the second part is false when the segment is to be dropped. */
    function HandleAck(g: Segment): (r: (Endpoint, bool, seq<Segment>))
      requires Valid()
      ensures r.0.Valid()
    {
      if Sub(sndUna, BUFFER_CAPACITY) > g.ackNum || sndNxt < g.ackNum then (this, false, [AckSegment()])
      else if sndUna < g.ackNum && g.ackNum <= sndNxt then
        (this.(sndUna := g.ackNum, sndWnd := g.window, inflightQ := AckInflight(inflightQ, g.ackNum)), true, [])
      else if sndUna == g.ackNum then (this.(sndWnd := g.window), true, [])
      else (this, true, [])
    }

    /** `handleSegText`. */
    function HandleSegText(data: seq<Byte>): (r: (Endpoint, seq<Segment>))
      requires Valid()
      ensures r.0.Valid()
    {
      if |pending| == BUFFER_CAPACITY then (this, [])
      else
        var n := Min(|data|, BUFFER_CAPACITY - |pending|);
        var e := this.(pending := pending + data[..n], expectedSeqNum := Add(expectedSeqNum, n),
                       windowSize := BUFFER_CAPACITY - (|pending| + n));
        (e, [e.AckSegment()])
    }

    /** Nothing makes `stateFuncEstablished` return before it looks at the FIN. */
    predicate ReachesFin(g: Segment, order: seq<Segment>)
      requires Valid() && status == Open && multiset(order) == earlyArrivalQ
    {
      var (e, data, out) := HandleSeqNum(g, order);
      data.Some? && g.isAck && e.HandleAck(g).1 && (data.value == [] || |pending| < BUFFER_CAPACITY)
    }

    /** `stateFuncEstablished` on a segment without FIN. */
    function Receive(g: Segment, order: seq<Segment>): (r: (Endpoint, seq<Segment>))
      requires Valid() && status == Open && multiset(order) == earlyArrivalQ
      ensures r.0.Valid()
    {
      var (e1, data, out1) := HandleSeqNum(g, order);
      if data.None? || !g.isAck then (e1, out1)
      else
        var (e2, ok, out2) := e1.HandleAck(g);
        if !ok || data.value == [] then (e2, out1 + out2)
        else
          var (e3, out3) := e2.HandleSegText(data.value);
          (e3, out1 + out2 + out3)
    }
  }

  /** As the handshake leaves it, with the peer's initial sequence number and window. */
  function Initial(iss: U32, irs: U32, window: Window): (e: Endpoint)
    ensures e.Valid()
  {
    Endpoint(iss, irs, Open, [], Add(iss, 1), Add(iss, 1), window, [], None, [],
             [], [], Add(irs, 1), BUFFER_CAPACITY, multiset{})
  }
}
