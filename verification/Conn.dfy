/** pkg/tcpstack/conn.go, state_internal.go, tcp_internal.go and retransmission.go: the connection
    object, each of whose methods takes exactly the step `Endpoints` gives for it. */
module Connection {
  import opened Arith
  import opened Segments
  import opened Reassembly
  import opened Retransmission
  import opened Endpoints
  import opened RecvBuffer
  import opened SendBuffer
  import opened Writing
  import Lifecycle
  import Transfer
  import Tokens

  type State = Lifecycle.State

  /** With `eof`, the bytes may come together with the end of the stream. */
  datatype ReadResult = Returned(n: nat, eof: bool) | EndOfFile | MustWait | NotPermitted

  /** Two writes in a row. */
  lemma WrittenOn(e: Endpoint, data: seq<Byte>, k: nat, w: nat)
    requires k + w <= |data|
    ensures e.(written := e.written + data[..k]).(written := e.written + data[..k] + data[k..][..w])
            == e.(written := e.written + data[..k + w])
  {
    assert data[..k] + data[k..][..w] == data[..k + w];
    assert e.written + data[..k] + data[k..][..w] == e.written + (data[..k] + data[k..][..w]);
  }

  /** Writes that stopped only because all is written or no room is left amount to one. */
  lemma WrittenAll(e: Endpoint, data: seq<Byte>, k: nat)
    requires k <= |data| && |e.written| + |data| + 1 < TWO32
    requires e.Valid() && e.(written := e.written + data[..k]).Valid()
    requires k == |data| || e.(written := e.written + data[..k]).SendBufFreeSpace() == 0
    ensures (e.(written := e.written + data[..k]), k) == e.Write(data)
  {
    e.Distances();
    e.(written := e.written + data[..k]).Distances();
  }

  class VTCPConn {
    const iss: U32
    const irs: U32
    const sendBuf: SendBuf
    const recvBuf: RecvBuf
    var status: Status
    var sndUna: U32
    var sndNxt: U32
    var sndWnd: Window
    var expectedSeqNum: U32
    var windowSize: int
    var inflightQ: seq<Flight>
    var earlyArrivalQ: multiset<Segment>
    var probe: Option<Probe> // the send loop's local variables while it probes
    ghost var log: seq<Chunk>
    ghost var delivered: seq<Byte>

    /** The connection as a value. */
    ghost function Abs(): Endpoint
      requires recvBuf.Valid() && 0 <= windowSize <= 65535
      reads this, sendBuf, recvBuf, recvBuf.buff
    {
      Endpoint(iss, irs, status, sendBuf.written, sndUna, sndNxt, sndWnd, inflightQ, probe, log,
               delivered, recvBuf.Contents(), expectedSeqNum, windowSize, earlyArrivalQ)
    }

    /** The parts fit together, and every token in `freespaceC` stands for a byte freed since the last
        write, so that `handleAck` always finds room in the channel. */
    ghost predicate Valid()
      reads this, sendBuf, sendBuf.buf, recvBuf, recvBuf.buff
    {
      && sendBuf.buf != recvBuf.buff && sendBuf.iss == iss
      && sendBuf.capacity == recvBuf.capacity == BUFFER_CAPACITY
      && recvBuf.Valid() && !recvBuf.finRecvd && recvBuf.nxt == expectedSeqNum
      && 0 <= windowSize <= 65535 && Abs().Valid()
      && (status == Open ==>
            && sendBuf.Valid()
            && sendBuf.freespaceC + (1 + |sendBuf.written| - Abs().Off(sndUna)) <= BUFFER_CAPACITY)
    }

    /** And with the tokens in the channels of the send side. */
    ghost function Held(): Tokens.Holder
      requires recvBuf.Valid() && 0 <= windowSize <= 65535
      reads this, sendBuf, recvBuf, recvBuf.buff
    {
      Tokens.Holder(Abs(), sendBuf.freespaceC, sendBuf.hasUnsentC)
    }

    constructor (iss: U32, irs: U32, window: Window)
      ensures Valid() && fresh(sendBuf) && fresh(sendBuf.buf) && fresh(recvBuf) && fresh(recvBuf.buff)
      ensures Abs() == Initial(iss, irs, window) && recvBuf.lbr == irs
      ensures sendBuf.freespaceC == sendBuf.hasUnsentC == recvBuf.canRead == 0
    {
      this.iss, this.irs := iss, irs;
      status, sndUna, sndNxt, sndWnd := Open, Add(iss, 1), Add(iss, 1), window;
      expectedSeqNum, windowSize := Add(irs, 1), BUFFER_CAPACITY;
      inflightQ, earlyArrivalQ, probe := [], multiset{}, None;
      log, delivered := [], [];
      sendBuf := new SendBuf(BUFFER_CAPACITY, iss);
      recvBuf := new RecvBuf(BUFFER_CAPACITY, irs);
      new;
      ghost var first := Initial(iss, irs, window);
      assert recvBuf.Contents() == [];
    }

    /** `writeToSendBuf`, woken: there is room. */
    method WriteToSendBuf(data: seq<Byte>) returns (n: nat)
      requires Valid() && status == Open && Abs().SendBufFreeSpace() > 0
      requires |sendBuf.written| + |data| + 1 < TWO32
      modifies sendBuf, sendBuf.buf
      ensures Valid() && (Abs(), n) == old(Abs()).Write(data)
      ensures data != [] ==> 0 < n && Tokens.Writes(old(Held()), data, Held())
    {
      Abs().Distances();
      ghost var e, h := Abs(), Held();
      sendBuf.freespaceC := 0;
      var used := Sub(sendBuf.lbw, sndUna);
      var free := if used <= sendBuf.capacity then sendBuf.capacity - used else 0;
      n := Min(free, |data|);
      ghost var next := e.(written := e.written + data[..n]);
      assert e.Write(data) == (next, n) && next.Valid();
      sendBuf.Append(data[..n]);
      assert Abs() == next;
      if data != [] { Tokens.WritesLike(h, data, Held()); }
    }

    /** `VWrite`: it writes what fits, waits, and writes on. `evs` is what happens while it waits: sending,
        probing, timers, reads and arrivals. */
    method VWrite(data: seq<Byte>, evs: seq<Transfer.Event>) returns (bytesWritten: nat)
      requires Valid() && status == Open && |sendBuf.written| + |data| + 1 < TWO32
      modifies this, sendBuf, sendBuf.buf, recvBuf, recvBuf.buff
      ensures Valid() && (Abs(), bytesWritten) == WriteOver(old(Abs()), data, evs)
      ensures bytesWritten < |data| && status == Open ==> Abs().SendBufFreeSpace() == 0
    {
      ghost var total := WriteOver(Abs(), data, evs);
      WaitsFirst(Abs(), data, evs);
      bytesWritten := WriteWhatFits(data);
      var passed := 0;
      while bytesWritten < |data| && passed < |evs|
        invariant Valid() && status == Open && passed <= |evs| && bytesWritten <= |data|
        invariant Waiting(total, Abs(), data, evs, bytesWritten, passed)
        decreases |evs| - passed
      {
        Wait(data, evs, bytesWritten, passed, total);
        if status != Open { return; }
        passed := passed + 1;
        bytesWritten := WriteOn(data, evs, bytesWritten, passed, total);
      }
      WaitsLast(total, Abs(), data, evs, bytesWritten, passed);
    }

    /** Something happens while the writer waits. */
    method Wait(data: seq<Byte>, evs: seq<Transfer.Event>, bytesWritten: nat, passed: nat, ghost total: (Endpoint, nat))
      requires Valid() && status == Open && bytesWritten < |data| && passed < |evs|
      requires Waiting(total, Abs(), data, evs, bytesWritten, passed)
      modifies this, sendBuf, recvBuf, recvBuf.buff
      ensures Valid()
      ensures status == Open ==> Woken(total, Abs(), data, evs, bytesWritten, passed + 1)
      ensures status != Open ==> total == (Abs(), bytesWritten)
    {
      ghost var before := Abs();
      Happen(evs[passed]);
      WaitsNext(total, before, Abs(), data, evs, bytesWritten, passed);
    }

    /** The writer looks for room again. */
    method WriteOn(data: seq<Byte>, evs: seq<Transfer.Event>, before: nat, passed: nat, ghost total: (Endpoint, nat))
      returns (bytesWritten: nat)
      requires Valid() && status == Open && Woken(total, Abs(), data, evs, before, passed)
      modifies sendBuf, sendBuf.buf
      ensures Valid() && bytesWritten <= |data| && Waiting(total, Abs(), data, evs, bytesWritten, passed)
    {
      WokenWrites(total, Abs(), data, evs, before, passed);
      var w := WriteWhatFits(data[before..]);
      bytesWritten := before + w;
    }

    /** One event besides the writer's; what cannot happen does nothing. */
    method Happen(ev: Transfer.Event)
      requires Valid() && status == Open
      modifies this, sendBuf, recvBuf, recvBuf.buff
      ensures Valid() && Becomes(old(Abs()), ev, Abs())
    {
      ghost var before := Abs();
      match ev {
        case AppWrite(data) =>
        case AppRead(n) => ReadSome(n);
        case SendLoop =>
          if probe.None? && Sub(sendBuf.lbw, sndNxt) > 0 { var out := SendTurn(); }
        case ProbeTimer =>
          if probe.Some? { var out := ProbeTurn(); }
        case RetransTimer =>
          var out := HandleRTO();
        case Arrival(g, order) =>
          Arrive(g, order);
      }
      BecomesIff(before, ev, Abs());
    }

    method ReadSome(n: nat)
      requires Valid() && status == Open
      modifies this, recvBuf
      ensures Valid() && Abs() == Happens(old(Abs()), Transfer.AppRead(n))
    {
      if n > 0 && recvBuf.WindowSize() > 0 {
        var buf := new Byte[n];
        var r := ReadOn(buf);
      }
    }

    method Arrive(g: Segment, order: seq<Segment>)
      requires Valid() && status == Open
      modifies this, sendBuf, recvBuf, recvBuf.buff
      ensures Valid() && Abs() == Happens(old(Abs()), Transfer.Arrival(g, order))
    {
      assert recvBuf.lbr == Sub(Sub(expectedSeqNum, 1), |Abs().pending|);
      if multiset(order) == earlyArrivalQ && recvBuf.lbr + BUFFER_CAPACITY < TWO32 {
        var out, done := DataPart(g, order);
      }
    }

    /** Writing until all is written or the writer must wait. */
    method WriteWhatFits(data: seq<Byte>) returns (bytesWritten: nat)
      requires Valid() && status == Open && |sendBuf.written| + |data| + 1 < TWO32
      modifies sendBuf, sendBuf.buf
      ensures Valid() && (Abs(), bytesWritten) == old(Abs()).Write(data)
      ensures bytesWritten == |data| || (bytesWritten < |data| && Abs().SendBufFreeSpace() == 0)
    {
      bytesWritten := 0;
      ghost var before := Abs();
      while bytesWritten < |data| && Sub(sendBuf.lbw, sndUna) < sendBuf.capacity
        invariant Valid() && bytesWritten <= |data|
        invariant Abs() == before.(written := before.written + data[..bytesWritten])
      {
        ghost var k := bytesWritten;
        Abs().Distances();
        var w := WriteToSendBuf(data[bytesWritten..]);
        bytesWritten := bytesWritten + w;
        WrittenOn(before, data, k, w);
      }
      WrittenAll(before, data, bytesWritten);
    }

    /** `bytesNotSent`: the next bytes of the stream, no more than asked for, unsent and allowed. */
    method BytesNotSent(most: nat) returns (n: nat, bytes: seq<Byte>)
      requires Valid() && status == Open && most <= BUFFER_CAPACITY
      ensures n == |bytes| == Min(most, Min(Abs().NumBytesNotSent(), Abs().UsableSendWindow()))
      ensures Abs().Off(sndNxt) - 1 + n <= |sendBuf.written|
      ensures bytes == sendBuf.written[Abs().Off(sndNxt) - 1..Abs().Off(sndNxt) - 1 + n]
    {
      Abs().Distances();
      var edge := Add(sndUna, sndWnd);
      var usable := if edge > sndNxt then Sub(edge, sndNxt) else 0;
      n := Min(most, Min(Sub(sendBuf.lbw, sndNxt), usable));
      if n == 0 { return 0, []; }
      bytes := sendBuf.Slice(sndNxt, n);
    }

    /** One turn of `sendBufferedData` that found something unsent, up to the probe timer. */
    method SendTurn() returns (out: seq<Segment>)
      requires Valid() && status == Open && probe.None? && Abs().NumBytesNotSent() > 0
      modifies this`probe, this`inflightQ, this`sndNxt, this`log, sendBuf`hasUnsentC
      ensures Valid() && (Abs(), out) == old(Abs()).SendTurn() && Tokens.Turns(old(Held()), Held())
    {
      ghost var h := Held();
      sendBuf.hasUnsentC := 0;
      if sndWnd == 0 {
        FormProbe();
        out := [];
      } else {
        out := SendNext();
      }
      Tokens.TurnsLike(h, Held());
    }

    method FormProbe()
      requires Valid() && status == Open && probe.None? && Abs().NumBytesNotSent() > 0 && sndWnd == 0
      modifies this`probe
      ensures Valid() && Abs() == old(Abs()).SendTurn().0
    {
      Abs().Distances();
      var byteToSend := sendBuf.Slice(sndNxt, 1);
      assert byteToSend == [sendBuf.written[Abs().Off(sndNxt) - 1]];
      probe := Some(Probe(sndUna, Segment(sndNxt, expectedSeqNum, windowSize, true, byteToSend)));
    }

    method SendNext() returns (out: seq<Segment>)
      requires Valid() && status == Open && probe.None? && Abs().NumBytesNotSent() > 0 && sndWnd != 0
      modifies this`inflightQ, this`sndNxt, this`log
      ensures Valid() && (Abs(), out) == old(Abs()).SendTurn()
    {
      var numBytes, bytesToSend := BytesNotSent(MSS);
      if numBytes == 0 { return []; }
      var packet := Segment(sndNxt, expectedSeqNum, windowSize, true, bytesToSend);
      inflightQ := inflightQ + [Flight(packet, numBytes, 0)];
      log := log + [Chunk(sndNxt, bytesToSend, false)];
      sndNxt := Add(sndNxt, numBytes);
      out := [packet];
    }

    /** The probe timer fires. */
    method ProbeTurn() returns (out: seq<Segment>)
      requires Valid() && status == Open && probe.Some?
      modifies this`probe, this`sndNxt, this`log
      ensures Valid() && (Abs(), out) == old(Abs()).ProbeTurn() && Tokens.Probes(old(Held()), Held())
    {
      ghost var h := Held();
      if sndWnd == 0 && sndUna == probe.value.oldUna {
        SendProbe();
        out := [probe.value.packet];
      } else {
        StopProbing();
        out := [];
      }
      Tokens.ProbesLike(h, Held());
    }

    method SendProbe()
      requires Valid() && status == Open && probe.Some? && sndWnd == 0 && sndUna == probe.value.oldUna
      modifies this`sndNxt, this`log
      ensures Valid() && Abs() == old(Abs()).ProbeTurn().0
    {
      var packet := probe.value.packet;
      log := if sndNxt == packet.seqNum then log + [Chunk(sndNxt, packet.payload, true)] else log;
      sndNxt := Add(packet.seqNum, 1);
    }

    method StopProbing()
      requires Valid() && status == Open && probe.Some? && !(sndWnd == 0 && sndUna == probe.value.oldUna)
      modifies this`probe
      ensures Valid() && Abs() == old(Abs()).ProbeTurn().0
    {
      probe := None;
    }

    method AckInflight(ackNum: U32)
      modifies this`inflightQ
      ensures inflightQ == Retransmission.AckInflight(old(inflightQ), ackNum)
    {
      while |inflightQ| > 0
        invariant Retransmission.AckInflight(inflightQ, ackNum) == Retransmission.AckInflight(old(inflightQ), ackNum)
        decreases |inflightQ|
      {
        var meta := inflightQ[0];
        if Add(meta.seg.seqNum, meta.length) > ackNum { break; }
        inflightQ := inflightQ[1..];
      }
    }

    /** `handleRTO`, one expiry of the retransmission timer. */
    method HandleRTO() returns (out: seq<Segment>)
      requires Valid() && status == Open
      modifies this, sendBuf
      ensures Valid() && (Abs(), out) == old(Abs()).Timeout()
      ensures sendBuf.freespaceC == old(sendBuf.freespaceC) && sendBuf.hasUnsentC == old(sendBuf.hasUnsentC)
    {
      if |inflightQ| == 0 { return []; }
      if inflightQ[0].counter >= MAX_RETRANSMISSIONS {
        TearDown();
        return [];
      }
      out := ResendFront();
    }

    method TearDown()
      requires Valid() && status == Open && inflightQ != [] && inflightQ[0].counter >= MAX_RETRANSMISSIONS
      modifies this`inflightQ, this`sndUna, this`status, sendBuf`lbw, sendBuf`written
      ensures Valid() && Abs() == old(Abs()).Timeout().0
    {
      inflightQ := [];
      sendBuf.lbw := sndNxt;
      sendBuf.written := sendBuf.written[..Abs().Off(sndNxt) - 1];
      sndUna := sndNxt;
      status := GaveUp;
    }

    method ResendFront() returns (out: seq<Segment>)
      requires Valid() && status == Open && inflightQ != [] && inflightQ[0].counter < MAX_RETRANSMISSIONS
      modifies this`inflightQ
      ensures Valid() && (Abs(), out) == old(Abs()).Timeout()
    {
      var inflight := inflightQ[0];
      var packet := inflight.seg.(ackNum := expectedSeqNum, window := windowSize);
      inflightQ := [inflight.(seg := packet, counter := inflight.counter + 1)] + inflightQ[1..];
      out := [packet];
    }

    /** `aggregateEarlyArrivals`. A run-time panic and a loop that goes round for ever are outcomes;
        `order` is the order in which the heap of early arrivals surfaces its heads. */
    method AggregateEarlyArrivals(data: seq<Byte>, startSeq: U32, order: seq<Segment>) returns (m: Merge)
      requires |data| <= windowSize && multiset(order) == earlyArrivalQ
      modifies this`earlyArrivalQ
      ensures m == Reassembly.AggregateEarlyArrivals(order, data, startSeq, windowSize)
      ensures earlyArrivalQ == if m.Merged? then multiset(m.rest) else old(earlyArrivalQ)
    {
      var avaiWnd := windowSize - |data|;
      if avaiWnd == 0 { return Merged(data, order); }
      var heap, start: U32, merged := order, startSeq, data;
      while |heap| != 0
        invariant 0 < avaiWnd
        invariant Aggregate(heap, merged, start, avaiWnd) == Aggregate(order, data, startSeq, windowSize - |data|)
        decreases |heap|, avaiWnd
      {
        var seg := heap[0];
        var segEnd := Add(seg.seqNum, |seg.payload|);
        if segEnd < start {
          heap := heap[1..];
          continue;
        }
        if seg.seqNum > start { break; }
        var from := if seg.seqNum < start then start - seg.seqNum else 0;
        var end := Min(|seg.payload|, avaiWnd);
        if from > end { return Panicked; }
        var trim := seg.payload[from..end];
        avaiWnd := avaiWnd - |trim|;
        start := Add(start, |trim|);
        merged := merged + trim;
        if segEnd <= start { heap := heap[1..]; }
        else if trim == [] { return Spinning; } // the source goes round again with nothing changed
        if avaiWnd == 0 { break; }
      }
      earlyArrivalQ := multiset(heap);
      m := Merged(merged, heap);
    }

    /** `handleSeqNum`. */
    method HandleSeqNum(g: Segment, order: seq<Segment>) returns (data: Option<seq<Byte>>, out: seq<Segment>)
      requires Valid() && multiset(order) == earlyArrivalQ
      modifies this`earlyArrivalQ, this`status
      ensures Valid() && (Abs(), data, out) == old(Abs()).HandleSeqNum(g, order)
    {
      if !IsValidSeg(g, expectedSeqNum, windowSize) {
        return None, [Segment(sndNxt, expectedSeqNum, windowSize, true, [])];
      }
      if g.seqNum > expectedSeqNum {
        earlyArrivalQ := earlyArrivalQ + multiset{g};
        return Some([]), [Segment(sndNxt, expectedSeqNum, windowSize, true, [])];
      }
      data, out := TrimAndAggregate(g, order);
    }

    /** The part of `handleSeqNum` for an acceptable segment that is not early. */
    method TrimAndAggregate(g: Segment, order: seq<Segment>) returns (data: Option<seq<Byte>>, out: seq<Segment>)
      requires Valid() && multiset(order) == earlyArrivalQ
      requires IsValidSeg(g, expectedSeqNum, windowSize) && g.seqNum <= expectedSeqNum
      modifies this`earlyArrivalQ, this`status
      ensures Valid() && (Abs(), data, out) == old(Abs()).HandleSeqNum(g, order)
    {
      var start := if g.seqNum < expectedSeqNum then expectedSeqNum - g.seqNum else 0;
      var end := Min(|g.payload|, windowSize);
      if start > end {
        status := Crashed;
        return None, [];
      }
      var kept := g.payload[start..end];
      var m := Aggregated(kept, Add(g.seqNum, |kept|), order);
      data := Settle(m);
      out := [];
    }

    method Aggregated(data: seq<Byte>, startSeq: U32, order: seq<Segment>) returns (m: Merge)
      requires Valid() && |data| <= windowSize && multiset(order) == earlyArrivalQ
      modifies this`earlyArrivalQ
      ensures m == Reassembly.AggregateEarlyArrivals(order, data, startSeq, windowSize)
      ensures Valid() && Abs() == old(Abs()).(earlyArrivalQ := if m.Merged? then multiset(m.rest) else old(earlyArrivalQ))
    {
      m := AggregateEarlyArrivals(data, startSeq, order);
    }

    method Settle(m: Merge) returns (data: Option<seq<Byte>>)
      requires Valid()
      modifies this`status
      ensures Valid() && data == if m.Merged? then Some(m.data) else None
      ensures Abs() == old(Abs()).(status := if m.Panicked? then Crashed else if m.Spinning? then Hung else old(status))
    {
      match m {
        case Panicked => status := Crashed; data := None;
        case Spinning => status := Hung; data := None;
        case Merged(agg, rest) => data := Some(agg);
      }
    }

    /** `handleAck`. */
    method HandleAck(g: Segment) returns (ok: bool, out: seq<Segment>)
      requires Valid() && status == Open
      modifies this`sndUna, this`sndWnd, this`inflightQ, sendBuf`freespaceC
      ensures Valid() && (Abs(), ok, out) == old(Abs()).HandleAck(g) && Tokens.Acks(old(Held()), Held())
    {
      if Sub(sndUna, BUFFER_CAPACITY) > g.ackNum || sndNxt < g.ackNum {
        return false, [Segment(sndNxt, expectedSeqNum, windowSize, true, [])];
      }
      if sndUna < g.ackNum && g.ackNum <= sndNxt {
        TakeAck(g);
      } else if sndUna == g.ackNum {
        sndWnd := g.window;
      }
      return true, [];
    }

    /** New data is acknowledged. The channel has room for the token: no block under the mutex. */
    method TakeAck(g: Segment)
      requires Valid() && status == Open && sndUna < g.ackNum <= sndNxt && Sub(sndUna, BUFFER_CAPACITY) <= g.ackNum
      modifies this`sndUna, this`sndWnd, this`inflightQ, sendBuf`freespaceC
      ensures Valid() && Abs() == old(Abs()).HandleAck(g).0 && Tokens.Acks(old(Held()), Held())
    {
      ghost var h := Held();
      sndUna := g.ackNum;
      sndWnd := g.window;
      assert sendBuf.freespaceC < sendBuf.capacity;
      sendBuf.freespaceC := sendBuf.freespaceC + 1;
      AckInflight(g.ackNum);
      Tokens.AcksLike(h, g, Held());
    }

    /** `handleSegText`; an error when the buffer is full. */
    method HandleSegText(data: seq<Byte>) returns (ok: bool, out: seq<Segment>)
      requires Valid() && data != [] && recvBuf.lbr + BUFFER_CAPACITY < TWO32
      modifies this`expectedSeqNum, this`windowSize, recvBuf, recvBuf.buff
      ensures Valid() && (Abs(), out) == old(Abs()).HandleSegText(data)
      ensures recvBuf.lbr == old(recvBuf.lbr) && (ok <==> |old(Abs()).pending| < BUFFER_CAPACITY)
    {
      ok := StoreText(data);
      out := if ok then [Segment(sndNxt, expectedSeqNum, windowSize, true, [])] else [];
    }

    method StoreText(data: seq<Byte>) returns (ok: bool)
      requires Valid() && data != [] && recvBuf.lbr + BUFFER_CAPACITY < TWO32
      modifies this`expectedSeqNum, this`windowSize, recvBuf, recvBuf.buff
      ensures Valid() && Abs() == old(Abs()).HandleSegText(data).0
      ensures recvBuf.lbr == old(recvBuf.lbr) && (ok <==> |old(Abs()).pending| < BUFFER_CAPACITY)
    {
      ghost var e, k := Abs(), Min(|data|, BUFFER_CAPACITY - |Abs().pending|);
      ghost var next := e.(pending := e.pending + data[..k], expectedSeqNum := Add(e.expectedSeqNum, k),
                           windowSize := BUFFER_CAPACITY - (|e.pending| + k));
      assert next.Valid() && e.HandleSegText(data).0 == if |e.pending| == BUFFER_CAPACITY then e else next;
      var r := recvBuf.Write(data);
      if r == Full {
        assert e.pending + data[..0] == e.pending;
        return false;
      }
      expectedSeqNum := Add(expectedSeqNum, r.n);
      windowSize := Min(BUFFER_CAPACITY, recvBuf.FreeSpace());
      assert Abs() == next;
      return true;
    }

    /** `stateFuncEstablished`. `closeWait`: the segment carries a FIN and got as far as `handleFin`. It then
        left the data phase: `expectedSeqNum` counts the FIN after all that was taken, but the ring's `nxt`
        is set from the segment's own number, and the two agree only for a FIN that is next in order and
        bare. */
    method StateFuncEstablished(g: Segment, fin: bool, order: seq<Segment>) returns (out: seq<Segment>, closeWait: bool)
      requires Valid() && status == Open && multiset(order) == earlyArrivalQ
      requires recvBuf.lbr + BUFFER_CAPACITY < TWO32
      modifies this, sendBuf`freespaceC, recvBuf, recvBuf.buff
      ensures closeWait <==> fin && old(Abs()).ReachesFin(g, order)
      ensures !closeWait ==> Valid() && (Abs(), out) == old(Abs()).Receive(g, order)
      ensures closeWait ==>
                var (e, sent) := old(Abs()).Receive(g, order);
                && status == e.status && sndUna == e.sndUna && sndNxt == e.sndNxt && sndWnd == e.sndWnd
                && inflightQ == e.inflightQ && earlyArrivalQ == e.earlyArrivalQ && windowSize == e.windowSize
                && expectedSeqNum == Add(e.expectedSeqNum, 1) && recvBuf.nxt == Add(g.seqNum, 1) && recvBuf.finRecvd
                && out == sent + [Segment(sndNxt, expectedSeqNum, windowSize, true, [])]
                && (recvBuf.nxt == expectedSeqNum <==> g.seqNum == e.expectedSeqNum)
    {
      var done;
      out, done := DataPart(g, order);
      closeWait := fin && done;
      if closeWait {
        recvBuf.AdvanceNxt(g.seqNum, true);
        expectedSeqNum := Add(expectedSeqNum, 1);
        out := out + [Segment(sndNxt, expectedSeqNum, windowSize, true, [])];
      }
    }

    /** All of `stateFuncEstablished` before the FIN; `done` unless it returned early. */
    method DataPart(g: Segment, order: seq<Segment>) returns (out: seq<Segment>, done: bool)
      requires Valid() && status == Open && multiset(order) == earlyArrivalQ
      requires recvBuf.lbr + BUFFER_CAPACITY < TWO32
      modifies this, sendBuf`freespaceC, recvBuf, recvBuf.buff
      ensures Valid() && (Abs(), out) == old(Abs()).Receive(g, order)
      ensures done <==> old(Abs()).ReachesFin(g, order)
    {
      var data;
      data, out := HandleSeqNum(g, order);
      if data.None? || !g.isAck { return out, false; }
      var ok, ack := HandleAck(g);
      out := out + ack;
      if !ok { return out, false; }
      if |data.value| > 0 {
        var stored, text := HandleSegText(data.value);
        return out + text, stored;
      }
      return out, true;
    }

    /** `VRead`, as long as the ring is a queue. */
    method VRead(buf: array<Byte>, curState: State) returns (r: ReadResult)
      requires recvBuf.Valid() && buf != recvBuf.buff && buf != sendBuf.buf
      modifies this`windowSize, this`delivered, recvBuf, buf
      ensures recvBuf.Valid() && (RefusedRead(curState) <==> r == NotPermitted)
      ensures NormalRead(curState) ==>
                var was, n := old(recvBuf.Contents()), if r.Returned? then r.n else 0;
                && r == (if buf.Length == 0 || was != [] then Returned(Min(buf.Length, |was|), false)
                         else if old(recvBuf.finRecvd) then EndOfFile else MustWait)
                && windowSize == old(windowSize) + n && buf[..n] == was[..n] && recvBuf.Contents() == was[n..]
      ensures NormalRead(curState) && old(Valid()) ==>
                && Valid() && (r == MustWait ==> Abs() == old(Abs()))
                && (r != MustWait ==> r.Returned? && (Abs(), buf[..r.n]) == old(Abs()).Read(buf.Length))
      ensures !NormalRead(curState) ==>
                var was, n := old(recvBuf.Contents()), if r.Returned? then r.n else 0;
                && r == (if RefusedRead(curState) then NotPermitted
                         else if was == [] then EndOfFile else Returned(Min(buf.Length, |was|), true))
                && windowSize == old(windowSize) && buf[..n] == was[..n] && recvBuf.Contents() == was[n..]
    {
      if curState == Lifecycle.CLOSE_WAIT || curState == Lifecycle.LAST_ACK {
        if recvBuf.WindowSize() == 0 { return EndOfFile; }
        var last := recvBuf.Read(buf);
        return Returned(last.n, true);
      }
      if curState == Lifecycle.FIN_WAIT_2 || curState == Lifecycle.FIN_WAIT_1 || curState == Lifecycle.CLOSING { return NotPermitted; }
      r := ReadOn(buf);
    }

    /** Reading that blocks and widens the window. */
    method ReadOn(buf: array<Byte>) returns (r: ReadResult)
      requires recvBuf.Valid() && buf != recvBuf.buff && buf != sendBuf.buf
      modifies this`windowSize, this`delivered, recvBuf, buf
      ensures recvBuf.Valid()
      ensures var was, n := old(recvBuf.Contents()), if r.Returned? then r.n else 0;
              && r == (if buf.Length == 0 || was != [] then Returned(Min(buf.Length, |was|), false)
                       else if old(recvBuf.finRecvd) then EndOfFile else MustWait)
              && windowSize == old(windowSize) + n && buf[..n] == was[..n] && recvBuf.Contents() == was[n..]
      ensures old(Valid()) ==>
                && Valid() && (r == MustWait ==> Abs() == old(Abs()))
                && (r != MustWait ==> r.Returned? && (Abs(), buf[..r.n]) == old(Abs()).Read(buf.Length))
    {
      ghost var good, was := Valid(), recvBuf.Contents();
      ghost var k := Min(buf.Length, |was|);
      ghost var next := if good then Some(After(Abs(), k)) else None;
      var read := recvBuf.Read(buf);
      if read == Parked { return MustWait; }
      if read == Eof { return EndOfFile; }
      windowSize := windowSize + read.n;
      delivered := delivered + buf[..read.n];
      assert good ==> Abs() == next.value;
      return Returned(read.n, false);
    }
  }

  ghost function After(e: Endpoint, k: nat): (f: Endpoint)
    requires e.Valid() && k <= |e.pending|
    ensures f.Valid()
    ensures forall n: nat :: Min(n, |e.pending|) == k ==> e.Read(n) == (f, e.pending[..k])
  {
    e.(delivered := e.delivered + e.pending[..k], pending := e.pending[k..], windowSize := e.windowSize + k)
  }

  predicate NormalRead(s: State) { s == Lifecycle.ESTABLISHED || s == Lifecycle.TIME_WAIT || s == Lifecycle.CLOSED }

  predicate RefusedRead(s: State) { s == Lifecycle.FIN_WAIT_1 || s == Lifecycle.FIN_WAIT_2 || s == Lifecycle.CLOSING }

  /** What reading does, by what has happened: in every run without a tear-down it is refused after this end has
      closed first, until the peer's FIN and the last acknowledgement are in; and it reports the end of the stream
      after the peer has closed first, until all is acknowledged. */
  lemma ReadsTell(cs: seq<Lifecycle.Control>, events: seq<Lifecycle.Event>, i: nat)
    requires Lifecycle.Run(cs, events) && Lifecycle.Start(cs[0]) && i < |cs| && !cs[i].GaveUp()
    ensures var h := cs[i].past;
            && (RefusedRead(cs[i].state) <==> h.closed && h.first && !(h.heard && h.done))
            && (!NormalRead(cs[i].state) && !RefusedRead(cs[i].state) <==> h.heard && !h.first && !(h.closed && h.done))
  {
    Lifecycle.RunKeeps(cs, events, i);
    Lifecycle.HeardAtEnd(cs, events, i);
  }
}
