/** What each end of the two-party system keeps about what it has sent: every chunk of its log is, or was, on
    the wire, no longer than MSS, and every segment carries an acknowledgement. */
module Sides {
  import opened Arith
  import opened Segments
  import opened Reassembly
  import opened Retransmission
  import opened Endpoints
  import opened Transfer
  import opened Delivery

  ghost predicate Sendable(e: Endpoint) {
    && (forall f :: f in e.inflightQ ==> f.seg.isAck)
    && (e.probe.Some? ==> e.probe.value.packet.isAck && e.iss + 1 <= e.probe.value.oldUna <= e.sndUna
                          && e.probe.value.oldUna <= e.probe.value.packet.seqNum)
  }

  ghost predicate OnWire(c: Chunk, sent: set<Segment>) {
    exists g :: g in sent && g.seqNum == c.seqNum && g.payload == c.payload
  }

  /** Every chunk of the log is on the wire and no longer than MSS, and all segments carry an acknowledgement. */
  ghost predicate Side(e: Endpoint, sent: set<Segment>) {
    && Sendable(e) && (forall c :: c in e.log ==> OnWire(c, sent) && |c.payload| <= MSS)
    && forall g :: g in sent ==> g.isAck
  }

  lemma SideGrows(e: Endpoint, e': Endpoint, sent: set<Segment>, more: set<Segment>)
    requires Side(e, sent) && Sendable(e') && forall g :: g in more ==> g.isAck
    requires forall c :: c in e'.log ==> c in e.log || (OnWire(c, more) && |c.payload| <= MSS)
    ensures Side(e', sent + more)
  {
    forall c | c in e'.log ensures OnWire(c, sent + more) && |c.payload| <= MSS {
      if c in e.log {
        assert OnWire(c, sent);
        var g :| g in sent && g.seqNum == c.seqNum && g.payload == c.payload;
        assert g in sent + more;
      } else {
        var g :| g in more && g.seqNum == c.seqNum && g.payload == c.payload;
        assert g in sent + more;
      }
    }
  }

  lemma SideSends(e: Endpoint, sent: set<Segment>)
    requires e.Valid() && NoWrap(e) && Enabled(e, SendLoop, {}) && Side(e, sent)
    ensures var (e', out) := e.SendTurn(); Side(e', sent + Sent(out))
  {
    SendShape(e);
    var (e', out) := e.SendTurn();
    if out != [] {
      assert out[0] in Sent(out);
      assert OnWire(Chunk(out[0].seqNum, out[0].payload, false), Sent(out));
    }
    SideGrows(e, e', sent, Sent(out));
  }

  lemma SideProbes(e: Endpoint, sent: set<Segment>)
    requires e.Valid() && NoWrap(e) && e.status == Open && e.probe.Some? && Side(e, sent)
    ensures var (e', out) := e.ProbeTurn(); Side(e', sent + Sent(out))
  {
    ProbeShape(e);
    var (e', out) := e.ProbeTurn();
    if out != [] {
      assert out[0] in Sent(out);
      assert OnWire(Chunk(out[0].seqNum, out[0].payload, true), Sent(out));
    }
    SideGrows(e, e', sent, Sent(out));
  }

  lemma SideTimes(e: Endpoint, sent: set<Segment>)
    requires e.Valid() && NoWrap(e) && e.status == Open && Side(e, sent)
    ensures var (e', out) := e.Timeout(); Side(e', sent + Sent(out))
  {
    TimeoutShape(e);
    var (e', out) := e.Timeout();
    if e.inflightQ != [] {
      assert e.inflightQ[0] in e.inflightQ;
    }
    SideGrows(e, e', sent, Sent(out));
  }

  lemma {:induction false} AckInflightKeeps(q: seq<Flight>, ackNum: U32, f: Flight)
    requires f in AckInflight(q, ackNum)
    ensures f in q
  {
    if q != [] && Add(q[0].seg.seqNum, q[0].length) <= ackNum {
      AckInflightKeeps(q[1..], ackNum, f);
    }
  }

  lemma SideAcked(e: Endpoint, sent: set<Segment>, g: Segment)
    requires e.Valid() && Side(e, sent)
    ensures var (e', ok, out) := e.HandleAck(g); Side(e', sent + Sent(out))
  {
    AckSends(e, g);
    var (e', ok, out) := e.HandleAck(g);
    forall f | f in e'.inflightQ ensures f in e.inflightQ {
      if e'.inflightQ != e.inflightQ {
        AckInflightKeeps(e.inflightQ, g.ackNum, f);
      }
    }
    SideGrows(e, e', sent, Sent(out));
  }

  lemma SideTakes(e: Endpoint, sent: set<Segment>, data: seq<Byte>)
    requires e.Valid() && Side(e, sent)
    ensures var (e', out) := e.HandleSegText(data); Side(e', sent + Sent(out))
  {
    var (e', out) := e.HandleSegText(data);
    SideGrows(e, e', sent, Sent(out));
  }

  lemma SideArrives(e: Endpoint, sent: set<Segment>, g: Segment, order: seq<Segment>)
    requires e.Valid() && e.status == Open && multiset(order) == e.earlyArrivalQ && Side(e, sent)
    ensures var (e', out) := e.Receive(g, order); Side(e', sent + Sent(out))
  {
    ReceiveParts(e, g, order);
    SeqNumSends(e, g, order);
    var (e1, data, out1) := e.HandleSeqNum(g, order);
    SideGrows(e, e1, sent, Sent(out1));
    if data.Some? && g.isAck {
      SideAcked(e1, sent + Sent(out1), g);
      var (e2, ok, out2) := e1.HandleAck(g);
      SentConcat(sent, out1, out2);
      if ok && data.value != [] {
        SideTakes(e2, sent + Sent(out1 + out2), data.value);
        SentConcat(sent, out1 + out2, e2.HandleSegText(data.value).1);
      }
    }
  }

  lemma SideStep(e: Endpoint, ev: Event, incoming: set<Segment>, sent: set<Segment>)
    requires e.Valid() && NoWrap(e) && Enabled(e, ev, incoming) && Side(e, sent)
    ensures var (e', out) := Effect(e, ev, incoming); Side(e', sent + Sent(out))
  {
    match ev {
      case AppWrite(data) => SideGrows(e, e.Write(data).0, sent, Sent([]));
      case AppRead(n) => SideGrows(e, e.Read(n).0, sent, Sent([]));
      case SendLoop => SideSends(e, sent);
      case ProbeTimer => SideProbes(e, sent);
      case RetransTimer => SideTimes(e, sent);
      case Arrival(g, order) => SideArrives(e, sent, g, order);
    }
  }

  /** Both sides, folded away. */
  ghost predicate BothSides(y: System) {
    forall k: int :: Fold(k) ==> Side(y.a, y.toB) && Side(y.b, y.toA)
  }

  lemma SidesNext(x: System, y: System, n: nat, atA: bool, ev: Event)
    requires Reaches(x, n) && BothSides(x) && Steps(x, y, atA, ev)
    ensures BothSides(y)
  {
    assert Fold(0);
    ReachedNoWrap(x.a, x.b, x.toB, x.toA, n);
    if atA {
      SideStep(x.a, ev, x.toA, x.toB);
    } else {
      SideStep(x.b, ev, x.toB, x.toA);
    }
  }

  lemma SidesFirst(y: System)
    requires Init(y)
    ensures BothSides(y)
  {
  }

  lemma {:induction false} SidesReached(y: System, n: nat)
    requires Reaches(y, n)
    ensures BothSides(y)
    decreases n
  {
    if n == 0 {
      SidesFirst(y);
    } else {
      var x: System, atA: bool, ev: Event :| Reaches(x, n - 1) && Steps(x, y, atA, ev);
      SidesReached(x, n - 1);
      SidesNext(x, y, n - 1, atA, ev);
    }
  }

  /** In every reachable state no segment carries more than 1360 bytes. */
  lemma NoLongerThan1360(y: System, n: nat)
    requires Reaches(y, n)
    ensures forall g :: g in y.toA || g in y.toB ==> |g.payload| <= 1360
  {
    SidesReached(y, n);
    assert Fold(0);
    FlowReached(y.a, y.b, y.toB, y.toA, n);
    FlowReached(y.b, y.a, y.toA, y.toB, n);
    forall g | g in y.toB ensures |g.payload| <= 1360 {
      Short(y.a, y.toB, g);
    }
    forall g | g in y.toA ensures |g.payload| <= 1360 {
      Short(y.b, y.toA, g);
    }
  }

  lemma Short(s: Endpoint, toR: set<Segment>, g: Segment)
    requires Side(s, toR) && AllSentBy(toR, s) && g in toR
    ensures |g.payload| <= MSS
  {
    assert SentBy(g, s);
    assert g.payload != [] ==> Chunk(g.seqNum, g.payload, false) in s.log || Chunk(g.seqNum, g.payload, true) in s.log;
  }
}
