/** pkg/tcpstack/state.go: the connection state machine from ESTABLISHED on. */
module Lifecycle {
  import opened Arith
  import opened Segments
  import Endpoints

  datatype State = ESTABLISHED | FIN_WAIT_1 | FIN_WAIT_2 | CLOSE_WAIT | CLOSING | LAST_ACK | TIME_WAIT | CLOSED

  /** What became of the segment's text: none to store, stored, or turned away by a full buffer. */
  datatype Text = NoText | Stored | Refused

  /** An arriving segment as the state functions see it; `accepted` when `handleSeqNum` let it pass. */
  datatype Incoming = Incoming(accepted: bool, isAck: bool, isFin: bool, ackNum: U32, text: Text)

  /** The fields the state machine turns on, and the history: the FINs originated, the highest number the
      peer has acknowledged, how many bytes the send loop sent after the FIN, and the past in `past`. */
  datatype Control = Control(state: State, iss: U32, sndUna: U32, sndNxt: U32, lbw: U32,
                             fins: seq<U32>, acked: U32, late: nat, past: Past)
  {
    predicate GaveUp() { past.gaveUp }

    function NumBytesNotSent(): U32 { Sub(lbw, sndNxt) }

    function FreeSpace(): nat {
      if Sub(lbw, sndUna) <= BUFFER_CAPACITY then BUFFER_CAPACITY - Sub(lbw, sndUna) else 0
    }

    /** `VWrite` turns data away in these states only. */
    predicate WriteRefused() { state == FIN_WAIT_1 || state == FIN_WAIT_2 || state == CLOSING || state == TIME_WAIT }

    /** The segment gets past `handleSeqNum`, the ACK bit and `handleAck`. */
    predicate Takes(g: Incoming) {
      state != CLOSED && g.accepted && g.isAck && Sub(sndUna, BUFFER_CAPACITY) <= g.ackNum <= sndNxt
    }

    predicate FinAcked() { |fins| == 1 && acked > fins[0] }
  }

  /** What has happened, whatever the state: the user has closed (`closed`), and did so before the peer's FIN was
      taken (`first`); the peer's FIN has been taken (`heard`); all that was sent, this end's FIN included, has
      been acknowledged at once (`done`); the time of TIME_WAIT is over; the retransmission limit tore the
      connection down. */
  datatype Past = Past(closed: bool, first: bool, heard: bool, done: bool, over: bool, gaveUp: bool)

  /** The one state that each past leaves the connection in (section 3.3.2 of RFC 9293). */
  function StateOf(h: Past): State {
    if h.gaveUp || h.over then CLOSED
    else if !h.closed then if h.heard then CLOSE_WAIT else ESTABLISHED
    else if h.first then
      if h.heard then if h.done then TIME_WAIT else CLOSING
      else if h.done then FIN_WAIT_2 else FIN_WAIT_1
    else if h.done then CLOSED
    else LAST_ACK
  }

  /** The peer's FIN is taken with the segment, unless its text finds the buffer full; in FIN_WAIT_1 even then. */
  predicate TakesFin(c: Control, g: Incoming) {
    c.Takes(g) && g.isFin && (g.text != Refused || c.state == FIN_WAIT_1)
  }

  /** What an arrival leads to, target by target (section 3.10.7.4 of RFC 9293): `all`, that it
      acknowledges everything sent; `fin`, that it carries a FIN; `stored`, that its text was not refused. */
  ghost predicate Turns(s: State, t: State, taken: bool, all: bool, fin: bool, stored: bool) {
    && (t == CLOSE_WAIT <==> s == CLOSE_WAIT || (taken && s == ESTABLISHED && fin && stored))
    && (t == FIN_WAIT_2 <==> (taken && s == FIN_WAIT_1 && all && !fin) || (s == FIN_WAIT_2 && !(taken && fin && stored)))
    && (t == CLOSING <==> (taken && s == FIN_WAIT_1 && !all && fin) || (s == CLOSING && !(taken && all)))
    && (t == TIME_WAIT <==> s == TIME_WAIT || (taken && s == FIN_WAIT_1 && all && fin)
                            || (taken && s == FIN_WAIT_2 && fin && stored) || (taken && s == CLOSING && all))
    && (t == CLOSED <==> s == CLOSED || (taken && s == LAST_ACK && all))
    && (t == ESTABLISHED ==> s == ESTABLISHED) && (t == FIN_WAIT_1 ==> s == FIN_WAIT_1) && (t == LAST_ACK ==> s == LAST_ACK)
  }

  function Recalled(c: Control, g: Incoming): Past {
    c.past.(heard := c.past.heard || TakesFin(c, g),
            done := c.past.done || (c.past.closed && c.Takes(g) && g.ackNum == c.sndNxt))
  }

  /** An arrival, but for what is recalled of it. */
  ghost predicate Moves(c: Control, d: Control, g: Incoming) {
    && d == c.(state := d.state, sndUna := d.sndUna, acked := d.acked)
    && d.sndUna == (if c.Takes(g) then Max(c.sndUna, g.ackNum) else c.sndUna)
    && d.acked == (if c.Takes(g) then Max(c.acked, g.ackNum) else c.acked)
    && Turns(c.state, d.state, c.Takes(g), g.ackNum == c.sndNxt, g.isFin, g.text != Refused)
  }

  ghost predicate Arrives(c: Control, d: Control, g: Incoming) {
    d.past == Recalled(c, g) && Moves(c, d.(past := c.past), g)
  }

  /** `Send`: the send loop, or a probe; it looks at the count of unsent bytes and at no state.
      `GiveUp`: `handleRTO` after the last attempt, with the segment in front unacknowledged. */
  datatype Event = Arrival(g: Incoming) | UserClose | TimeWaitOver | GiveUp | Write(n: U32) | Send(n: U32)

  ghost predicate Next(c: Control, d: Control, ev: Event) {
    match ev
    case Arrival(g) => Arrives(c, d, g)
    case UserClose =>
      if c.state == ESTABLISHED || c.state == CLOSE_WAIT then
        && c.NumBytesNotSent() == 0
        && d == c.(fins := c.fins + [c.sndNxt], sndNxt := Add(c.sndNxt, 1), past := c.past.(closed := true, first := !c.past.heard),
                   state := if c.state == ESTABLISHED then FIN_WAIT_1 else LAST_ACK)
      else d == c
    case TimeWaitOver => c.state == TIME_WAIT && d == c.(state := CLOSED, past := c.past.(over := true))
    case GiveUp =>
      && c.state != CLOSED && c.sndUna < c.sndNxt
      && d == c.(state := CLOSED, lbw := c.sndNxt, sndUna := c.sndNxt, past := c.past.(gaveUp := true))
    case Write(n) =>
      && !c.WriteRefused() && 0 < n <= c.FreeSpace() && c.lbw + n <= TWO32 - 65536
      && d == c.(lbw := c.lbw + n)
    case Send(n) =>
      && 0 < n <= Min(MSS, c.NumBytesNotSent()) && c.sndNxt + n <= TWO32 - 65536
      && d == c.(sndNxt := c.sndNxt + n, late := c.late + if c.fins == [] then 0 else n)
  }

  /** `cs`: the states before, between and after the events. */
  ghost predicate Run(cs: seq<Control>, events: seq<Event>) {
    |cs| == |events| + 1 && forall i: nat :: i < |events| ==> NextAt(cs, events, i)
  }

  ghost predicate NextAt(cs: seq<Control>, events: seq<Event>, i: nat)
    requires |cs| == |events| + 1 && i < |events|
  {
    Next(cs[i], cs[i + 1], events[i])
  }

  /** Where the handshake leaves it. */
  ghost predicate Start(c: Control) {
    && c.state == ESTABLISHED && 65535 <= c.iss && c.iss + 1 <= TWO32 - 65536
    && c.sndUna == c.sndNxt == c.lbw == c.acked == c.iss + 1
    && c.fins == [] && c.late == 0 && c.past == Past(false, false, false, false, false, false)
  }

  ghost predicate Inv(c: Control) {
    && 65535 <= c.iss < c.acked <= c.sndUna <= c.sndNxt <= TWO32 - 65535 && c.lbw <= TWO32 - 65535
    && |c.fins| <= 1
    && (c.fins == [] ==> c.late == 0 && c.sndNxt <= c.lbw <= TWO32 - 65536
                         && (c.state == ESTABLISHED || c.state == CLOSE_WAIT || c.GaveUp()))
    && (c.fins != [] ==> c.state != ESTABLISHED && c.state != CLOSE_WAIT
                         && c.fins[0] <= c.lbw && c.sndNxt - 1 == c.fins[0] + c.late)
    && (c.WriteRefused() ==> c.fins == [c.lbw])
    && (c.GaveUp() ==> c.state == CLOSED && (c.late == 0 ==> !c.FinAcked()))
    && (!c.GaveUp() ==> c.acked == c.sndUna)
    && (c.state == FIN_WAIT_2 || c.state == TIME_WAIT || (c.state == CLOSED && !c.GaveUp()) ==> c.FinAcked())
    && c.state == StateOf(c.past) && (c.past.closed <==> c.fins != [])
    && (c.past.done ==> c.FinAcked()) && (c.late == 0 && c.FinAcked() ==> c.past.done)
    && (c.past.first || c.past.done || c.past.over ==> c.past.closed)
  }

  lemma ArrivalKeeps(c: Control, d: Control, g: Incoming)
    requires Inv(c) && Arrives(c, d, g)
    ensures Inv(d)
  {
  }

  lemma StepKeeps(c: Control, d: Control, ev: Event)
    requires Inv(c) && Next(c, d, ev)
    ensures Inv(d) && d.fins[..|c.fins|] == c.fins
  {
    if ev.Arrival? {
      ArrivalKeeps(c, d, ev.g);
    }
  }

  lemma {:induction false} RunKeeps(cs: seq<Control>, events: seq<Event>, i: nat)
    requires Run(cs, events) && Start(cs[0]) && i < |cs|
    ensures Inv(cs[i])
  {
    if i > 0 {
      RunKeeps(cs, events, i - 1);
      assert NextAt(cs, events, i - 1);
      StepKeeps(cs[i - 1], cs[i], events[i - 1]);
    }
  }

  function Rank(s: State): nat {
    match s
    case ESTABLISHED => 0
    case FIN_WAIT_1 => 1
    case CLOSE_WAIT => 1
    case FIN_WAIT_2 => 2
    case CLOSING => 2
    case LAST_ACK => 2
    case TIME_WAIT => 3
    case CLOSED => 4
  }

  /** The transitions of section 3.3.2 of RFC 9293, and FIN-WAIT-1 to TIME-WAIT of its section 3.10.7.4. */
  predicate Standard(s: State, t: State) {
    || (s == ESTABLISHED && (t == FIN_WAIT_1 || t == CLOSE_WAIT))
    || (s == FIN_WAIT_1 && (t == FIN_WAIT_2 || t == CLOSING || t == TIME_WAIT))
    || ((s == FIN_WAIT_2 || s == CLOSING) && t == TIME_WAIT)
    || (s == CLOSE_WAIT && t == LAST_ACK)
    || ((s == LAST_ACK || s == TIME_WAIT) && t == CLOSED)
  }

  /** Every change of state is one of the standard's, or the tear-down, and raises the rank. */
  lemma TransitionsRise(c: Control, d: Control, ev: Event)
    requires Next(c, d, ev) && d.state != c.state
    ensures Standard(c.state, d.state) || (ev == GiveUp && d.state == CLOSED)
    ensures Rank(c.state) < Rank(d.state)
  {
  }

  /** How often the state changes from state number `i` to state number `j` of a run. */
  ghost function Changes(cs: seq<Control>, i: nat, j: nat): nat
    requires i <= j < |cs|
    decreases j
  {
    if i == j then 0
    else Changes(cs, i, j - 1) + if cs[j].state != cs[j - 1].state then 1 else 0
  }

  /** So no run changes state more than four times, and none comes back to a state it left. */
  lemma {:induction false} ChangesBounded(cs: seq<Control>, events: seq<Event>, i: nat, j: nat)
    requires Run(cs, events) && i <= j < |cs|
    ensures Changes(cs, i, j) <= Rank(cs[j].state) - Rank(cs[i].state) && Changes(cs, i, j) <= 4
    ensures cs[i].state == cs[j].state ==> Changes(cs, i, j) == 0
    decreases j
  {
    if i < j {
      ChangesBounded(cs, events, i, j - 1);
      assert NextAt(cs, events, j - 1);
      if cs[j].state != cs[j - 1].state {
        TransitionsRise(cs[j - 1], cs[j], events[j - 1]);
      }
    }
  }

  /** In every run at most one FIN is originated: none while ESTABLISHED or CLOSE_WAIT, and exactly one
      in every other state but for a tear-down. `sndNxt` lies one beyond it and what was sent since. */
  lemma OneFin(cs: seq<Control>, events: seq<Event>, i: nat)
    requires Run(cs, events) && Start(cs[0]) && i < |cs|
    ensures var c := cs[i];
            && |c.fins| <= 1
            && (c.state == ESTABLISHED || c.state == CLOSE_WAIT ==> c.fins == [])
            && (c.fins == [] ==> c.state == ESTABLISHED || c.state == CLOSE_WAIT || c.GaveUp())
            && (c.fins != [] ==> c.sndNxt == c.fins[0] + 1 + c.late && c.fins[0] <= c.lbw)
  {
    RunKeeps(cs, events, i);
  }

  /** The FIN takes the number of the next byte to be written: all that was written precedes it. */
  lemma FinAtLbw(c: Control, d: Control)
    requires Inv(c) && Next(c, d, UserClose)
    ensures Inv(d)
    ensures c.state == ESTABLISHED || c.state == CLOSE_WAIT ==>
              c.fins == [] && d.fins == [c.lbw] && d.sndNxt == c.lbw + 1 && Standard(c.state, d.state)
    ensures c.state != ESTABLISHED && c.state != CLOSE_WAIT ==> d == c
  {
  }

  /** FIN_WAIT_2, TIME_WAIT from FIN_WAIT_1 or CLOSING, and CLOSED from LAST_ACK are entered with
      everything sent, the FIN included, acknowledged; that is one beyond the last byte written if and
      only if as many bytes were written since the FIN as were sent since. */
  lemma EnteredAcknowledged(c: Control, d: Control, ev: Event)
    requires Inv(c) && Next(c, d, ev) && d.state != c.state && ev != GiveUp
    requires c.state == FIN_WAIT_1 || c.state == CLOSING || c.state == LAST_ACK
    ensures d.state != CLOSING ==> d.FinAcked() && d.acked == d.sndUna == d.sndNxt
    ensures d.state != CLOSING ==> (d.sndUna == d.lbw + 1 <==> d.lbw == d.fins[0] + d.late)
  {
    if ev.Arrival? {
      ArrivalKeeps(c, d, ev.g);
    }
  }

  /** In every run the state is what the past says, whatever the order of events: so the states in which the peer's
      FIN has been taken are CLOSE_WAIT, CLOSING, LAST_ACK, TIME_WAIT and CLOSED, but for a tear-down. */
  lemma StateTells(cs: seq<Control>, events: seq<Event>, i: nat)
    requires Run(cs, events) && Start(cs[0]) && i < |cs|
    ensures var c := cs[i];
            && c.state == StateOf(c.past)
            && (c.past.closed <==> c.fins != [])
            && (!c.GaveUp() ==> (c.past.heard <==> c.state == CLOSE_WAIT || c.state == CLOSING || c.state == LAST_ACK
                                                   || c.state == TIME_WAIT || c.state == CLOSED))
            && (c.WriteRefused() <==> c.past.closed && c.past.first && !c.past.over && !c.GaveUp())
  {
    RunKeeps(cs, events, i);
    HeardAtEnd(cs, events, i);
  }

  lemma {:induction false} HeardAtEnd(cs: seq<Control>, events: seq<Event>, i: nat)
    requires Run(cs, events) && Start(cs[0]) && i < |cs|
    ensures cs[i].past.over ==> cs[i].past.heard && cs[i].past.first && cs[i].past.done
    ensures cs[i].past.closed && !cs[i].past.first ==> cs[i].past.heard
  {
    if i > 0 {
      HeardAtEnd(cs, events, i - 1);
      RunKeeps(cs, events, i - 1);
      assert NextAt(cs, events, i - 1);
    }
  }

  /** A FIN whose text finds the buffer full is passed over in ESTABLISHED and FIN_WAIT_2, but not in FIN_WAIT_1,
      where the state has changed by then. */
  lemma FinWithRefusedText(c: Control, d: Control, ackNum: U32)
    requires Inv(c) && Arrives(c, d, Incoming(true, true, true, ackNum, Refused)) && c.sndUna <= ackNum <= c.sndNxt
    ensures c.state == ESTABLISHED || c.state == FIN_WAIT_2 ==> d.state == c.state
    ensures c.state == FIN_WAIT_1 ==> d.state == if ackNum == c.sndNxt then TIME_WAIT else CLOSING
  {
  }

  /** In FIN_WAIT_2 and TIME_WAIT the FIN, and so all that precedes it, stays acknowledged; in CLOSED it is
      unless the connection was torn down. When nothing was sent after it, it is acknowledged in those states
      and no others. */
  lemma EndsAcknowledged(cs: seq<Control>, events: seq<Event>, i: nat)
    requires Run(cs, events) && Start(cs[0]) && i < |cs|
    ensures var c := cs[i];
            && (c.state == FIN_WAIT_2 || c.state == TIME_WAIT ==> c.FinAcked())
            && (c.state == CLOSED && !c.GaveUp() ==> c.FinAcked())
            && (c.late == 0 ==> (c.FinAcked() <==> c.state == FIN_WAIT_2 || c.state == TIME_WAIT || (c.state == CLOSED && !c.GaveUp())))
  {
    RunKeeps(cs, events, i);
  }

  /** `VWrite` does not look for LAST_ACK or CLOSED: `n` bytes written after the FIN are taken, the first
      numbered like the FIN. The send loop counts `n - 1` of them as unsent and never goes back for it. */
  lemma WriteAfterFin(c: Control, d: Control, n: U32)
    requires Inv(c) && c.fins == [c.lbw] && c.late == 0 && Next(c, d, Write(n))
    ensures c.state == LAST_ACK || c.state == CLOSED
    ensures d.NumBytesNotSent() == n - 1
  {
  }

  lemma SendsStartBeyondFin(cs: seq<Control>, events: seq<Event>, i: nat)
    requires Run(cs, events) && Start(cs[0]) && i < |events| && events[i].Send? && cs[i].fins != []
    ensures cs[i].sndNxt > cs[i].fins[0]
  {
    RunKeeps(cs, events, i);
  }

  /** And the connection can close without it: a run for every `n`. */
  lemma WriteAfterFinLost(c: Control, n: U32) returns (cs: seq<Control>)
    requires Start(c) && 0 < n <= 65535 && c.lbw + n <= TWO32 - 65536
    ensures var events := [Arrival(Incoming(true, true, true, c.sndNxt, NoText)), UserClose, Write(n),
                           Arrival(Incoming(true, true, false, c.sndNxt + 1, NoText))];
            && Run(cs, events) && cs[0] == c
            && cs[4].state == CLOSED && !cs[4].GaveUp() && cs[4].fins == [c.lbw] && cs[4].lbw == c.lbw + n
            && cs[4].NumBytesNotSent() == n - 1
  {
    var events := [Arrival(Incoming(true, true, true, c.sndNxt, NoText)), UserClose, Write(n),
                   Arrival(Incoming(true, true, false, c.sndNxt + 1, NoText))];
    var c1 := c.(state := CLOSE_WAIT, past := c.past.(heard := true));
    var c2 := c1.(fins := [c.lbw], sndNxt := c.lbw + 1, state := LAST_ACK, past := c1.past.(closed := true));
    var c3 := c2.(lbw := c.lbw + n);
    var c4 := c3.(sndUna := c.lbw + 1, acked := c.lbw + 1, state := CLOSED, past := c3.past.(done := true));
    cs := [c, c1, c2, c3, c4];
    assert NextAt(cs, events, 0) && NextAt(cs, events, 1) && NextAt(cs, events, 2) && NextAt(cs, events, 3);
    forall i: nat | i < |events| ensures NextAt(cs, events, i) {
      assert i == 0 || i == 1 || i == 2 || i == 3;
    }
  }

  /** After a FIN the count of unsent bytes is what was written beyond `sndNxt`; if that is nothing but
      the FIN was passed, it is just below 2^32. */
  lemma UnsentAfterFin(c: Control)
    requires Inv(c) && c.fins != []
    ensures c.NumBytesNotSent() == c.lbw - c.sndNxt <==> c.sndNxt <= c.lbw
    ensures c.lbw == c.fins[0] ==> c.NumBytesNotSent() == TWO32 - 1 - c.late
  {
  }

  /** The acknowledgement step is the data phase's. */
  lemma AckAgrees(c: Control, d: Control, g: Incoming, e: Endpoints.Endpoint, h: Segment)
    requires e.Valid() && c.sndUna == e.sndUna && c.sndNxt == e.sndNxt && h.ackNum == g.ackNum
    requires Arrives(c, d, g) && c.state != CLOSED && g.accepted && g.isAck
    ensures e.HandleAck(h).1 <==> c.Takes(g)
    ensures e.HandleAck(h).0.sndUna == d.sndUna && e.HandleAck(h).0.sndNxt == d.sndNxt
  {
  }

  /** And so is the tear-down, which leaves nothing unsent and nothing unacknowledged. */
  lemma TearDownAgrees(c: Control, d: Control, e: Endpoints.Endpoint)
    requires e.Valid() && e.status == Endpoints.Open && c.sndUna == e.sndUna && c.sndNxt == e.sndNxt && c.lbw == e.Lbw()
    requires e.Timeout().0.status == Endpoints.GaveUp && Next(c, d, GiveUp)
    ensures var f := e.Timeout().0; f.sndUna == d.sndUna && f.sndNxt == d.sndNxt && f.Valid() && f.Lbw() == d.lbw
    ensures d.state == CLOSED && d.NumBytesNotSent() == 0 && d.sndUna == d.sndNxt == c.sndNxt
  {
    assert Add(e.iss, 1 + (e.Off(e.sndNxt) - 1)) == e.sndNxt;
  }

  /** What the state functions see of a segment that arrives at `e`. */
  ghost function Seen(e: Endpoints.Endpoint, h: Segment, fin: bool, order: seq<Segment>): Incoming
    requires e.Valid() && e.status == Endpoints.Open && multiset(order) == e.earlyArrivalQ
  {
    var data := e.HandleSeqNum(h, order).1;
    Incoming(data.Some?, h.isAck, fin, h.ackNum,
             if data.None? || data.value == [] then NoText else if |e.pending| < BUFFER_CAPACITY then Stored else Refused)
  }

  /** The whole arrival is the data phase's: it gets as far as the FIN there exactly if its acknowledgement is
      taken and its text not refused here, and it leaves the same acknowledgement. */
  lemma ArrivalAgrees(c: Control, d: Control, e: Endpoints.Endpoint, h: Segment, fin: bool, order: seq<Segment>)
    requires e.Valid() && e.status == Endpoints.Open && multiset(order) == e.earlyArrivalQ
    requires c.sndUna == e.sndUna && c.sndNxt == e.sndNxt && c.state == ESTABLISHED && Arrives(c, d, Seen(e, h, fin, order))
    ensures e.ReachesFin(h, order) <==> c.Takes(Seen(e, h, fin, order)) && Seen(e, h, fin, order).text != Refused
    ensures d.state == CLOSE_WAIT <==> fin && e.ReachesFin(h, order)
    ensures e.Receive(h, order).0.sndUna == d.sndUna && e.Receive(h, order).0.sndNxt == d.sndNxt
  {
    var g := Seen(e, h, fin, order);
    var (e1, data, out1) := e.HandleSeqNum(h, order);
    if g.accepted && g.isAck {
      AckAgrees(c, d, g, e1, h);
      var (e2, ok, out2) := e1.HandleAck(h);
      assert e2 == e1.(sndUna := e2.sndUna, sndWnd := e2.sndWnd, inflightQ := e2.inflightQ);
    }
  }

  lemma ArrivalMeans(c: Control, d: Control, g: Incoming)
    requires Inv(c) && Arrives(c, d, g)
    ensures Inv(d) && d.state == StateOf(d.past)
    ensures d.state == c.state || (Standard(c.state, d.state) && Rank(c.state) < Rank(d.state))
    ensures d.state != c.state && (d.state == FIN_WAIT_2 || d.state == CLOSED) ==> d.sndUna == d.sndNxt
  {
    ArrivalKeeps(c, d, g);
    if d.state != c.state {
      TransitionsRise(c, d, Arrival(g));
    }
  }

  /** The object. */
  class ConnControl {
    const iss: U32
    var state: State
    var sndUna: U32
    var sndNxt: U32
    var lbw: U32
    ghost var fins: seq<U32>
    ghost var acked: U32
    ghost var late: nat
    ghost var past: Past

    ghost function Abs(): Control
      reads this
    {
      Control(state, iss, sndUna, sndNxt, lbw, fins, acked, late, past)
    }

    ghost predicate Valid()
      reads this
    {
      Inv(Abs())
    }

    constructor (iss: U32)
      requires 65535 <= iss && iss + 1 <= TWO32 - 65536
      ensures Valid() && Start(Abs())
    {
      this.iss := iss;
      state, sndUna, sndNxt, lbw := ESTABLISHED, iss + 1, iss + 1, iss + 1;
      fins, acked, late, past := [], iss + 1, 0, Past(false, false, false, false, false, false);
    }

    method HandleAck(ackNum: U32) returns (ok: bool)
      requires Valid() && !past.gaveUp
      modifies this`sndUna, this`acked
      ensures ok <==> Sub(old(sndUna), BUFFER_CAPACITY) <= ackNum <= sndNxt
      ensures sndUna == acked == (if ok then Max(old(sndUna), ackNum) else old(sndUna))
    {
      if Sub(sndUna, BUFFER_CAPACITY) > ackNum || sndNxt < ackNum { return false; }
      if sndUna < ackNum && ackNum <= sndNxt {
        sndUna := ackNum;
        acked := ackNum;
      }
      return true;
    }

    /** `stateMachine`: at most one standard transition, upwards, as `Turns` says by its target and `StateOf` by
        all that has happened; no FIN. */
    method StateMachine(g: Incoming)
      requires Valid()
      modifies this
      ensures Valid() && Arrives(old(Abs()), Abs(), g) && state == StateOf(past)
      ensures state == old(state) || (Standard(old(state), state) && Rank(old(state)) < Rank(state))
      ensures state != old(state) && (state == FIN_WAIT_2 || state == CLOSED) ==> sndUna == sndNxt
    {
      ghost var c := Abs();
      Dispatch(g);
      past := Recalled(c, g);
      ArrivalMeans(c, Abs(), g);
    }

    method Dispatch(g: Incoming)
      requires Valid()
      modifies this`state, this`sndUna, this`acked
      ensures Moves(old(Abs()), Abs(), g)
    {
      match state {
        case ESTABLISHED => StateFuncEstablished(g);
        case FIN_WAIT_1 => StateFuncFinWait1(g);
        case FIN_WAIT_2 => StateFuncFinWait2(g);
        case CLOSE_WAIT => StateFuncAckOnly(g);
        case CLOSING => StateFuncClosing(g);
        case LAST_ACK => StateFuncLastAck(g);
        case TIME_WAIT => StateFuncAckOnly(g);
        case CLOSED =>
      }
    }

    method StateFuncEstablished(g: Incoming)
      requires Valid() && state == ESTABLISHED
      modifies this`state, this`sndUna, this`acked
      ensures Moves(old(Abs()), Abs(), g)
    {
      if !g.accepted || !g.isAck { return; }
      var ok := HandleAck(g.ackNum);
      if !ok { return; }
      if g.text == Refused { return; }
      if g.isFin { state := CLOSE_WAIT; }
    }

    method StateFuncFinWait1(g: Incoming)
      requires Valid() && state == FIN_WAIT_1
      modifies this`state, this`sndUna, this`acked
      ensures Moves(old(Abs()), Abs(), g)
    {
      if !g.accepted || !g.isAck { return; }
      var ok := HandleAck(g.ackNum);
      if !ok { return; }
      if g.ackNum == sndNxt {
        if g.isFin {
          state := TIME_WAIT;
          return;
        }
        state := FIN_WAIT_2;
      }
      if g.isFin { state := CLOSING; }
    }

    method StateFuncFinWait2(g: Incoming)
      requires Valid() && state == FIN_WAIT_2
      modifies this`state, this`sndUna, this`acked
      ensures Moves(old(Abs()), Abs(), g)
    {
      if !g.accepted || !g.isAck { return; }
      var ok := HandleAck(g.ackNum);
      if !ok { return; }
      if g.text == Refused { return; }
      if g.isFin { state := TIME_WAIT; }
    }

    /** In CLOSE_WAIT and TIME_WAIT. */
    method StateFuncAckOnly(g: Incoming)
      requires Valid() && (state == CLOSE_WAIT || state == TIME_WAIT)
      modifies this`state, this`sndUna, this`acked
      ensures Moves(old(Abs()), Abs(), g)
    {
      if !g.accepted || !g.isAck { return; }
      var _ := HandleAck(g.ackNum);
    }

    method StateFuncClosing(g: Incoming)
      requires Valid() && state == CLOSING
      modifies this`state, this`sndUna, this`acked
      ensures Moves(old(Abs()), Abs(), g)
    {
      if !g.accepted || !g.isAck { return; }
      var ok := HandleAck(g.ackNum);
      if !ok || sndNxt != g.ackNum { return; }
      state := TIME_WAIT;
    }

    method StateFuncLastAck(g: Incoming)
      requires Valid() && state == LAST_ACK
      modifies this`state, this`sndUna, this`acked
      ensures Moves(old(Abs()), Abs(), g)
    {
      if !g.accepted || !g.isAck { return; }
      var ok := HandleAck(g.ackNum);
      if !ok || sndNxt != g.ackNum { return; }
      state := CLOSED;
    }

    /** `activeClose`, once nothing is unsent: the only originator of a FIN, which it gives the number
        `lbw`; an error, and nothing done, when closing has begun. */
    method ActiveClose() returns (ok: bool)
      requires Valid() && (state == ESTABLISHED || state == CLOSE_WAIT ==> Abs().NumBytesNotSent() == 0)
      modifies this`state, this`sndNxt, this`fins, this`past
      ensures Valid() && Next(old(Abs()), Abs(), UserClose)
      ensures ok ==> old(fins) == [] && fins == [lbw] && sndNxt == lbw + 1 && Standard(old(state), state)
      ensures !ok ==> Abs() == old(Abs()) && Rank(state) >= 1
    {
      ghost var c := Abs();
      match state {
        case ESTABLISHED =>
          fins := fins + [sndNxt];
          sndNxt := Add(sndNxt, 1);
          state := FIN_WAIT_1;
          ok := true;
        case CLOSE_WAIT =>
          fins := fins + [sndNxt];
          sndNxt := Add(sndNxt, 1);
          state := LAST_ACK;
          ok := true;
        case _ =>
          ok := false;
      }
      if ok { past := past.(closed := true, first := !past.heard); }
      FinAtLbw(c, Abs());
    }
  }
}
