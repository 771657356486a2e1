/** A connection end, with the tokens in its channels, as the token model of Wakeups.dfy sees it: what the end does is
    what the model does, so that the model's theorems are about it. */
module Tokens {
  import opened Arith
  import opened Segments
  import opened Endpoints
  import opened Wakeups

  /** `s` for the threads; positions and tokens are the end's. */
  ghost function Side(e: Endpoint, freespaceC: nat, hasUnsentC: nat, s: SendSide): SendSide {
    s.(capacity := BUFFER_CAPACITY, una := e.Off(e.sndUna), nxt := e.Off(e.sndNxt), lbw := 1 + |e.written|,
       freespaceC := freespaceC, hasUnsentC := hasUnsentC, ackJam := false, writeJam := false)
  }

  /** `t` shows the end as it is. */
  ghost predicate Shows(e: Endpoint, freespaceC: nat, hasUnsentC: nat, t: SendSide) {
    t == Side(e, freespaceC, hasUnsentC, t)
  }

  /** `writeToSendBuf` with room, unless `hasUnsentC` is full; then it blocks. */
  lemma WriteShows(e: Endpoint, freespaceC: nat, hasUnsentC: nat, s: SendSide, data: seq<Byte>)
    requires e.Valid() && e.SendBufFreeSpace() > 0 && data != [] && |e.written| + |data| + 1 < TWO32
    ensures var t := WriteUnderMu(Side(e, freespaceC, hasUnsentC, s), |data|);
            if hasUnsentC == BUFFER_CAPACITY then t.writeJam else Shows(e.Write(data).0, 0, hasUnsentC + 1, t)
  {
    e.Distances();
  }

  lemma AckShows(e: Endpoint, freespaceC: nat, hasUnsentC: nat, s: SendSide, g: Segment)
    requires e.Valid() && e.sndUna < g.ackNum <= e.sndNxt && Sub(e.sndUna, BUFFER_CAPACITY) <= g.ackNum
    requires freespaceC < BUFFER_CAPACITY
    ensures var e', t := e.HandleAck(g).0, Side(e, freespaceC, hasUnsentC, s);
            && SendEnabled(t, Ack(e'.Off(e'.sndUna)))
            && Shows(e', freespaceC + 1, hasUnsentC, SendDo(t, Ack(e'.Off(e'.sndUna))))
  {
  }

  lemma TurnShows(e: Endpoint, freespaceC: nat, hasUnsentC: nat, s: SendSide)
    requires e.Valid() && e.status == Open && e.probe.None? && e.NumBytesNotSent() > 0
    ensures var e', t := e.SendTurn().0, SendDo(Side(e, freespaceC, hasUnsentC, s), StartTurn);
            && e.Off(e.sndNxt) <= e'.Off(e'.sndNxt) && t.turning
            && SendEnabled(t, Send(e'.Off(e'.sndNxt) - e.Off(e.sndNxt), e'.probe.Some?))
            && Shows(e', freespaceC, 0, SendDo(t, Send(e'.Off(e'.sndNxt) - e.Off(e.sndNxt), e'.probe.Some?)))
  {
    e.Distances();
  }

  lemma ProbeShows(e: Endpoint, freespaceC: nat, hasUnsentC: nat, s: SendSide)
    requires e.Valid() && e.status == Open && e.probe.Some?
    ensures var e', t := e.ProbeTurn().0, Side(e, freespaceC, hasUnsentC, s);
            && e.Off(e.sndNxt) <= e'.Off(e'.sndNxt)
            && (s.turning ==> SendEnabled(t, Send(e'.Off(e'.sndNxt) - e.Off(e.sndNxt), e'.probe.Some?)))
            && Shows(e', freespaceC, hasUnsentC, SendDo(t, Send(e'.Off(e'.sndNxt) - e.Off(e.sndNxt), e'.probe.Some?)))
  {
  }

  /** An end and the tokens in its two channels. */
  datatype Holder = Holder(e: Endpoint, freespaceC: nat, hasUnsentC: nat)

  ghost function Of(h: Holder, s: SendSide): SendSide { Side(h.e, h.freespaceC, h.hasUnsentC, s) }

  /** From `h` to `h'` is the model's write, whatever the threads do otherwise; one that blocks when `hasUnsentC`
      is full. */
  ghost predicate Writes(h: Holder, data: seq<Byte>, h': Holder) {
    forall s: SendSide :: var t := WriteUnderMu(Of(h, s), |data|);
                if h.hasUnsentC == BUFFER_CAPACITY then t.writeJam else t == Of(h', t)
  }

  /** The model's acknowledgement, which finds room for its token, if something new is acknowledged. */
  ghost predicate Acks(h: Holder, h': Holder) {
    if h'.e.sndUna == h.e.sndUna then h'.freespaceC == h.freespaceC && h'.hasUnsentC == h.hasUnsentC
    else forall s: SendSide :: var t := SendDo(Of(h, s), Ack(h'.e.Off(h'.e.sndUna)));
                     SendEnabled(Of(h, s), Ack(h'.e.Off(h'.e.sndUna))) && !t.ackJam && t == Of(h', t)
  }

  /** The model's turn of the send loop: it empties `hasUnsentC`, and sends, or goes on probing. */
  ghost predicate Turns(h: Holder, h': Holder) {
    h.e.Off(h.e.sndNxt) <= h'.e.Off(h'.e.sndNxt) &&
    forall s: SendSide :: var t := SendDo(Of(h, s), StartTurn);
                var send := Send(h'.e.Off(h'.e.sndNxt) - h.e.Off(h.e.sndNxt), h'.e.probe.Some?);
                SendEnabled(t, send) && SendDo(t, send) == Of(h', SendDo(t, send))
  }

  ghost predicate Probes(h: Holder, h': Holder) {
    h.e.Off(h.e.sndNxt) <= h'.e.Off(h'.e.sndNxt) && forall s: SendSide :: ProbesAt(h, h', s)
  }

  ghost predicate ProbesAt(h: Holder, h': Holder, s: SendSide)
    requires h.e.Off(h.e.sndNxt) <= h'.e.Off(h'.e.sndNxt)
  {
    var send := Send(h'.e.Off(h'.e.sndNxt) - h.e.Off(h.e.sndNxt), h'.e.probe.Some?);
    var t := SendDo(Of(h, s), send);
    (s.turning ==> SendEnabled(Of(h, s), send)) && t == Of(h', t)
  }

  lemma WritesLike(h: Holder, data: seq<Byte>, h': Holder)
    requires h.e.Valid() && h.e.SendBufFreeSpace() > 0 && data != [] && |h.e.written| + |data| + 1 < TWO32
    requires h' == Holder(h.e.Write(data).0, 0, h.hasUnsentC + 1)
    ensures Writes(h, data, h')
  {
    forall s: SendSide {
      WriteShows(h.e, h.freespaceC, h.hasUnsentC, s, data);
    }
  }

  lemma AcksLike(h: Holder, g: Segment, h': Holder)
    requires h.e.Valid() && h.freespaceC < BUFFER_CAPACITY
    requires h.e.sndUna < g.ackNum <= h.e.sndNxt && Sub(h.e.sndUna, BUFFER_CAPACITY) <= g.ackNum
    requires h' == Holder(h.e.HandleAck(g).0, h.freespaceC + 1, h.hasUnsentC)
    ensures Acks(h, h')
  {
    forall s: SendSide {
      AckShows(h.e, h.freespaceC, h.hasUnsentC, s, g);
    }
  }

  lemma TurnsLike(h: Holder, h': Holder)
    requires h.e.Valid() && h.e.status == Open && h.e.probe.None? && h.e.NumBytesNotSent() > 0
    requires h' == Holder(h.e.SendTurn().0, h.freespaceC, 0)
    ensures Turns(h, h')
  {
    TurnShows(h.e, h.freespaceC, h.hasUnsentC, SendStart(1));
    forall s: SendSide {
      TurnShows(h.e, h.freespaceC, h.hasUnsentC, s);
    }
  }

  lemma ProbesLike(h: Holder, h': Holder)
    requires h.e.Valid() && h.e.status == Open && h.e.probe.Some?
    requires h' == Holder(h.e.ProbeTurn().0, h.freespaceC, h.hasUnsentC)
    ensures Probes(h, h')
  {
    ProbeShows(h.e, h.freespaceC, h.hasUnsentC, SendStart(1));
    forall s: SendSide ensures ProbesAt(h, h', s) {
      ProbeShows(h.e, h.freespaceC, h.hasUnsentC, s);
    }
  }

  /** Nothing else touches what the channels stand for: reads, data that arrives, resends. */
  lemma RestShows(e: Endpoint, e': Endpoint, freespaceC: nat, hasUnsentC: nat, t: SendSide)
    requires e'.iss == e.iss && e'.sndUna == e.sndUna && e'.sndNxt == e.sndNxt && e'.written == e.written
    requires Shows(e, freespaceC, hasUnsentC, t)
    ensures Shows(e', freespaceC, hasUnsentC, t)
  {
  }

  /** At the start of a connection the model is at its start. */
  lemma FirstShows(iss: U32, irs: U32, window: Window)
    ensures Shows(Initial(iss, irs, window), 0, 0, SendStart(BUFFER_CAPACITY))
  {
  }
}
