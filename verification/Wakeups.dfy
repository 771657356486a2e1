/** The token protocols of recvbuf.go, sendbuf.go and conn.go: who waits on which channel, and why no
    wake-up is lost. One reader, one writer and one send loop; each step is what happens between two
    points where a thread may be overtaken. */
module Wakeups {
  import opened Arith

  /** `Parked`: about to receive from its channel. `Woken`: it has a token, but not yet the lock. */
  datatype Thread = Running | Parked | Woken

  // The receive buffer: the channel `canRead`.

  /** `jammed`: the arrival thread sends on a full channel while it holds the buffer's lock.
      `garbage`: a read copied bytes although none were stored. `fin`: the peer's FIN has come. */
  datatype RecvSide = RecvSide(capacity: nat, unread: nat, canRead: nat, reader: Thread, jammed: bool, garbage: bool, fin: bool)

  /** `Fin`: `AdvanceNxt`, which counts the FIN as one more byte, and leaves no token. */
  datatype RecvStep = CallRead(n: nat) | TakeReadToken | ResumeRead(n: nat) | Arrive(n: nat) | Fin

  ghost predicate RecvEnabled(s: RecvSide, step: RecvStep) {
    && (!s.jammed || step == TakeReadToken)
    && match step
       case CallRead(n) => s.reader == Running && n > 0
       case TakeReadToken => s.reader == Parked && s.canRead > 0
       case ResumeRead(n) => s.reader == Woken && n > 0
       case Arrive(n) => !s.fin && 0 < n <= s.capacity - s.unread
       case Fin => !s.fin && s.unread + 1 < s.capacity // with less room the ring is no queue afterwards
  }

  /** A read that got past the wait does not look again: it takes an empty buffer for a full one. */
  function Consume(s: RecvSide, n: nat): RecvSide {
    if s.unread == 0 then s.(reader := Running, canRead := 0, garbage := true)
    else s.(reader := Running, canRead := 0, unread := s.unread - Min(n, s.unread))
  }

  function RecvDo(s: RecvSide, step: RecvStep): RecvSide {
    match step
    case CallRead(n) =>
      if s.unread > 0 then Consume(s, n)
      else if s.fin then s // the end of the stream
      else s.(reader := Parked)
    case TakeReadToken =>
      if s.jammed then s.(reader := Woken, jammed := false)
      else s.(reader := Woken, canRead := Max(0, s.canRead - 1))
    case ResumeRead(n) => Consume(s, n)
    case Arrive(n) =>
      if s.canRead == s.capacity then s.(unread := s.unread + n, jammed := true)
      else s.(unread := s.unread + n, canRead := s.canRead + 1)
    case Fin => s.(fin := true, unread := s.unread + 1)
  }

  function RecvStart(capacity: nat): RecvSide { RecvSide(capacity, 0, 0, Running, false, false, false) }

  ghost predicate RecvRun(s: RecvSide, steps: seq<RecvStep>)
    decreases |steps|
  {
    steps == [] || (RecvEnabled(s, steps[0]) && RecvRun(RecvDo(s, steps[0]), steps[1..]))
  }

  function RecvEnd(s: RecvSide, steps: seq<RecvStep>): RecvSide
    decreases |steps|
  {
    if steps == [] then s else RecvEnd(RecvDo(s, steps[0]), steps[1..])
  }

  /** Every token stands for an unread byte, besides the one a woken reader is coming for. */
  ghost predicate RecvInv(s: RecvSide) {
    && !s.jammed && !s.garbage && s.unread <= s.capacity
    && s.canRead + (if s.reader == Woken then 1 else 0) <= s.unread
    && (s.reader == Parked && s.unread > 0 && !s.fin ==> s.canRead > 0)
  }

  lemma {:induction false} RecvRunKeeps(s: RecvSide, steps: seq<RecvStep>)
    requires RecvInv(s) && RecvRun(s, steps)
    ensures RecvInv(RecvEnd(s, steps)) && RecvEnd(s, steps).capacity == s.capacity
    decreases |steps|
  {
    if steps != [] {
      RecvRunKeeps(RecvDo(s, steps[0]), steps[1..]);
    }
  }

  /** In every run from an empty buffer: until the FIN a parked reader with something to read has a token
      waiting; a woken one finds something, tokens never outnumber the unread bytes, and no arrival blocks while
      it holds the lock. */
  lemma ReaderAlwaysWoken(capacity: nat, steps: seq<RecvStep>)
    requires RecvRun(RecvStart(capacity), steps)
    ensures var s := RecvEnd(RecvStart(capacity), steps);
            && (s.reader == Parked && s.unread > 0 && !s.fin ==> RecvEnabled(s, TakeReadToken))
            && (s.reader == Woken ==> s.unread > 0)
            && s.canRead <= s.unread <= capacity
            && !s.jammed && !s.garbage
  {
    RecvRunKeeps(RecvStart(capacity), steps);
  }

  /** Whatever happens from `s` on, the reader stays parked. */
  ghost predicate ParkedForGood(s: RecvSide) {
    forall more :: RecvRun(s, more) ==> RecvEnd(s, more).reader == Parked
  }

  /** In every run: the FIN leaves the reader parked for good, so that it never sees the end of the stream,
      exactly if it comes while the reader is parked with nothing to read. */
  lemma FinParksForGoodIff(capacity: nat, steps: seq<RecvStep>)
    requires RecvRun(RecvStart(capacity), steps) && RecvEnabled(RecvEnd(RecvStart(capacity), steps), Fin)
    ensures var s := RecvEnd(RecvStart(capacity), steps);
            ParkedForGood(RecvDo(s, Fin)) <==> s.reader == Parked && s.unread == 0
  {
    RecvRunKeeps(RecvStart(capacity), steps);
    var s := RecvEnd(RecvStart(capacity), steps);
    var f := RecvDo(s, Fin);
    if s.reader == Parked && s.unread == 0 {
      assert forall step :: !RecvEnabled(f, step);
      assert forall more :: RecvRun(f, more) ==> more == [];
    } else if s.reader == Parked {
      assert [TakeReadToken][1..] == [];
      assert RecvRun(f, [TakeReadToken]) && RecvEnd(f, [TakeReadToken]) == RecvEnd(RecvDo(f, TakeReadToken), []);
    } else {
      assert RecvRun(f, []) && RecvEnd(f, []) == f;
    }
  }

  // The send buffer: the channels `freespaceC` and `hasUnsentC`.

  /** Positions count from the initial sequence number. `seen`, `puts`, `gets`: what was written when the
      send loop last emptied `hasUnsentC`, and how many writes have left a token and how many tokens the
      loop has taken since. `ackJam`, `writeJam`: a send on a full channel under `conn.mu`. */
  datatype SendSide = SendSide(capacity: nat, una: nat, nxt: nat, lbw: nat,
                               freespaceC: nat, hasUnsentC: nat, writer: Thread, loop: Thread,
                               turning: bool, seen: nat, puts: nat, gets: nat, ackJam: bool, writeJam: bool)

  /** `StartTurn` takes the send loop from the top of its loop past the wait, or into it; `Send(n)`
      is the rest of the turn, which sends `n` bytes; a turn that keeps probing has `more`. */
  datatype SendStep =
    | CallWrite(n: nat) | TakeSpaceToken | ResumeWrite(n: nat)
    | Ack(to: nat)
    | StartTurn | TakeUnsentToken | Send(n: nat, more: bool)

  ghost predicate SendEnabled(s: SendSide, step: SendStep) {
    && (step.TakeSpaceToken? || step.TakeUnsentToken? || (!s.ackJam && !s.writeJam)) // the others take `conn.mu`
    && match step
       case CallWrite(n) => s.writer == Running && n > 0
       case TakeSpaceToken => s.writer == Parked && s.freespaceC > 0
       case ResumeWrite(n) => s.writer == Woken && n > 0
       case Ack(to) => s.una < to <= s.nxt
       case StartTurn => !s.turning && s.loop != Parked
       case TakeUnsentToken => s.loop == Parked && s.hasUnsentC > 0
       case Send(n, more) => s.turning && n <= s.lbw - s.nxt
  }

  function FreeSpace(s: SendSide): nat {
    if s.lbw - s.una <= s.capacity then Min(s.capacity, s.capacity - (s.lbw - s.una)) else 0
  }

  /** `writeToSendBuf` with the lock taken. */
  function WriteUnderMu(s: SendSide, n: nat): SendSide {
    if FreeSpace(s) == 0 then s.(writer := Parked)
    else
      var w := s.(writer := Running, freespaceC := 0, lbw := s.lbw + Min(FreeSpace(s), n));
      if s.hasUnsentC == s.capacity then w.(writeJam := true)
      else w.(hasUnsentC := s.hasUnsentC + 1, puts := s.puts + 1)
  }

  function SendDo(s: SendSide, step: SendStep): SendSide {
    match step
    case CallWrite(n) => WriteUnderMu(s, n)
    case TakeSpaceToken => // the room made lets a blocked sender of tokens go on
      if s.ackJam then s.(writer := Woken, ackJam := false)
      else s.(writer := Woken, freespaceC := Max(0, s.freespaceC - 1))
    case ResumeWrite(n) => WriteUnderMu(s, n)
    case Ack(to) =>
      if s.freespaceC == s.capacity then s.(una := to, ackJam := true)
      else s.(una := to, freespaceC := s.freespaceC + 1)
    case StartTurn =>
      if s.lbw == s.nxt then s.(loop := Parked)
      else s.(loop := Running, turning := true, hasUnsentC := 0, seen := s.lbw, puts := 0, gets := 0)
    case TakeUnsentToken =>
      if s.writeJam then s.(loop := Woken, writeJam := false, puts := s.puts + 1, gets := s.gets + 1)
      else s.(loop := Woken, hasUnsentC := Max(0, s.hasUnsentC - 1), gets := s.gets + 1)
    case Send(n, more) => s.(nxt := s.nxt + n, turning := more)
  }

  ghost predicate SendRun(s: SendSide, steps: seq<SendStep>)
    decreases |steps|
  {
    steps == [] || (SendEnabled(s, steps[0]) && SendRun(SendDo(s, steps[0]), steps[1..]))
  }

  function SendEnd(s: SendSide, steps: seq<SendStep>): SendSide
    decreases |steps|
  {
    if steps == [] then s else SendEnd(SendDo(s, steps[0]), steps[1..])
  }

  function SendStart(capacity: nat): SendSide {
    SendSide(capacity, 1, 1, 1, 0, 0, Running, Running, false, 1, 0, 0, false, false)
  }

  ghost predicate SendInv(s: SendSide) {
    && 0 < s.capacity && s.una <= s.nxt <= s.lbw && !s.ackJam
    && s.freespaceC + (s.lbw - s.una) <= s.capacity
    && (s.writer == Parked && FreeSpace(s) > 0 ==> s.freespaceC > 0)
    && (s.loop == Parked && s.lbw > s.nxt ==> s.hasUnsentC > 0)
    && (s.turning ==> s.loop == Running)
    && s.hasUnsentC + s.gets == s.puts
    && s.hasUnsentC <= s.capacity && (s.writeJam ==> s.hasUnsentC == s.capacity)
  }

  lemma WriteKeeps(s: SendSide, n: nat)
    requires SendInv(s) && n > 0 && !s.writeJam
    ensures SendInv(WriteUnderMu(s, n))
  {
  }

  lemma SendStepKeeps(s: SendSide, step: SendStep)
    requires SendInv(s) && SendEnabled(s, step)
    ensures SendInv(SendDo(s, step))
  {
    match step {
      case CallWrite(n) => WriteKeeps(s, n);
      case ResumeWrite(n) => WriteKeeps(s, n);
      case _ =>
    }
  }

  lemma {:induction false} SendRunKeeps(s: SendSide, steps: seq<SendStep>)
    requires SendInv(s) && SendRun(s, steps)
    ensures SendInv(SendEnd(s, steps)) && SendEnd(s, steps).capacity == s.capacity
    decreases |steps|
  {
    if steps != [] {
      SendStepKeeps(s, steps[0]);
      SendRunKeeps(SendDo(s, steps[0]), steps[1..]);
    }
  }

  /** In every run: a parked writer for which space has come free and a parked send loop for which
      bytes have come in have tokens waiting, and `handleAck` never blocks while it holds `conn.mu`. */
  lemma WriterAndLoopAlwaysWoken(capacity: nat, steps: seq<SendStep>)
    requires 0 < capacity && SendRun(SendStart(capacity), steps)
    ensures var s := SendEnd(SendStart(capacity), steps);
            && (s.writer == Parked && FreeSpace(s) > 0 ==> SendEnabled(s, TakeSpaceToken))
            && (s.loop == Parked && s.lbw > s.nxt ==> SendEnabled(s, TakeUnsentToken))
            && s.freespaceC <= capacity && !s.ackJam
  {
    SendRunKeeps(SendStart(capacity), steps);
  }

  /** A turn that sends nothing written after its start. */
  ghost predicate Timely(s: SendSide, steps: seq<SendStep>)
    decreases |steps|
  {
    steps == [] ||
    (&& (steps[0].Send? ==> s.nxt + steps[0].n <= s.seen)
     && Timely(SendDo(s, steps[0]), steps[1..]))
  }

  ghost predicate TimelyInv(s: SendSide) {
    && SendInv(s) && !s.writeJam && s.nxt <= s.seen <= s.lbw
    && s.hasUnsentC <= s.lbw - s.seen
  }

  lemma TimelyStepKeeps(s: SendSide, step: SendStep)
    requires TimelyInv(s) && SendEnabled(s, step) && (step.Send? ==> s.nxt + step.n <= s.seen)
    ensures TimelyInv(SendDo(s, step))
  {
    SendStepKeeps(s, step);
  }

  lemma {:induction false} TimelyRunKeeps(s: SendSide, steps: seq<SendStep>)
    requires TimelyInv(s) && SendRun(s, steps) && Timely(s, steps)
    ensures TimelyInv(SendEnd(s, steps))
    decreases |steps|
  {
    if steps != [] {
      TimelyStepKeeps(s, steps[0]);
      TimelyRunKeeps(SendDo(s, steps[0]), steps[1..]);
    }
  }

  /** If every turn of the send loop sends only what was written when it emptied `hasUnsentC`, no
      write blocks while it holds `conn.mu` either. */
  lemma WriterNeverJams(capacity: nat, steps: seq<SendStep>)
    requires 0 < capacity && SendRun(SendStart(capacity), steps) && Timely(SendStart(capacity), steps)
    ensures !SendEnd(SendStart(capacity), steps).writeJam
  {
    TimelyRunKeeps(SendStart(capacity), steps);
  }

  /** When a write blocks with `conn.mu` held, exactly: there is room for it, and as many writes as the
      channel has places have left a token since the send loop last emptied it, besides those the loop took. */
  lemma WriteJamsIff(s: SendSide, n: nat)
    requires SendInv(s) && n > 0 && !s.writeJam
    ensures WriteUnderMu(s, n).writeJam <==> FreeSpace(s) > 0 && s.puts - s.gets == s.capacity
  {
  }

  /** In every run: the step that jams the writer is a write that meets that condition. */
  lemma {:induction false} JamsExactlyThere(capacity: nat, steps: seq<SendStep>, step: SendStep)
    requires 0 < capacity && SendRun(SendStart(capacity), steps)
    requires !SendEnd(SendStart(capacity), steps).writeJam && SendEnabled(SendEnd(SendStart(capacity), steps), step)
    ensures var s := SendEnd(SendStart(capacity), steps);
            SendDo(s, step).writeJam
            <==> (step.CallWrite? || step.ResumeWrite?) && FreeSpace(s) > 0 && s.puts - s.gets == capacity
  {
    SendRunKeeps(SendStart(capacity), steps);
    var s := SendEnd(SendStart(capacity), steps);
    match step {
      case CallWrite(n) => WriteJamsIff(s, n);
      case ResumeWrite(n) => WriteJamsIff(s, n);
      case _ =>
    }
  }

  /** `k` writes of one byte. */
  function Burst(k: nat): (steps: seq<SendStep>)
    ensures |steps| == k
  {
    if k == 0 then [] else [CallWrite(1)] + Burst(k - 1)
  }

  /** A writer the send loop does not get in between of fills the channel, and then blocks. */
  lemma {:induction false} BurstJams(s: SendSide, k: nat)
    requires !s.ackJam && !s.writeJam && s.writer == Running && 0 < k
    requires s.capacity - s.hasUnsentC == k - 1 && s.una <= s.lbw && s.lbw - s.una + k <= s.capacity
    ensures SendRun(s, Burst(k))
    ensures SendEnd(s, Burst(k)) == s.(freespaceC := 0, lbw := s.lbw + k, hasUnsentC := s.capacity,
                                       puts := s.puts + k - 1, writeJam := true)
    decreases k
  {
    var next := SendDo(s, CallWrite(1));
    if k == 1 {
      assert Burst(0) == [];
    } else {
      BurstJams(next, k - 1);
    }
    Prepend(s, CallWrite(1), Burst(k - 1));
  }

  /** The writer can jam: writes that overtake the send loop between emptying the channel and looking at
      what to send leave a token each, and the loop sends those bytes too, which lets more writes in. The
      writer then holds `conn.mu`, which the send loop needs to empty the channel: with bytes left to
      send, no thread can take another step. A run for every capacity from 2 on; the code's is 65535. */
  lemma WriterCanJam(capacity: nat) returns (steps: seq<SendStep>)
    requires capacity >= 2
    ensures SendRun(SendStart(capacity), steps)
    ensures var s := SendEnd(SendStart(capacity), steps);
            s.writeJam && s.nxt < s.lbw && forall step :: !SendEnabled(s, step)
  {
    var c := capacity;
    var s0 := SendStart(c);
    var s1 := s0.(lbw := 2, hasUnsentC := 1, puts := 1);
    var s2 := s1.(turning := true, hasUnsentC := 0, seen := 2, puts := 0);
    var s3 := s2.(lbw := 3, hasUnsentC := 1, puts := 1);
    var s4 := s3.(nxt := 3, turning := false);
    var s5 := s4.(una := 3, freespaceC := 1);
    var rest := Burst(c);
    BurstJams(s5, c);
    Prepend(s4, Ack(3), rest);
    Prepend(s3, Send(2, false), [Ack(3)] + rest);
    Prepend(s2, CallWrite(1), [Send(2, false)] + ([Ack(3)] + rest));
    Prepend(s1, StartTurn, [CallWrite(1)] + ([Send(2, false)] + ([Ack(3)] + rest)));
    Prepend(s0, CallWrite(1), [StartTurn] + ([CallWrite(1)] + ([Send(2, false)] + ([Ack(3)] + rest))));
    steps := [CallWrite(1)] + ([StartTurn] + ([CallWrite(1)] + ([Send(2, false)] + ([Ack(3)] + rest))));
  }

  lemma Prepend(s: SendSide, step: SendStep, rest: seq<SendStep>)
    requires SendEnabled(s, step) && SendRun(SendDo(s, step), rest)
    ensures SendRun(s, [step] + rest) && SendEnd(s, [step] + rest) == SendEnd(SendDo(s, step), rest)
  {
    assert ([step] + rest)[1..] == rest;
  }
}
