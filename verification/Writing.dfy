/** `VWrite` in pkg/tcpstack/conn.go over all that happens at its end while it waits, as a value. */
module Writing {
  import opened Arith
  import opened Segments
  import opened Endpoints
  import opened Transfer

  /** The receive ring is a whole capacity away from 2^32, as it is in every run that does not wrap. */
  predicate RingClear(e: Endpoint) {
    |e.pending| <= BUFFER_CAPACITY && Sub(Sub(e.expectedSeqNum, 1), |e.pending|) + BUFFER_CAPACITY < TWO32
  }

  function Incoming(ev: Event): set<Segment> {
    if ev.Arrival? then {ev.g} else {}
  }

  /** Any segment of any peer may arrive; a second writer there is not. */
  ghost predicate CanHappen(e: Endpoint, ev: Event)
    requires e.Valid()
  {
    !ev.AppWrite? && Enabled(e, ev, Incoming(ev)) && (ev.Arrival? ==> RingClear(e))
  }

  /** What cannot happen is passed over. */
  ghost function Happens(e: Endpoint, ev: Event): (e': Endpoint)
    requires e.Valid()
    ensures e'.Valid()
  {
    if CanHappen(e, ev) then Effect(e, ev, Incoming(ev)).0 else e
  }

  /** `Happens`, folded away. */
  ghost predicate Becomes(e: Endpoint, ev: Event, e': Endpoint) {
    forall k: int :: Fold(k) ==> e.Valid() && e' == Happens(e, ev)
  }

  lemma BecomesIff(e: Endpoint, ev: Event, e': Endpoint)
    ensures Becomes(e, ev, e') <==> e.Valid() && e' == Happens(e, ev)
  {
    assert Fold(0);
  }

  /** Nothing but the writer adds to the stream, and only giving up takes something back. */
  lemma HappensKeeps(e: Endpoint, ev: Event)
    requires e.Valid()
    ensures var e' := Happens(e, ev);
            e'.iss == e.iss && if e'.status == GaveUp then e'.written <= e.written else e'.written == e.written
  {
    if CanHappen(e, ev) && ev.Arrival? {
      ReceiveParts(e, ev.g, ev.order);
      SeqNumSends(e, ev.g, ev.order);
      var (e1, data, out) := e.HandleSeqNum(ev.g, ev.order);
      AckSends(e1, ev.g);
      if data.Some? {
        SegTextSends(e1.HandleAck(ev.g).0, data.value);
      }
    }
  }

  /** `VWrite` as a value: write what fits, wait until something happens, and write on, until all is written or
      the connection is open no more. `evs` is what happens. */
  ghost function WriteOver(e: Endpoint, data: seq<Byte>, evs: seq<Event>): (r: (Endpoint, nat))
    requires e.Valid() && e.status == Open && |e.written| + |data| + 1 < TWO32
    ensures r.0.Valid() && r.1 <= |data|
    decreases |evs|
  {
    var (e1, n) := e.Write(data);
    if n == |data| || evs == [] then (e1, n)
    else
      HappensKeeps(e1, evs[0]);
      var e2 := Happens(e1, evs[0]);
      if e2.status != Open then (e2, n)
      else
        var (f, m) := WriteOver(e2, data[n..], evs[1..]);
        (f, n + m)
  }

  /** What is taken is a prefix of the data, appended to the stream. */
  lemma {:induction false} WriteOverAppends(e: Endpoint, data: seq<Byte>, evs: seq<Event>)
    requires e.Valid() && e.status == Open && |e.written| + |data| + 1 < TWO32
    ensures var (f, n) := WriteOver(e, data, evs);
            if f.status == GaveUp then f.written <= e.written + data[..n] else f.written == e.written + data[..n]
    decreases |evs|
  {
    var (e1, n) := e.Write(data);
    if n < |data| && evs != [] {
      HappensKeeps(e1, evs[0]);
      var e2 := Happens(e1, evs[0]);
      if e2.status == Open {
        WriteOverAppends(e2, data[n..], evs[1..]);
        AppendJoins(e.written, data, n, WriteOver(e2, data[n..], evs[1..]).1);
      }
    }
  }

  lemma AppendJoins(s: seq<Byte>, data: seq<Byte>, k: nat, w: nat)
    requires k + w <= |data|
    ensures (s + data[..k]) + data[k..][..w] == s + data[..k + w]
  {
    assert data[..k] + data[k..][..w] == data[..k + w];
    assert (s + data[..k]) + data[k..][..w] == s + (data[..k] + data[k..][..w]);
  }

  /** The write `total` goes on from `e`, with `data` left, after `done` bytes. */
  ghost predicate Resumes(total: (Endpoint, nat), e: Endpoint, data: seq<Byte>, evs: seq<Event>, done: nat)
    requires e.Valid() && e.status == Open && |e.written| + |data| + 1 < TWO32
  {
    forall k: int :: Fold(k) ==> total.0 == WriteOver(e, data, evs).0 && total.1 == done + WriteOver(e, data, evs).1
  }

  lemma ResumesEnds(total: (Endpoint, nat), e: Endpoint, rest: seq<Byte>, evs: seq<Event>, done: nat)
    requires e.Valid() && e.status == Open && |e.written| + |rest| + 1 < TWO32 && Resumes(total, e, rest, evs, done)
    requires rest == [] || (evs == [] && e.SendBufFreeSpace() == 0)
    ensures total == (e, done)
  {
    assert Fold(0);
    assert e.written + rest[..0] == e.written;
  }

  /** A write that stopped goes on from where it stopped. */
  lemma WriteStops(e: Endpoint, data: seq<Byte>)
    requires e.Valid() && |e.written| + |data| + 1 < TWO32
    ensures var (e1, n) := e.Write(data);
            n <= |data| && |e1.written| + |data[n..]| + 1 < TWO32 && e1.Write(data[n..]) == (e1, 0)
  {
    var (e1, n) := e.Write(data);
    e.Distances();
    e1.Distances();
    assert e1.written + data[n..][..0] == e1.written;
  }

  lemma ResumesAfterWrite(e: Endpoint, data: seq<Byte>, evs: seq<Event>)
    requires e.Valid() && e.status == Open && |e.written| + |data| + 1 < TWO32
    ensures var (e1, n) := e.Write(data);
            n <= |data| && |e1.written| + |data[n..]| + 1 < TWO32
            && Resumes(WriteOver(e, data, evs), e1, data[n..], evs, n)
  {
    WriteStops(e, data);
    var (e1, n) := e.Write(data);
    assert Fold(0) && data[n..][0..] == data[n..];
  }

  /** Without room the writer waits for what happens next. */
  lemma WaitsFor(e: Endpoint, data: seq<Byte>, evs: seq<Event>)
    requires e.Valid() && e.status == Open && |e.written| + |data| + 1 < TWO32
    requires data != [] && evs != [] && e.SendBufFreeSpace() == 0
    ensures var e' := Happens(e, evs[0]);
            if e'.status != Open then WriteOver(e, data, evs) == (e', 0)
            else |e'.written| + |data| + 1 < TWO32 && WriteOver(e, data, evs) == WriteOver(e', data, evs[1..])
  {
    HappensKeeps(e, evs[0]);
    assert e.written + data[..0] == e.written;
    assert e.Write(data) == (e, 0) && data[0..] == data;
  }

  lemma ResumesAfter(total: (Endpoint, nat), e: Endpoint, data: seq<Byte>, evs: seq<Event>, done: nat)
    requires e.Valid() && e.status == Open && |e.written| + |data| + 1 < TWO32 && data != [] && evs != []
    requires e.SendBufFreeSpace() == 0 && Resumes(total, e, data, evs, done)
    ensures var e' := Happens(e, evs[0]);
            if e'.status != Open then total == (e', done)
            else
              && |e'.written| + |data| + 1 < TWO32
              && var (e1, n) := e'.Write(data);
                 n <= |data| && |e1.written| + |data[n..]| + 1 < TWO32 && Resumes(total, e1, data[n..], evs[1..], done + n)
  {
    assert Fold(0);
    WaitsFor(e, data, evs);
    var e' := Happens(e, evs[0]);
    if e'.status == Open {
      ResumesAfterWrite(e', data, evs[1..]);
    }
  }

  /** `VWrite` has written `bytesWritten` bytes, `passed` events have happened, and it is done or waits. */
  ghost predicate Waiting(total: (Endpoint, nat), e: Endpoint, data: seq<Byte>, evs: seq<Event>, bytesWritten: nat, passed: nat) {
    forall k: int :: Fold(k) ==>
      && bytesWritten <= |data| && passed <= |evs| && e.Valid() && e.status == Open
      && |e.written| + |data| - bytesWritten + 1 < TWO32
      && (bytesWritten < |data| ==> e.SendBufFreeSpace() == 0)
      && Resumes(total, e, data[bytesWritten..], evs[passed..], bytesWritten)
  }

  lemma WaitsFirst(e: Endpoint, data: seq<Byte>, evs: seq<Event>)
    requires e.Valid() && e.status == Open && |e.written| + |data| + 1 < TWO32
    ensures var (e1, n) := e.Write(data); Waiting(WriteOver(e, data, evs), e1, data, evs, n, 0)
  {
    ResumesAfterWrite(e, data, evs);
    e.Distances();
    e.Write(data).0.Distances();
    assert evs[0..] == evs;
  }

  /** Something has happened that leaves the connection open; the writer has yet to look for room. */
  ghost predicate Woken(total: (Endpoint, nat), e: Endpoint, data: seq<Byte>, evs: seq<Event>, bytesWritten: nat, passed: nat) {
    forall k: int :: Fold(k) ==>
      && bytesWritten <= |data| && e.Valid() && |e.written| + |data[bytesWritten..]| + 1 < TWO32
      && var (e1, n) := e.Write(data[bytesWritten..]);
         bytesWritten + n <= |data| && Waiting(total, e1, data, evs, bytesWritten + n, passed)
  }

  lemma WokenWrites(total: (Endpoint, nat), e: Endpoint, data: seq<Byte>, evs: seq<Event>, bytesWritten: nat, passed: nat)
    requires Woken(total, e, data, evs, bytesWritten, passed)
    ensures bytesWritten <= |data| && e.Valid() && |e.written| + |data[bytesWritten..]| + 1 < TWO32
    ensures var (e1, n) := e.Write(data[bytesWritten..]);
            bytesWritten + n <= |data| && Waiting(total, e1, data, evs, bytesWritten + n, passed)
  {
    assert Fold(0);
  }

  lemma WaitsNext(total: (Endpoint, nat), e: Endpoint, e': Endpoint, data: seq<Byte>, evs: seq<Event>, bytesWritten: nat, passed: nat)
    requires Waiting(total, e, data, evs, bytesWritten, passed) && bytesWritten < |data| && passed < |evs|
    requires Becomes(e, evs[passed], e')
    ensures if e'.status != Open then total == (e', bytesWritten) else Woken(total, e', data, evs, bytesWritten, passed + 1)
  {
    BecomesIff(e, evs[passed], e');
    WaitEnds(total, e, data, evs, bytesWritten, passed);
  }

  lemma WaitEnds(total: (Endpoint, nat), e: Endpoint, data: seq<Byte>, evs: seq<Event>, bytesWritten: nat, passed: nat)
    requires Waiting(total, e, data, evs, bytesWritten, passed) && bytesWritten < |data| && passed < |evs| && e.Valid()
    ensures var e' := Happens(e, evs[passed]);
            if e'.status != Open then total == (e', bytesWritten) else Woken(total, e', data, evs, bytesWritten, passed + 1)
  {
    assert Fold(0);
    var rest, more := data[bytesWritten..], evs[passed..];
    var woken := Happens(e, evs[passed]);
    assert more[0] == evs[passed] && more[1..] == evs[passed + 1..];
    ResumesAfter(total, e, rest, more, bytesWritten);
    if woken.status == Open {
      WaitsAfter(total, woken, data, evs, bytesWritten, passed + 1);
    }
  }

  lemma WaitsAfter(total: (Endpoint, nat), e: Endpoint, data: seq<Byte>, evs: seq<Event>, bytesWritten: nat, passed: nat)
    requires bytesWritten <= |data| && passed <= |evs| && e.Valid() && e.status == Open
    requires |e.written| + |data[bytesWritten..]| + 1 < TWO32
    requires var (e1, n) := e.Write(data[bytesWritten..]);
             && n <= |data[bytesWritten..]| && |e1.written| + |data[bytesWritten..][n..]| + 1 < TWO32
             && Resumes(total, e1, data[bytesWritten..][n..], evs[passed..], bytesWritten + n)
    ensures var (e1, n) := e.Write(data[bytesWritten..]);
            bytesWritten + n <= |data| && Waiting(total, e1, data, evs, bytesWritten + n, passed)
  {
    var (e1, n) := e.Write(data[bytesWritten..]);
    e.Distances();
    e1.Distances();
    assert data[bytesWritten..][n..] == data[bytesWritten + n..];
  }

  lemma WaitsLast(total: (Endpoint, nat), e: Endpoint, data: seq<Byte>, evs: seq<Event>, bytesWritten: nat, passed: nat)
    requires Waiting(total, e, data, evs, bytesWritten, passed)
    requires bytesWritten == |data| || passed == |evs|
    ensures total == (e, bytesWritten) && e.Valid() && |e.written| + 1 < TWO32
    ensures bytesWritten < |data| ==> e.SendBufFreeSpace() == 0
  {
    assert Fold(0);
    ResumesEnds(total, e, data[bytesWritten..], evs[passed..], bytesWritten);
  }

  /** How often something happens that finds the writer waiting and makes room for it. */
  ghost function Rooms(e: Endpoint, data: seq<Byte>, evs: seq<Event>): (k: nat)
    requires e.Valid() && e.status == Open && |e.written| + |data| + 1 < TWO32
    ensures k <= |evs|
    decreases |evs|
  {
    var (e1, n) := e.Write(data);
    if n == |data| || evs == [] then 0
    else
      HappensKeeps(e1, evs[0]);
      var e2 := Happens(e1, evs[0]);
      if e2.status != Open then 0
      else (if e2.SendBufFreeSpace() > 0 then 1 else 0) + Rooms(e2, data[n..], evs[1..])
  }

  /** `VWrite` consumes all its data if space recurs: each time it does, and at the start, at least a byte
      goes, so that it need recur no more often than there are bytes; and while the connection is open it stops
      short only with the buffer full. */
  lemma {:induction false} WriteConsumes(e: Endpoint, data: seq<Byte>, evs: seq<Event>)
    requires e.Valid() && e.status == Open && |e.written| + |data| + 1 < TWO32
    ensures var (f, n) := WriteOver(e, data, evs);
            && Rooms(e, data, evs) + (if data != [] && e.SendBufFreeSpace() > 0 then 1 else 0) <= n
            && (Rooms(e, data, evs) >= |data| ==> n == |data|)
            && (n < |data| && f.status == Open ==> f.SendBufFreeSpace() == 0)
    decreases |evs|
  {
    var (e1, n) := e.Write(data);
    e.Distances();
    e1.Distances();
    if n < |data| && evs != [] {
      HappensKeeps(e1, evs[0]);
      var e2 := Happens(e1, evs[0]);
      if e2.status == Open {
        WriteConsumes(e2, data[n..], evs[1..]);
      }
    }
  }

  // Data of any length can be consumed.

  /** An end at which nothing stands in the way of the writer. */
  ghost predicate Smooth(e: Endpoint, left: nat) {
    && e.Valid() && e.status == Open && NoWrap(e) && e.iss + 1 + |e.written| + left <= TWO32 - 65536
    && e.earlyArrivalQ == multiset{} && e.probe == None && e.expectedSeqNum + 65535 < TWO32 && RingClear(e)
  }

  /** All that was sent is acknowledged, and the window is open. */
  function AllAcked(e: Endpoint): Event {
    Arrival(Segment(e.expectedSeqNum, e.sndNxt, BUFFER_CAPACITY, true, []), [])
  }

  lemma AckHappens(e: Endpoint, left: nat)
    requires Smooth(e, left)
    ensures var e' := Happens(e, AllAcked(e));
            e' == e.(sndUna := e.sndNxt, sndWnd := BUFFER_CAPACITY, inflightQ := e'.inflightQ) && Smooth(e', left)
  {
    WindowTold(e, AllAcked(e).g);
    e.Distances();
  }

  lemma SendHappens(e: Endpoint, left: nat)
    requires Smooth(e, left) && e.sndUna == e.sndNxt < e.iss + 1 + |e.written| && e.sndWnd == BUFFER_CAPACITY
    ensures var e' := Happens(e, SendLoop);
            e' == e.(sndNxt := e'.sndNxt, inflightQ := e'.inflightQ, log := e'.log) && e'.sndNxt > e.sndNxt && Smooth(e', left)
  {
    WindowDistances(e);
    SendShape(e);
  }

  /** With `e` waiting to write `data`, `evs` lead to `e'`. */
  ghost predicate Leads(e: Endpoint, data: seq<Byte>, evs: seq<Event>, e': Endpoint) {
    && e.Valid() && e.status == Open && |e.written| + |data| + 1 < TWO32
    && e'.Valid() && e'.status == Open && |e'.written| + |data| + 1 < TWO32
    && forall rest :: WriteOver(e, data, evs + rest) == WriteOver(e', data, rest)
  }

  lemma LeadsOne(e: Endpoint, data: seq<Byte>, ev: Event)
    requires e.Valid() && e.status == Open && |e.written| + |data| + 1 < TWO32
    requires data != [] && e.SendBufFreeSpace() == 0 && Happens(e, ev).status == Open
    ensures Leads(e, data, [ev], Happens(e, ev))
  {
    HappensKeeps(e, ev);
    forall rest ensures WriteOver(e, data, [ev] + rest) == WriteOver(Happens(e, ev), data, rest) {
      WaitsFor(e, data, [ev] + rest);
      assert ([ev] + rest)[1..] == rest;
    }
  }

  lemma LeadsOn(e: Endpoint, data: seq<Byte>, evs: seq<Event>, e': Endpoint, more: seq<Event>, e'': Endpoint)
    requires Leads(e, data, evs, e') && Leads(e', data, more, e'')
    ensures Leads(e, data, evs + more, e'')
  {
    forall rest ensures WriteOver(e, data, (evs + more) + rest) == WriteOver(e'', data, rest) {
      assert (evs + more) + rest == evs + (more + rest);
    }
  }

  /** With nothing in flight something is sent, and acknowledged. */
  lemma SendMakesRoom(e: Endpoint, data: seq<Byte>) returns (e': Endpoint, evs: seq<Event>)
    requires data != [] && Smooth(e, |data|) && e.SendBufFreeSpace() == 0 && e.sndUna == e.sndNxt && e.sndWnd == BUFFER_CAPACITY
    ensures Smooth(e', |data|) && e'.written == e.written && e'.SendBufFreeSpace() > 0 && Leads(e, data, evs, e')
  {
    e.Distances();
    SendHappens(e, |data|);
    LeadsOne(e, data, SendLoop);
    var t := Happens(e, SendLoop);
    t.Distances();
    AckHappens(t, |data|);
    LeadsOne(t, data, AllAcked(t));
    e' := Happens(t, AllAcked(t));
    e'.Distances();
    evs := [SendLoop] + [AllAcked(t)];
    LeadsOn(e, data, [SendLoop], t, [AllAcked(t)], e');
  }

  /** Some events make room for a writer that waits. */
  lemma RoomCanCome(e: Endpoint, data: seq<Byte>) returns (e': Endpoint, evs: seq<Event>)
    requires data != [] && Smooth(e, |data|) && e.SendBufFreeSpace() == 0
    ensures Smooth(e', |data|) && e'.written == e.written && e'.SendBufFreeSpace() > 0 && Leads(e, data, evs, e')
  {
    AckHappens(e, |data|);
    LeadsOne(e, data, AllAcked(e));
    e', evs := Happens(e, AllAcked(e)), [AllAcked(e)];
    if e'.SendBufFreeSpace() == 0 {
      var u, more := SendMakesRoom(e', data);
      LeadsOn(e, data, evs, e', more, u);
      e', evs := u, evs + more;
    }
  }

  /** So for data of any length something can happen that lets `VWrite` consume it all. */
  lemma {:induction false} LongWrites(e: Endpoint, data: seq<Byte>) returns (evs: seq<Event>)
    requires Smooth(e, |data|)
    ensures WriteOver(e, data, evs).1 == |data|
    decreases |data|, e.SendBufFreeSpace() == 0
  {
    var (e1, n) := e.Write(data);
    if n == |data| {
      evs := [];
    } else if n == 0 {
      e.Distances();
      var e2, first := RoomCanCome(e, data);
      var rest := LongWrites(e2, data);
      evs := first + rest;
    } else {
      WriteShape(e, data);
      evs := LongWrites(e1, data[n..]);
      ResumesAfterWrite(e, data, evs);
      assert Fold(0);
    }
  }
}
