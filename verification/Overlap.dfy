/** When the merge in `handleSeqNum` goes wrong, and what it then hands on. It starts at the segment's own
    sequence number plus the length kept, which is the next byte only for a segment that starts at
    `expectedSeqNum`. Between two ends as modelled in Transfer.dfy no other segment is accepted; a peer
    that cuts its retransmissions differently sends such segments. */
module Overlap {
  import opened Arith
  import opened Segments
  import opened Reassembly
  import opened Endpoints

  /** The bytes of `w` with sequence numbers from `from` on, `k` of them. */
  ghost predicate BytesAt(w: seq<Byte>, base: int, from: int, k: nat, data: seq<Byte>) {
    base <= from && from - base + k <= |w| && data == w[from - base..from - base + k]
  }

  lemma PieceSplits(kept: seq<Byte>, more: seq<Byte>, w: seq<Byte>, base: U32, from: int)
    requires IsPiece(kept, w, base, from)
    ensures IsPiece(kept + more, w, base, from) <==> BytesAt(w, base, from + |kept|, |more|, more)
  {
    var lo, mid, hi := from - base, from - base + |kept|, from - base + |kept| + |more|;
    if hi <= |w| {
      assert w[lo..mid] + w[mid..hi] == w[lo..hi];
      assert (kept + more)[|kept|..] == more;
      assert w[lo..hi][|kept|..] == w[mid..hi];
    }
  }

  /** The slice kept of an early-starting segment of the stream is the piece of the stream at `nxt`. */
  lemma KeptIsPiece(g: Segment, nxt: U32, wnd: nat, w: seq<Byte>, base: U32)
    requires Carries(g, w, base) && g.seqNum <= nxt && Trim(g, nxt, wnd).Bytes?
    ensures IsPiece(Trim(g, nxt, wnd).data, w, base, nxt)
  {
    var start, end := nxt - g.seqNum, Min(|g.payload|, wnd);
    SubSlice(w, g.seqNum - base, g.seqNum - base + |g.payload|, start, end);
  }

  /** `handed` is what `handleSeqNum` hands on of a segment that starts `lead` before `expectedSeqNum`,
      having kept `kept`; `at` is where it started the merge. */
  ghost predicate Repeats(handed: seq<Byte>, kept: seq<Byte>, at: int, k: nat, w: seq<Byte>, base: int) {
    && base <= at && at - base + k <= |w|
    && handed == kept + w[at - base..at - base + k]
  }

  lemma SoundFromNothing(order: seq<Segment>, at: U32, left: nat, w: seq<Byte>, base: U32)
    requires base + |w| < TWO32 && AllCarry(order, w, base) && IsPiece([], w, base, at)
    ensures var m := Aggregate(order, [], at, left); m.Merged? ==> IsPiece(m.data, w, base, at)
  {
    var none: seq<Byte> := [];
    assert at + |none| == at;
    AggregateSound(order, none, at, left, w, base);
  }

  lemma AfterKept(m: Merge, more: Merge, kept: seq<Byte>, at: int, w: seq<Byte>, base: U32)
    requires m.Merged? ==> more.Merged? && m.data == kept + more.data && IsPiece(more.data, w, base, at)
    ensures m.Merged? ==> |m.data| >= |kept| && Repeats(m.data, kept, at, |m.data| - |kept|, w, base)
  {
  }

  /** The merge alone, with some window left. */
  lemma MergeRepeats(order: seq<Segment>, kept: seq<Byte>, at: U32, left: nat, w: seq<Byte>, base: U32)
    requires base + |w| < TWO32 && AllCarry(order, w, base) && IsPiece([], w, base, at)
    ensures var m := Aggregate(order, kept, at, left);
            m.Merged? ==> |m.data| >= |kept| && Repeats(m.data, kept, at, |m.data| - |kept|, w, base)
  {
    AggregateAppends(order, kept, at, left);
    SoundFromNothing(order, at, left, w, base);
    AfterKept(Aggregate(order, kept, at, left), Aggregate(order, [], at, left), kept, at, w, base);
  }

  lemma MergeAppendsIff(order: seq<Segment>, kept: seq<Byte>, at: U32, left: nat, w: seq<Byte>, base: U32)
    requires base + |w| < TWO32 && AllCarry(order, w, base) && 0 < left && at + left < TWO32
    ensures var m, first := Aggregate(order, kept, at, left), FirstBeyond(order, at);
            m.Merged? ==> |m.data| >= |kept| && (|m.data| > |kept| <==> first.Some? && first.value.seqNum <= at)
  {
    AggregateAppends(order, kept, at, left);
    if Aggregate(order, [], at, left).Merged? {
      forall g | g in order ensures g.seqNum + |g.payload| < TWO32 {
        assert Carries(g, w, base);
      }
      AppendsIff(order, at, left);
    }
  }

  /** What a merge hands on that started `lead` before the byte after `kept`. */
  ghost predicate HandedOn(data: seq<Byte>, order: seq<Segment>, kept: seq<Byte>, at: int, lead: nat, wnd: nat, w: seq<Byte>, base: U32, nxt: int) {
    var k := |data| - |kept|;
    && k >= 0 && Repeats(data, kept, at, k, w, base)
    && (k > 0 <==> |kept| < wnd && FirstBeyond(order, at).Some? && FirstBeyond(order, at).value.seqNum <= at)
    && (IsPiece(data, w, base, nxt) <==> k == 0 || BytesAt(w, base, at + lead, k, w[at - base..at - base + k]))
  }

  lemma MergeHandsOn(order: seq<Segment>, kept: seq<Byte>, at: U32, lead: nat, wnd: nat, w: seq<Byte>, base: U32, nxt: int)
    requires base + |w| < TWO32 && AllCarry(order, w, base) && |kept| <= wnd && at + wnd < TWO32
    requires base <= at && at - base <= |w| && IsPiece(kept, w, base, nxt) && nxt + |kept| == at + lead
    ensures var m := AggregateEarlyArrivals(order, kept, at, wnd);
            m.Merged? ==> HandedOn(m.data, order, kept, at, lead, wnd, w, base, nxt)
  {
    var m, left := AggregateEarlyArrivals(order, kept, at, wnd), wnd - |kept|;
    if left > 0 {
      assert IsPiece([], w, base, at);
      MergeRepeats(order, kept, at, left, w, base);
      MergeAppendsIff(order, kept, at, left, w, base);
    } else {
      assert kept + w[at - base..at - base] == kept;
    }
    if m.Merged? {
      var k := |m.data| - |kept|;
      PieceSplits(kept, w[at - base..at - base + k], w, base, nxt);
    }
  }

  /** For every accepted segment of a stream that starts before `expectedSeqNum`, and every order of the
      early arrivals of that stream: what is handed on is what was kept, followed by `k` bytes of the
      stream from where the merge started, `lead` too early. Something follows if and only if the first
      head that does not end below that place reaches it; and what is handed on continues the stream if
      and only if nothing follows, or those bytes happen to equal the ones `lead` further on. */
  lemma OverlapHandsOn(e: Endpoint, g: Segment, order: seq<Segment>, w: seq<Byte>, base: U32)
    requires e.Valid() && multiset(order) == e.earlyArrivalQ && e.expectedSeqNum + 2 * BUFFER_CAPACITY < TWO32
    requires base + |w| < TWO32 && AllCarry(order, w, base) && Carries(g, w, base)
    requires IsValidSeg(g, e.expectedSeqNum, e.windowSize) && g.seqNum < e.expectedSeqNum
    requires Trim(g, e.expectedSeqNum, e.windowSize).Bytes?
    ensures var kept, data := Trim(g, e.expectedSeqNum, e.windowSize).data, e.HandleSeqNum(g, order).1;
            data.Some? ==> HandedOn(data.value, order, kept, g.seqNum + |kept|, e.expectedSeqNum - g.seqNum,
                                    e.windowSize, w, base, e.expectedSeqNum)
  {
    var kept := Trim(g, e.expectedSeqNum, e.windowSize).data;
    KeptIsPiece(g, e.expectedSeqNum, e.windowSize, w, base);
    MergeHandsOn(order, kept, g.seqNum + |kept|, e.expectedSeqNum - g.seqNum, e.windowSize, w, base, e.expectedSeqNum);
    OverlapShape(e, g, order);
  }

  lemma OverlapShape(e: Endpoint, g: Segment, order: seq<Segment>)
    requires e.Valid() && multiset(order) == e.earlyArrivalQ && e.expectedSeqNum + 2 * BUFFER_CAPACITY < TWO32
    requires IsValidSeg(g, e.expectedSeqNum, e.windowSize) && g.seqNum <= e.expectedSeqNum
    requires Trim(g, e.expectedSeqNum, e.windowSize).Bytes?
    ensures var kept := Trim(g, e.expectedSeqNum, e.windowSize).data;
            var m := AggregateEarlyArrivals(order, kept, g.seqNum + |kept|, e.windowSize);
            e.HandleSeqNum(g, order).1 == if m.Merged? then Some(m.data) else None
  {
  }

  /** An instance: a segment from 95 on with an early arrival from 98 on in the queue, when 100 is next. */
  lemma OverlapCorrupts(e: Endpoint)
    requires e.Valid() && e.expectedSeqNum == 100 && e.windowSize == 65535
    requires e.earlyArrivalQ == multiset([Segment(98, 0, 0, true, [98, 99, 100, 101, 102])])
    ensures var g := Segment(95, 0, 0, true, [95, 96, 97, 98, 99, 100, 101, 102, 103, 104]);
            var (e', data, out) := e.HandleSeqNum(g, [Segment(98, 0, 0, true, [98, 99, 100, 101, 102])]);
            data == Some([100, 101, 102, 103, 104, 100, 101, 102])
  {
    var stale := Segment(98, 0, 0, true, [98, 99, 100, 101, 102]);
    var g := Segment(95, 0, 0, true, [95, 96, 97, 98, 99, 100, 101, 102, 103, 104]);
    var kept, again := [100, 101, 102, 103, 104], [100, 101, 102];
    assert g.payload[5..10] == kept && stale.payload[2..5] == again;
    assert Trim(g, 100, 65535) == Bytes(kept);
    assert [stale][1..] == [];
    assert Aggregate([stale], kept, 100, 65530) == Aggregate([], kept + again, 103, 65527);
    assert AggregateEarlyArrivals([stale], kept, 100, 65535) == Merged(kept + again, []);
    assert IsValidSeg(g, 100, 65535);
    assert kept + again == [100, 101, 102, 103, 104, 100, 101, 102];
    assert Add(95, 5) == 100;
  }
}
