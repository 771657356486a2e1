/** pkg/tcpstack/tcp_internal.go: `aggregateEarlyArrivals`, which merges queued early segments. */
module Reassembly {
  import opened Arith
  import opened Segments

  /** How the loop ends. `Spinning`: it goes round for ever without changing anything. */
  datatype Merge = Merged(data: seq<Byte>, rest: seq<Segment>) | Panicked | Spinning

  /** The loop, over the queue in the order in which its heap will surface the segments. */
  function Aggregate(queue: seq<Segment>, data: seq<Byte>, startSeq: U32, avaiWnd: nat): Merge
    decreases |queue|, avaiWnd
  {
    if queue == [] then Merged(data, queue)
    else
      var seg := queue[0];
      var segEnd := Add(seg.seqNum, |seg.payload|);
      if segEnd < startSeq then Aggregate(queue[1..], data, startSeq, avaiWnd)
      else if seg.seqNum > startSeq then Merged(data, queue)
      else
        var start := if seg.seqNum < startSeq then startSeq - seg.seqNum else 0;
        var end := Min(|seg.payload|, avaiWnd);
        if start > end then Panicked
        else
          var trim := seg.payload[start..end];
          var left := avaiWnd - |trim|;
          var next := Add(startSeq, |trim|);
          var rest := if segEnd <= next then queue[1..] else queue;
          if left == 0 then Merged(data + trim, rest)
          else if rest == queue && trim == [] then Spinning
          else Aggregate(rest, data + trim, next, left)
  }

  /** The whole function: nothing is looked at when the window is already used up. */
  function AggregateEarlyArrivals(queue: seq<Segment>, data: seq<Byte>, startSeq: U32, windowSize: nat): Merge
    requires |data| <= windowSize
  {
    if windowSize == |data| then Merged(data, queue)
    else Aggregate(queue, data, startSeq, windowSize - |data|)
  }

  /** The segment carries the bytes of stream `w`, whose first byte has sequence number `base`. */
  ghost predicate Carries(g: Segment, w: seq<Byte>, base: U32) {
    && base <= g.seqNum
    && g.seqNum - base + |g.payload| <= |w|
    && g.payload == w[g.seqNum - base..g.seqNum - base + |g.payload|]
  }

  ghost predicate AllCarry(queue: seq<Segment>, w: seq<Byte>, base: U32) {
    forall g :: g in queue ==> Carries(g, w, base)
  }

  /** `data` is the piece of the stream from sequence number `from` on. */
  ghost predicate IsPiece(data: seq<Byte>, w: seq<Byte>, base: U32, from: int) {
    base <= from && from - base + |data| <= |w| && data == w[from - base..from - base + |data|]
  }

  lemma SubSlice(w: seq<Byte>, lo: nat, hi: nat, start: nat, end: nat)
    requires lo <= hi <= |w| && start <= end <= hi - lo
    ensures w[lo..hi][start..end] == w[lo + start..lo + end]
  {
    var a, b := w[lo..hi][start..end], w[lo + start..lo + end];
    assert |a| == |b| && forall i :: 0 <= i < |a| ==> a[i] == b[i];
  }

  lemma PieceGrows(data: seq<Byte>, w: seq<Byte>, base: U32, from: int, g: Segment, start: nat, end: nat)
    requires IsPiece(data, w, base, from) && Carries(g, w, base)
    requires start <= end <= |g.payload| && g.seqNum + start == from + |data|
    ensures IsPiece(data + g.payload[start..end], w, base, from)
  {
    var off, at := g.seqNum - base, from - base;
    SubSlice(w, off, off + |g.payload|, start, end);
    assert w[at..at + |data|] + w[off + start..off + end] == w[at..off + end];
  }

  /** Soundness: whatever the order of the queue, a merge that ends has only extended the data along
      the stream, within the window, and the queue has only lost segments. */
  lemma {:induction false} AggregateSound(queue: seq<Segment>, data: seq<Byte>, from: U32, avaiWnd: nat, w: seq<Byte>, base: U32)
    requires base + |w| < TWO32 && AllCarry(queue, w, base) && IsPiece(data, w, base, from)
    ensures var m := Aggregate(queue, data, from + |data|, avaiWnd);
            m.Merged? ==>
              && data <= m.data && |m.data| <= |data| + avaiWnd && IsPiece(m.data, w, base, from)
              && |m.rest| <= |queue| && m.rest == queue[|queue| - |m.rest|..]
    decreases |queue|, avaiWnd
  {
    if queue != [] {
      var seg := queue[0];
      var startSeq := from + |data|;
      assert Carries(seg, w, base);
      var segEnd := seg.seqNum + |seg.payload|;
      if segEnd < startSeq {
        AggregateSound(queue[1..], data, from, avaiWnd, w, base);
      } else if seg.seqNum <= startSeq {
        var start, end := startSeq - seg.seqNum, Min(|seg.payload|, avaiWnd);
        if start <= end {
          var trim := seg.payload[start..end];
          PieceGrows(data, w, base, from, seg, start, end);
          var rest := if segEnd <= startSeq + |trim| then queue[1..] else queue;
          if |trim| < avaiWnd && (rest != queue || trim != []) {
            AggregateSound(rest, data + trim, from, avaiWnd - |trim|, w, base);
          }
        }
      }
    }
  }

  /** One turn of a merge that ends, on a head that reaches `startSeq`. */
  lemma MergingTurn(queue: seq<Segment>, data: seq<Byte>, startSeq: U32, avaiWnd: nat)
    requires queue != [] && queue[0].seqNum <= startSeq <= queue[0].seqNum + |queue[0].payload| < TWO32
    requires 0 < avaiWnd && startSeq + avaiWnd < TWO32 && Aggregate(queue, data, startSeq, avaiWnd).Merged?
    ensures startSeq - queue[0].seqNum <= Min(|queue[0].payload|, avaiWnd)
    ensures var trim := queue[0].payload[startSeq - queue[0].seqNum..Min(|queue[0].payload|, avaiWnd)];
            var rest := if queue[0].seqNum + |queue[0].payload| <= startSeq + |trim| then queue[1..] else queue;
            && |trim| <= avaiWnd
            && Aggregate(queue, data, startSeq, avaiWnd)
               == (if |trim| == avaiWnd then Merged(data + trim, rest)
                   else Aggregate(rest, data + trim, startSeq + |trim|, avaiWnd - |trim|))
            && (|trim| < avaiWnd ==> rest == queue[1..] || trim != [])
  {
  }

  /** Nothing that can still be of use is lost: a queued segment that ends beyond what a merge has come to stays,
      and a merge stops only where the window is used up or the next head lies beyond. */
  lemma {:induction false} MergeKeeps(queue: seq<Segment>, data: seq<Byte>, startSeq: U32, avaiWnd: nat)
    requires 0 < avaiWnd && startSeq + avaiWnd < TWO32 && forall h :: h in queue ==> h.seqNum + |h.payload| < TWO32
    requires Aggregate(queue, data, startSeq, avaiWnd).Merged?
    ensures var m := Aggregate(queue, data, startSeq, avaiWnd);
            var end := startSeq + (|m.data| - |data|);
            && startSeq <= end <= startSeq + avaiWnd
            && (forall g :: g in queue && g.seqNum + |g.payload| > end ==> g in m.rest)
            && (end < startSeq + avaiWnd ==> m.rest == [] || m.rest[0].seqNum > end)
    decreases |queue|, avaiWnd
  {
    if queue != [] {
      var seg := queue[0];
      assert seg in queue;
      if seg.seqNum + |seg.payload| < startSeq {
        MergeKeeps(queue[1..], data, startSeq, avaiWnd);
      } else if seg.seqNum <= startSeq {
        MergingTurn(queue, data, startSeq, avaiWnd);
        var trim := seg.payload[startSeq - seg.seqNum..Min(|seg.payload|, avaiWnd)];
        var rest := if seg.seqNum + |seg.payload| <= startSeq + |trim| then queue[1..] else queue;
        if |trim| < avaiWnd {
          MergeKeeps(rest, data + trim, startSeq + |trim|, avaiWnd - |trim|);
        }
      }
    }
  }

  function TotalLength(queue: seq<Segment>): nat {
    if queue == [] then 0 else |queue[0].payload| + TotalLength(queue[1..])
  }

  /** A head that reaches `startSeq` and fits goes whole. */
  lemma FittingTurn(queue: seq<Segment>, data: seq<Byte>, startSeq: U32, avaiWnd: nat)
    requires queue != [] && queue[0].seqNum <= startSeq <= queue[0].seqNum + |queue[0].payload| < TWO32
    requires |queue[0].payload| <= avaiWnd
    ensures var trim := queue[0].payload[startSeq - queue[0].seqNum..];
            var m := Aggregate(queue, data, startSeq, avaiWnd);
            m.Merged? || m == Aggregate(queue[1..], data + trim, startSeq + |trim|, avaiWnd - |trim|)
  {
    var n, lead := |queue[0].payload|, startSeq - queue[0].seqNum;
    assert queue[0].payload[lead..n] == queue[0].payload[lead..];
  }

  /** Fit: if the window has room for all queued bytes the loop neither panics nor spins, for any
      contents; each turn drops the head or is the last. */
  lemma {:induction false} AggregateFits(queue: seq<Segment>, data: seq<Byte>, startSeq: U32, avaiWnd: nat)
    requires TotalLength(queue) <= avaiWnd && startSeq + avaiWnd < TWO32
    requires forall g :: g in queue ==> g.seqNum + |g.payload| < TWO32
    ensures Aggregate(queue, data, startSeq, avaiWnd).Merged?
    decreases |queue|
  {
    if queue != [] {
      var seg := queue[0];
      assert seg in queue;
      if seg.seqNum + |seg.payload| < startSeq {
        AggregateFits(queue[1..], data, startSeq, avaiWnd);
      } else if seg.seqNum <= startSeq {
        var trim := seg.payload[startSeq - seg.seqNum..];
        FittingTurn(queue, data, startSeq, avaiWnd);
        AggregateFits(queue[1..], data + trim, startSeq + |trim|, avaiWnd - |trim|);
      }
    }
  }

  /** Without the fit: a second copy of a merged segment panics when less window is left than it is long. */
  lemma StaleCopyPanics()
    ensures var g := Segment(100, 0, 0, true, [1, 2, 3]);
            AggregateEarlyArrivals([g, g], [], 100, 5) == Panicked
  {
    var g := Segment(100, 0, 0, true, [1, 2, 3]);
    assert Aggregate([g, g][1..], [] + g.payload[0..3], 103, 2) == Panicked;
  }

  /** And a segment that runs past the window, overlapping its start by as many bytes as are left of
      it, is never finished and never dropped. */
  lemma OverlapSpins()
    ensures AggregateEarlyArrivals([Segment(98, 0, 0, true, [1, 2, 3])], [], 100, 2) == Spinning
  {
  }

  /** How a head that reaches `startSeq` fares when it is longer than the window left, exactly: it is
      cut to fit only if it starts there; otherwise the loop panics, or spins when the overlap
      happens to equal what is left. */
  lemma LongHeadIff(queue: seq<Segment>, data: seq<Byte>, startSeq: U32, avaiWnd: nat)
    requires queue != [] && queue[0].seqNum + |queue[0].payload| < TWO32 && startSeq + avaiWnd < TWO32
    requires queue[0].seqNum <= startSeq <= queue[0].seqNum + |queue[0].payload|
    requires 0 < avaiWnd < |queue[0].payload|
    ensures var lead := startSeq - queue[0].seqNum;
            && (Aggregate(queue, data, startSeq, avaiWnd) == Spinning <==> lead == avaiWnd)
            && (Aggregate(queue, data, startSeq, avaiWnd) == Panicked <==> lead > 0 && lead != avaiWnd)
            && (Aggregate(queue, data, startSeq, avaiWnd) == Merged(data + queue[0].payload[..avaiWnd], queue) <==> lead == 0)
  {
    var seg, lead := queue[0], startSeq - queue[0].seqNum;
    assert seg.payload[0..avaiWnd] == seg.payload[..avaiWnd];
    if 0 < lead < avaiWnd {
      var trim := seg.payload[lead..avaiWnd];
      assert Aggregate(queue, data + trim, startSeq + |trim|, lead) == Panicked;
    }
  }

  /** One turn on a head that does not straddle `startSeq` and fits if it starts there: it is merged
      whole, dropped, or left; or it is a stale copy too long for the window left. */
  lemma WholeHeadTurn(queue: seq<Segment>, data: seq<Byte>, startSeq: U32, avaiWnd: nat)
    requires queue != [] && 0 < avaiWnd
    requires queue[0].seqNum + |queue[0].payload| < TWO32 && startSeq + |queue[0].payload| < TWO32
    requires queue[0].seqNum + |queue[0].payload| <= startSeq || startSeq <= queue[0].seqNum
    requires queue[0].seqNum == startSeq ==> |queue[0].payload| <= avaiWnd
    ensures var seg, n := queue[0], |queue[0].payload|;
            Aggregate(queue, data, startSeq, avaiWnd)
            == if startSeq < seg.seqNum then Merged(data, queue)
               else if seg.seqNum + n == startSeq && n > avaiWnd then Panicked
               else if seg.seqNum + n <= startSeq then Aggregate(queue[1..], data, startSeq, avaiWnd)
               else if n == avaiWnd then Merged(data + seg.payload, queue[1..])
               else Aggregate(queue[1..], data + seg.payload, startSeq + n, avaiWnd - n)
  {
    var seg, n := queue[0], |queue[0].payload|;
    assert seg.payload[0..n] == seg.payload;
    if seg.seqNum + n == startSeq && n <= avaiWnd {
      assert data + seg.payload[n..n] == data;
    }
  }

  /** What the loop appends does not depend on what it appends to. */
  lemma {:induction false} AggregateAppends(queue: seq<Segment>, data: seq<Byte>, startSeq: U32, avaiWnd: nat)
    ensures Aggregate(queue, data, startSeq, avaiWnd)
            == match Aggregate(queue, [], startSeq, avaiWnd)
               case Merged(more, rest) => Merged(data + more, rest)
               case Panicked => Panicked
               case Spinning => Spinning
    decreases |queue|, avaiWnd
  {
    if queue != [] {
      var seg := queue[0];
      var segEnd := Add(seg.seqNum, |seg.payload|);
      if segEnd < startSeq {
        AggregateAppends(queue[1..], data, startSeq, avaiWnd);
      } else if seg.seqNum <= startSeq {
        var start, end := startSeq - seg.seqNum, Min(|seg.payload|, avaiWnd);
        if start <= end {
          var trim := seg.payload[start..end];
          var left, next := avaiWnd - |trim|, Add(startSeq, |trim|);
          var rest := if segEnd <= next then queue[1..] else queue;
          assert [] + trim == trim;
          if left != 0 && (rest != queue || trim != []) {
            AggregateAppends(rest, data + trim, next, left);
            AggregateAppends(rest, trim, next, left);
            AppendTwice(data, trim, Aggregate(rest, [], next, left));
          }
        }
      }
    }
  }

  lemma AppendTwice(data: seq<Byte>, trim: seq<Byte>, m: Merge)
    ensures m.Merged? ==> (data + trim) + m.data == data + (trim + m.data)
  {
  }

  /** The first head that does not end at or below `at`. */
  function FirstBeyond(queue: seq<Segment>, at: int): Option<Segment> {
    if queue == [] then None
    else if queue[0].seqNum + |queue[0].payload| > at then Some(queue[0])
    else FirstBeyond(queue[1..], at)
  }

  /** A merge that ends has appended something exactly if that head reaches `startSeq`. */
  lemma {:induction false} AppendsIff(queue: seq<Segment>, startSeq: U32, avaiWnd: nat)
    requires 0 < avaiWnd && startSeq + avaiWnd < TWO32 && Aggregate(queue, [], startSeq, avaiWnd).Merged?
    requires forall g :: g in queue ==> g.seqNum + |g.payload| < TWO32
    ensures var first := FirstBeyond(queue, startSeq);
            Aggregate(queue, [], startSeq, avaiWnd).data != [] <==> first.Some? && first.value.seqNum <= startSeq
    decreases |queue|
  {
    if queue != [] {
      var seg := queue[0];
      assert seg in queue;
      if seg.seqNum + |seg.payload| < startSeq {
        AppendsIff(queue[1..], startSeq, avaiWnd);
      } else if seg.seqNum <= startSeq {
        var start, end := startSeq - seg.seqNum, Min(|seg.payload|, avaiWnd);
        var trim := seg.payload[start..end];
        assert [] + trim == trim;
        if start == |seg.payload| {
          assert trim == [];
          AppendsIff(queue[1..], startSeq, avaiWnd);
        } else if |trim| < avaiWnd {
          var rest := if seg.seqNum + |seg.payload| <= startSeq + |trim| then queue[1..] else queue;
          AggregateAppends(rest, trim, startSeq + |trim|, avaiWnd - |trim|);
        }
      }
    }
  }
}
