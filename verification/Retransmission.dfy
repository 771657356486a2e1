/** pkg/tcpstack/retransmission.go: the in-flight queue, against the log of everything sent. */
module Retransmission {
  import opened Arith
  import opened Segments

  const MAX_RETRANSMISSIONS: nat := 3

  /** `packetMetadata`, without the clock reading used for the round-trip estimate. */
  datatype Flight = Flight(seg: Segment, length: U32, counter: nat)

  /** `ackInflight`: pop from the front while the front is fully acknowledged. */
  function AckInflight(q: seq<Flight>, ackNum: U32): seq<Flight> {
    if q == [] || Add(q[0].seg.seqNum, q[0].length) > ackNum then q
    else AckInflight(q[1..], ackNum)
  }

  /** One first-time transmission: a data segment, or a zero-window probe, which is never queued. */
  datatype Chunk = Chunk(seqNum: int, payload: seq<Byte>, probe: bool) {
    function End(): int { seqNum + |payload| }
  }

  /** The payloads of the log, in order, are the stream `w`, whose first byte has number `from`. */
  ghost predicate Partition(log: seq<Chunk>, from: int, w: seq<Byte>)
    decreases log
  {
    if log == [] then w == []
    else
      && log[0].seqNum == from && log[0].payload != [] && log[0].payload <= w
      && Partition(log[1..], log[0].End(), w[|log[0].payload|..])
  }

  /** `Partition`, folded away: the solver opens it only where `LaidIff` is called. */
  ghost predicate Laid(log: seq<Chunk>, from: int, w: seq<Byte>) {
    forall k: int :: Fold(k) ==> Partition(log, from, w)
  }

  lemma LaidIff(log: seq<Chunk>, from: int, w: seq<Byte>)
    ensures Laid(log, from, w) <==> Partition(log, from, w)
  {
    assert Fold(0);
  }

  /** No chunk has sequence number `x` strictly inside it. */
  ghost predicate Boundary(log: seq<Chunk>, x: int) {
    forall c :: c in log ==> c.End() <= x || x <= c.seqNum
  }

  lemma {:induction false} PartitionAppend(log: seq<Chunk>, from: int, w: seq<Byte>, c: Chunk)
    requires Partition(log, from, w) && c.payload != [] && c.seqNum == from + |w|
    ensures Partition(log + [c], from, w + c.payload)
  {
    if log == [] {
      assert w + c.payload == c.payload;
      assert c.payload[|c.payload|..] == [];
    } else {
      var n := |log[0].payload|;
      PartitionAppend(log[1..], log[0].End(), w[n..], c);
      assert (log + [c])[1..] == log[1..] + [c];
      assert (w + c.payload)[n..] == w[n..] + c.payload;
    }
  }

  /** Every chunk is the stream slice at its sequence number, and its ends are boundaries. */
  lemma {:induction false} PartitionMember(log: seq<Chunk>, from: int, w: seq<Byte>, c: Chunk)
    requires Partition(log, from, w) && c in log
    ensures c.payload != [] && from <= c.seqNum && c.End() <= from + |w|
    ensures c.payload == w[c.seqNum - from..c.End() - from]
    ensures Boundary(log, c.seqNum) && Boundary(log, c.End())
  {
    var d, n := log[0], |log[0].payload|;
    forall e | e in log[1..] ensures d.End() <= e.seqNum {
      PartitionBounds(log[1..], d.End(), w[n..], e);
    }
    if c != d {
      PartitionMember(log[1..], d.End(), w[n..], c);
      var lo, hi := c.seqNum - from, c.End() - from;
      assert w[n..][lo - n..hi - n] == w[lo..hi];
    } else {
      assert d.payload == w[..n];
    }
    forall e | e in log ensures (e.End() <= c.seqNum || c.seqNum <= e.seqNum) && (e.End() <= c.End() || c.End() <= e.seqNum) {
      if e != d { assert e in log[1..]; }
      if c != d { assert c in log[1..]; }
    }
  }

  lemma {:induction false} PartitionBounds(log: seq<Chunk>, from: int, w: seq<Byte>, c: Chunk)
    requires Partition(log, from, w) && c in log
    ensures from <= c.seqNum && c.End() <= from + |w|
  {
    if c != log[0] {
      PartitionBounds(log[1..], log[0].End(), w[|log[0].payload|..], c);
    }
  }

  /** Every sent byte lies in some chunk. */
  lemma {:induction false} PartitionCovers(log: seq<Chunk>, from: int, w: seq<Byte>, p: int)
    requires Partition(log, from, w) && from <= p < from + |w|
    ensures exists c :: c in log && c.seqNum <= p < c.End()
  {
    if p >= log[0].End() {
      PartitionCovers(log[1..], log[0].End(), w[|log[0].payload|..], p);
    }
  }

  function Concat(log: seq<Chunk>): seq<Byte> {
    if log == [] then [] else log[0].payload + Concat(log[1..])
  }

  /** Segmentation loses, repeats and reorders nothing. */
  lemma {:induction false} PartitionConcat(log: seq<Chunk>, from: int, w: seq<Byte>)
    requires Partition(log, from, w)
    ensures Concat(log) == w
  {
    if log != [] {
      PartitionConcat(log[1..], log[0].End(), w[|log[0].payload|..]);
    }
  }

  /** The data segments of the log not wholly below `una`. */
  function Unacked(log: seq<Chunk>, una: int): seq<Chunk> {
    if log == [] then []
    else if log[0].probe || log[0].End() <= una then Unacked(log[1..], una)
    else [log[0]] + Unacked(log[1..], una)
  }

  /** What the queue holds, as chunks; the recorded length is the payload's. */
  ghost predicate Queued(q: seq<Flight>, chunks: seq<Chunk>) {
    && |q| == |chunks|
    && forall i :: 0 <= i < |q| ==> q[i].length == |q[i].seg.payload|
                                    && chunks[i] == Chunk(q[i].seg.seqNum, q[i].seg.payload, false)
  }

  lemma QueuedAppend(q: seq<Flight>, chunks: seq<Chunk>, seg: Segment, counter: nat)
    requires Queued(q, chunks)
    ensures Queued(q + [Flight(seg, |seg.payload|, counter)], chunks + [Chunk(seg.seqNum, seg.payload, false)])
  {
  }

  lemma {:induction false} UnackedAppend(log: seq<Chunk>, c: Chunk, una: int)
    ensures Unacked(log + [c], una) == Unacked(log, una) + Unacked([c], una)
  {
    if log == [] {
      assert log + [c] == [c];
    } else {
      assert (log + [c])[1..] == log[1..] + [c];
      UnackedAppend(log[1..], c, una);
    }
  }

  lemma {:induction false} UnackedMember(log: seq<Chunk>, una: int, c: Chunk)
    ensures c in Unacked(log, una) <==> c in log && !c.probe && c.End() > una
  {
    if log != [] {
      UnackedMember(log[1..], una, c);
    }
  }

  /** Nothing of a stream that starts at or above `una` is acknowledged. */
  lemma {:induction false} UnackedSame(log: seq<Chunk>, from: int, w: seq<Byte>, una: int, una': int)
    requires Partition(log, from, w) && una <= from && una' <= from
    ensures Unacked(log, una) == Unacked(log, una')
  {
    if log != [] {
      UnackedSame(log[1..], log[0].End(), w[|log[0].payload|..], una, una');
    }
  }

  /** `ackInflight` removes exactly the fully acknowledged segments: if the queue was the unacknowledged
      part of the log before, it is so afterwards for the new acknowledgement. */
  lemma {:induction false} AckInflightExact(q: seq<Flight>, log: seq<Chunk>, from: int, w: seq<Byte>, una: int, ackNum: U32)
    requires Partition(log, from, w) && 0 <= from && from + |w| < TWO32
    requires una <= ackNum && Queued(q, Unacked(log, una))
    ensures Queued(AckInflight(q, ackNum), Unacked(log, ackNum))
  {
    if log != [] {
      var c, rest, w' := log[0], log[1..], w[|log[0].payload|..];
      if c.probe || c.End() <= una {
        AckInflightExact(q, rest, c.End(), w', una, ackNum);
      } else {
        var tail := Unacked(rest, una);
        assert Unacked(log, una)[0] == c;
        forall i | 0 <= i < |q[1..]|
          ensures q[1..][i].length == |q[1..][i].seg.payload| && tail[i] == Chunk(q[1..][i].seg.seqNum, q[1..][i].seg.payload, false)
        {
          assert Unacked(log, una)[i + 1] == tail[i];
        }
        if c.End() <= ackNum {
          AckInflightExact(q[1..], rest, c.End(), w', una, ackNum);
        } else {
          UnackedSame(rest, c.End(), w', una, ackNum);
        }
      }
    }
  }

  /** Coverage: every byte at or above `una` is in a queued segment or was sent as a probe. */
  lemma Covered(q: seq<Flight>, log: seq<Chunk>, from: int, w: seq<Byte>, una: int, p: int)
    requires Partition(log, from, w) && Queued(q, Unacked(log, una)) && from <= p < from + |w| && una <= p
    ensures || (exists i :: 0 <= i < |q| && q[i].seg.seqNum <= p < q[i].seg.seqNum + |q[i].seg.payload|)
            || (exists c :: c in log && c.probe && c.seqNum <= p < c.End())
  {
    PartitionCovers(log, from, w, p);
    var c :| c in log && c.seqNum <= p < c.End();
    UnackedMember(log, una, c);
    if !c.probe {
      var i :| 0 <= i < |Unacked(log, una)| && Unacked(log, una)[i] == c;
      assert q[i].seg.seqNum == c.seqNum;
    }
  }

  /** Order and disjointness of the queue. */
  lemma {:induction false} QueueOrdered(log: seq<Chunk>, from: int, w: seq<Byte>, una: int, i: nat, j: nat)
    requires Partition(log, from, w) && i < j < |Unacked(log, una)|
    ensures Unacked(log, una)[i].End() <= Unacked(log, una)[j].seqNum
  {
    var c, rest, w' := log[0], log[1..], w[|log[0].payload|..];
    if c.probe || c.End() <= una {
      QueueOrdered(rest, c.End(), w', una, i, j);
    } else if i > 0 {
      QueueOrdered(rest, c.End(), w', una, i - 1, j - 1);
    } else {
      var d := Unacked(rest, una)[j - 1];
      UnackedMember(rest, una, d);
      PartitionBounds(rest, c.End(), w', d);
    }
  }
}
