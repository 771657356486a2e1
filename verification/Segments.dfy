/** pkg/proto/tcppacket.go, and which segments pkg/tcpstack/state_internal.go accepts and how it trims them. */
module Segments {
  import opened Arith

  const BUFFER_CAPACITY: nat := 65535
  const MTU: nat := 1400
  const MSS: nat := MTU - 20 - 20 // less the TCP and IP headers

  /** The value of a 16-bit window field, and of `windowSize`. */
  type Window = w: nat | w <= 65535

  /** An IP packet is at most 65535 bytes long, so its payload is no longer. */
  type Payload = p: seq<Byte> | |p| <= 65535

  datatype Segment = Segment(seqNum: U32, ackNum: U32, window: Window, isAck: bool, payload: Payload)

  /** `isValidSeg`, with Go's plain comparisons of sums that may have wrapped. */
  predicate IsValidSeg(g: Segment, rcvNxt: U32, rcvWnd: Window) {
    var segLen := |g.payload|;
    if segLen == 0 && rcvWnd == 0 then
      g.seqNum == rcvNxt
    else if segLen == 0 then
      g.seqNum >= rcvNxt && g.seqNum < Add(rcvNxt, rcvWnd)
    else if rcvWnd == 0 then
      false
    else
      var last := Sub(Add(g.seqNum, segLen), 1);
      || (g.seqNum >= rcvNxt && g.seqNum < Add(rcvNxt, rcvWnd))
      || (last >= rcvNxt && last < Add(rcvNxt, rcvWnd))
  }

  /** `x` lies in the `n` sequence numbers from `base` on, counting modulo 2^32. */
  predicate Within(x: U32, base: U32, n: nat) {
    (x - base) % TWO32 < n
  }

  /** The four-case acceptability test of section 3.4 of RFC 9293. */
  predicate Acceptable(g: Segment, rcvNxt: U32, rcvWnd: Window) {
    if |g.payload| == 0 && rcvWnd == 0 then g.seqNum == rcvNxt
    else if |g.payload| == 0 then Within(g.seqNum, rcvNxt, rcvWnd)
    else if rcvWnd == 0 then false
    else Within(g.seqNum, rcvNxt, rcvWnd) || Within((g.seqNum + |g.payload| - 1) % TWO32, rcvNxt, rcvWnd)
  }

  /** Where the window's right edge does not wrap the two tests agree on every segment; where it
      does, the code turns away exactly what it should have taken. */
  lemma ValidityAgrees(g: Segment, rcvNxt: U32, rcvWnd: Window)
    ensures IsValidSeg(g, rcvNxt, rcvWnd)
            <==> Acceptable(g, rcvNxt, rcvWnd) && (rcvWnd == 0 || rcvNxt + rcvWnd < TWO32)
  {
    assert Sub(Add(g.seqNum, |g.payload|), 1) == (g.seqNum + |g.payload| - 1) % TWO32;
  }

  /** So the code's test is the standard's, for all segments, if and only if the edge stays below 2^32. */
  lemma ValidityIsStandardIff(rcvNxt: U32, rcvWnd: Window)
    ensures (forall g: Segment :: IsValidSeg(g, rcvNxt, rcvWnd) <==> Acceptable(g, rcvNxt, rcvWnd))
            <==> rcvWnd == 0 || rcvNxt + rcvWnd < TWO32
  {
    forall g: Segment {
      ValidityAgrees(g, rcvNxt, rcvWnd);
    }
    var probe := Segment(rcvNxt, 0, 0, true, []);
    assert Acceptable(probe, rcvNxt, rcvWnd);
  }

  /** What a Go slice expression leaves: the bytes, or a run-time panic when the bounds cross. */
  datatype Slice = Bytes(data: seq<Byte>) | OutOfBounds

  /** The trimming in `handleSeqNum` of a segment that does not start beyond `rcvNxt`. */
  function Trim(g: Segment, rcvNxt: U32, rcvWnd: nat): Slice
    requires g.seqNum <= rcvNxt
  {
    var start := if g.seqNum < rcvNxt then rcvNxt - g.seqNum else 0;
    var end := Min(|g.payload|, rcvWnd);
    if start > end then OutOfBounds else Bytes(g.payload[start..end])
  }

  /** The bytes of the segment whose sequence numbers the window holds. */
  function InWindow(g: Segment, rcvNxt: U32, rcvWnd: nat): seq<Byte>
    requires g.seqNum <= rcvNxt <= g.seqNum + |g.payload|
  {
    g.payload[rcvNxt - g.seqNum..Min(|g.payload|, rcvNxt + rcvWnd - g.seqNum)]
  }

  /** The right end is cut as if the segment started at `rcvNxt`. For an accepted segment the
      result is the segment's part in the window exactly when it does start there or is no longer
      than the window, and the slice panics exactly when it starts more than a window early. */
  lemma TrimExactIff(g: Segment, rcvNxt: U32, rcvWnd: Window)
    requires IsValidSeg(g, rcvNxt, rcvWnd) && g.seqNum <= rcvNxt && g.seqNum + |g.payload| <= TWO32
    ensures rcvNxt <= g.seqNum + |g.payload|
    ensures Trim(g, rcvNxt, rcvWnd) == Bytes(InWindow(g, rcvNxt, rcvWnd))
            <==> g.seqNum == rcvNxt || |g.payload| <= rcvWnd
    ensures Trim(g, rcvNxt, rcvWnd) == OutOfBounds <==> rcvNxt - g.seqNum > rcvWnd
  {
    if g.seqNum < rcvNxt && |g.payload| > rcvWnd && Trim(g, rcvNxt, rcvWnd).Bytes? {
      assert |Trim(g, rcvNxt, rcvWnd).data| < |InWindow(g, rcvNxt, rcvWnd)|;
    }
  }
}
