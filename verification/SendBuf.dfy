/** pkg/tcpstack/sendbuf.go: the send ring, indexed relative to the initial sequence number. */
module SendBuffer {
  import opened Arith
  import opened Ring

  /** `cells` holds the last lap of the stream `w`; position 0 of the ring belongs to the SYN. */
  ghost predicate Holds(cells: seq<Byte>, w: seq<Byte>)
    requires 0 < |cells|
  {
    var k := Min(|w|, |cells|);
    Lap(cells, Slot(|w| - k + 1, |cells|), k) == w[|w| - k..]
  }

  lemma HoldsLap(cells: seq<Byte>, w: seq<Byte>, from: nat, n: nat)
    requires 0 < |cells| && Holds(cells, w)
    requires |w| - |cells| <= from && from + n <= |w|
    ensures n <= |cells| && Lap(cells, Slot(from + 1, |cells|), n) == w[from..from + n]
  {
    var k := Min(|w|, |cells|);
    var lo := |w| - k;
    assert Lap(cells, Slot(lo + 1, |cells|), k) == w[lo..];
    SlotForward(lo + 1, from - lo, |cells|);
    assert lo + 1 + (from - lo) == from + 1;
    PartOfLap(cells, Slot(lo + 1, |cells|), Slot(from + 1, |cells|), k, w, lo, from, n);
  }

  lemma PartOfLap(cells: seq<Byte>, head: nat, at: nat, k: nat, w: seq<Byte>, lo: nat, from: nat, n: nat)
    requires head < |cells| && k <= |cells| && lo + k == |w| && lo <= from && from + n <= |w|
    requires at == Cell(head, from - lo, |cells|) && Lap(cells, head, k) == w[lo..]
    ensures Lap(cells, at, n) == w[from..from + n]
  {
    LapSlice(cells, head, k, from - lo, n);
    SliceOfDrop(w, lo, from, n);
  }

  lemma SliceOfDrop(w: seq<Byte>, lo: nat, from: nat, n: nat)
    requires lo <= from && from + n <= |w|
    ensures w[lo..][from - lo..from - lo + n] == w[from..from + n]
  {
  }

  lemma DropConcat(w: seq<Byte>, data: seq<Byte>, from: nat)
    requires from <= |w|
    ensures (w + data)[from..] == w[from..|w|] + data
  {
  }

  lemma HoldsAppend(cells: seq<Byte>, w: seq<Byte>, data: seq<Byte>, n: nat)
    requires 0 < |cells| && |data| <= |cells| && n == Min(|w|, |cells| - |data|)
    requires Lap(cells, Slot(|w| - n + 1, |cells|), n + |data|) == w[|w| - n..|w|] + data
    ensures Holds(cells, w + data)
  {
    assert Min(|w + data|, |cells|) == n + |data|;
    DropConcat(w, data, |w| - n);
  }

  lemma HoldsAfterCopy(cells: seq<Byte>, cells': seq<Byte>, w: seq<Byte>, data: seq<Byte>, n: nat)
    requires 0 < |cells| == |cells'| && Holds(cells, w) && |data| <= |cells|
    requires n == Min(|w|, |cells| - |data|)
    requires Lap(cells', Slot(|w| - n + 1, |cells|), n + |data|) == Lap(cells, Slot(|w| - n + 1, |cells|), n) + data
    ensures Holds(cells', w + data)
  {
    HoldsLap(cells, w, |w| - n, n);
    HoldsAppend(cells', w, data, n);
  }

  /** The copies of a write at `tail`, one or two pieces, where `n` bytes from `head` on stay. */
  method CopyWrap(cells: array<Byte>, ghost head: nat, tail: nat, data: seq<Byte>, ghost n: nat)
    requires head < cells.Length && n + |data| <= cells.Length && tail < cells.Length
    requires tail == Cell(head, n, cells.Length)
    modifies cells
    ensures Lap(cells[..], head, n + |data|) == Lap(old(cells[..]), head, n) + data
  {
    if tail + |data| <= cells.Length {
      forall i | 0 <= i < |data| { cells[tail + i] := data[i]; }
    } else {
      var firstHalf := cells.Length - tail;
      forall i | 0 <= i < firstHalf { cells[tail + i] := data[i]; }
      forall i | 0 <= i < |data| - firstHalf { cells[i] := data[firstHalf + i]; }
    }
    LapAppend(old(cells[..]), cells[..], head, n, data);
  }

  /** A write at the cell after the last one in use adds to the stream held. */
  method Store(cells: array<Byte>, tail: nat, data: seq<Byte>, ghost w: seq<Byte>)
    requires 0 < cells.Length && Holds(cells[..], w) && |data| <= cells.Length
    requires var n := Min(|w|, cells.Length - |data|); tail == Cell(Slot(|w| - n + 1, cells.Length), n, cells.Length)
    modifies cells
    ensures Holds(cells[..], w + data)
  {
    ghost var n := Min(|w|, cells.Length - |data|);
    ghost var head := Slot(|w| - n + 1, cells.Length);
    ghost var before := cells[..];
    CopyWrap(cells, head, tail, data, n);
    HoldsAfterCopy(before, cells[..], w, data, n);
  }

  class SendBuf {
    const capacity: nat
    const buf: array<Byte>
    const iss: U32
    var lbw: U32
    var hasUnsentC: nat // tokens waiting in each channel
    var freespaceC: nat
    ghost var written: seq<Byte> // every byte accepted so far

    /** Fewer than 2^32 bytes so far; `lbw` itself may have wrapped. */
    ghost predicate Valid()
      reads this, buf
    {
      && 0 < capacity == buf.Length < TWO32
      && |written| + 1 < TWO32
      && lbw == Add(iss, 1 + |written|)
      && Holds(buf[..], written)
    }

    constructor (capacity: nat, iss: U32)
      requires 0 < capacity < TWO32
      ensures Valid() && fresh(buf) && written == [] && this.iss == iss && this.capacity == capacity
      ensures hasUnsentC == freespaceC == 0
    {
      this.capacity := capacity;
      buf := new Byte[capacity];
      this.iss := iss;
      lbw := Add(iss, 1);
      hasUnsentC := 0;
      freespaceC := 0;
      written := [];
    }

    function Index(num: U32): (i: nat)
      requires 0 < capacity
      ensures i < capacity
    {
      Sub(num, iss) % capacity
    }

    lemma IndexIsSlot(num: U32)
      requires 0 < capacity
      ensures Index(num) == Slot(Sub(num, iss), capacity)
    {
      SlotIsMod(Sub(num, iss), capacity);
    }

    lemma NextCell(n: nat)
      requires Valid() && n <= |written| && n <= capacity
      ensures Index(lbw) == Cell(Slot(|written| - n + 1, capacity), n, capacity)
    {
      IndexIsSlot(lbw);
      SlotForward(|written| - n + 1, n, capacity);
    }

    /** The copying part of `writeToSendBuf`. */
    method Append(data: seq<Byte>)
      requires Valid() && |data| <= capacity && |written| + |data| + 1 < TWO32
      modifies this, buf
      ensures Valid() && written == old(written) + data && hasUnsentC == old(hasUnsentC) + 1
      ensures freespaceC == old(freespaceC)
    {
      var lbwIdx := Index(lbw);
      NextCell(Min(|written|, capacity - |data|));
      Store(buf, lbwIdx, data, written);
      written := written + data;
      lbw := Add(lbw, |data|);
      hasUnsentC := hasUnsentC + 1;
    }

    /** The copying part of `bytesNotSent`: the stream bytes from sequence number `nxt` on. */
    method Slice(nxt: U32, numBytes: nat) returns (ret: seq<Byte>)
      requires Valid() && numBytes <= capacity
      requires 1 <= Sub(nxt, iss) && |written| - capacity < Sub(nxt, iss)
      requires Sub(nxt, iss) - 1 + numBytes <= |written|
      ensures ret == written[Sub(nxt, iss) - 1..Sub(nxt, iss) - 1 + numBytes]
    {
      var nxtIdx := Index(nxt);
      IndexIsSlot(nxt);
      HoldsLap(buf[..], written, Sub(nxt, iss) - 1, numBytes);
      if nxtIdx + numBytes <= capacity {
        ret := buf[nxtIdx..nxtIdx + numBytes];
      } else {
        var firstHalf := capacity - nxtIdx;
        ret := buf[nxtIdx..] + buf[..numBytes - firstHalf];
      }
    }
  }
}
