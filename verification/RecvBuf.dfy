/** pkg/tcpstack/recvbuf.go: the circular receive buffer, proved to be a byte FIFO. */
module RecvBuffer {
  import opened Arith
  import opened Ring
  import Wakeups

  /** The ring index `s % capacity` of sequence number `s` keeps stepping by one over the `n`
      numbers from `lbr` on: either no number of the range wraps, or a wrap changes no index. */
  ghost predicate Continuous(lbr: nat, n: nat, capacity: nat)
    requires 0 < capacity
  {
    Slot(TWO32, capacity) == 0 || lbr + n < TWO32
  }

  /** The first alternative of `Continuous` is exact: crossing 2^32 steps to the neighbouring cell
      if and only if the capacity divides 2^32. */
  lemma RingStepsAcrossWrapIff(capacity: nat)
    requires 0 < capacity < TWO32
    ensures Add(TWO32 - 1, 1) % capacity == ((TWO32 - 1) % capacity + 1) % capacity
            <==> TWO32 % capacity == 0
  {
    var last := (TWO32 - 1) % capacity;
    SlotIsMod(TWO32 - 1, capacity);
    SlotIsMod(TWO32, capacity);
    SlotIsMod(last + 1, capacity);
    SlotIsMod(0, capacity);
    SlotForward(TWO32 - 1, 1, capacity);
    SlotForward(last, 1, capacity);
  }

  /** The capacity the connection uses, 65535, does not divide 2^32. */
  lemma UsedCapacityJumps()
    ensures Add(TWO32 - 1, 1) % 65535 != ((TWO32 - 1) % 65535 + 1) % 65535
  {
  }

  lemma TailIndex(lbr: U32, n: U32, capacity: nat)
    requires 0 < capacity < TWO32 && n <= capacity && Continuous(lbr, n, capacity)
    ensures Slot(Add(lbr, n), capacity) == Cell(Slot(lbr, capacity), n, capacity)
  {
    SlotForward(lbr, n, capacity);
    if lbr + n >= TWO32 {
      var k := TWO32 / capacity;
      SlotIsMod(TWO32, capacity);
      assert TWO32 == k * capacity;
      assert Add(lbr, n) == lbr + n - TWO32;
      SlotMultiple(Add(lbr, n), k, capacity);
    }
  }

  /** The cursors after `n` of the bytes up to `last` are consumed. */
  lemma CursorsAfter(capacity: nat, lbr: U32, last: U32, n: U32)
    requires 0 < capacity && n <= Sub(last, lbr) && Continuous(lbr, Sub(last, lbr), capacity)
    ensures Sub(last, Add(lbr, n)) == Sub(last, lbr) - n
    ensures Continuous(Add(lbr, n), Sub(last, lbr) - n, capacity)
  {
  }

  /** And the queue between them, here of `m` bytes. */
  lemma Consumed(cells: seq<Byte>, lbr: U32, m: U32, n: U32)
    requires 0 < |cells| < TWO32 && n <= m <= |cells| && Continuous(lbr, n, |cells|)
    ensures var q := Lap(cells, Slot(lbr, |cells|), m);
            q[..n] == Lap(cells, Slot(lbr, |cells|), n) && q[n..] == Lap(cells, Slot(Add(lbr, n), |cells|), m - n)
  {
    TailIndex(lbr, n, |cells|);
    LapDrop(cells, Slot(lbr, |cells|), m, n);
  }

  /** The cursors after `n` more bytes are stored. */
  lemma Stored(capacity: nat, lbr: U32, nxt: U32, n: U32)
    requires 0 < capacity < TWO32 && 0 < n && Sub(Sub(nxt, 1), lbr) + n <= capacity
    ensures Sub(Sub(Add(nxt, n), 1), lbr) == Sub(Sub(nxt, 1), lbr) + n
    ensures Sub(Sub(Add(nxt, n), 1), lbr) % capacity == 0 <==> Sub(Sub(nxt, 1), lbr) + n == capacity
  {
    SlotIsMod(Sub(Sub(nxt, 1), lbr) + n, capacity);
    assert Slot(capacity, capacity) == Slot(0, capacity);
  }

  /** A FIN makes one unread byte more. */
  lemma FinCounted(capacity: nat, lbr: U32, nxt: U32)
    requires 0 < capacity < TWO32 && Sub(Sub(nxt, 1), lbr) <= capacity
    ensures Sub(Sub(nxt, 1), lbr) + 1 < TWO32 ==> Sub(Sub(Add(nxt, 1), 1), lbr) == Sub(Sub(nxt, 1), lbr) + 1
  {
  }

  datatype ReadOutcome = Parked | Eof | Got(n: nat)

  datatype WriteOutcome = Full | Written(n: nat)

  class RecvBuf {
    const capacity: nat
    const buff: array<Byte>
    var lbr: U32
    var nxt: U32
    var isFull: bool
    var finRecvd: bool
    var canRead: nat // tokens waiting in the channel, whose room is `capacity`

    ghost function Unread(): nat
      reads this
    {
      Sub(Sub(nxt, 1), lbr)
    }

    /** One token per write since the last read, and every write stored a byte: so the channel
        never fills up, and an empty buffer never has a token left over. */
    ghost predicate Valid()
      reads this
    {
      && 0 < capacity == buff.Length < TWO32
      && Unread() <= capacity
      && (isFull <==> Unread() == capacity)
      && Continuous(lbr, Unread(), capacity)
      && canRead <= Unread()
    }

    /** The unread bytes, oldest first. */
    ghost function Contents(): (s: seq<Byte>)
      requires Valid()
      reads this, buff
      ensures |s| == Unread()
    {
      Lap(buff[..], Slot(lbr, capacity), Unread())
    }

    /** The buffer as the token model sees it, with its reader in state `reader`. */
    ghost function Tokens(reader: Wakeups.Thread): Wakeups.RecvSide
      reads this
    {
      Wakeups.RecvSide(capacity, Unread(), canRead, reader, false, false, finRecvd)
    }

    constructor (capacity: nat, start: U32)
      requires 0 < capacity < TWO32
      ensures Valid() && fresh(buff) && this.capacity == capacity
      ensures lbr == start && nxt == Add(start, 1) && !finRecvd && Contents() == []
      ensures canRead == 0
    {
      this.capacity := capacity;
      buff := new Byte[capacity];
      lbr := start;
      nxt := Add(start, 1);
      isFull := false;
      finRecvd := false;
      canRead := 0;
    }

    /** `tail` and `head` as every method below computes them. */
    lemma Indices()
      requires Valid()
      ensures lbr % capacity == Slot(lbr, capacity)
      ensures Sub(nxt, 1) % capacity == Cell(Slot(lbr, capacity), Unread(), capacity)
    {
      SlotIsMod(lbr, capacity);
      SlotIsMod(Sub(nxt, 1), capacity);
      TailIndex(lbr, Unread(), capacity);
      assert Add(lbr, Unread()) == Sub(nxt, 1);
    }

    /** `Read`, up to where it waits for a token. A read that returns bytes takes all tokens with it. */
    method Read(buf: array<Byte>) returns (r: ReadOutcome)
      requires Valid() && buf != buff
      modifies this, buf
      ensures Valid() && nxt == old(nxt) && finRecvd == old(finRecvd)
      ensures r == if buf.Length == 0 then Got(0)
                   else if old(Contents()) != [] then Got(Min(buf.Length, |old(Contents())|))
                   else if old(finRecvd) then Eof else Parked
      ensures var n := if r.Got? then r.n else 0;
              && Contents() == old(Contents())[n..] && buf[..n] == old(Contents())[..n]
              && buf[n..] == old(buf[n..]) && lbr == Add(old(lbr), n)
      ensures canRead == if r.Got? && r.n > 0 then 0 else old(canRead)
      ensures buf.Length > 0 ==>
                Tokens(if r == Parked then Wakeups.Parked else Wakeups.Running)
                == Wakeups.RecvDo(old(Tokens(Wakeups.Running)), Wakeups.CallRead(buf.Length))
    {
      if buf.Length == 0 { return Got(0); }
      if finRecvd && Sub(nxt, 1) == lbr { return Eof; }
      Indices();
      var head, tail := lbr % capacity, Sub(nxt, 1) % capacity;
      if tail == head && !isFull { return Parked; }
      var n := CopyAvailable(buf);
      return Got(n);
    }

    /** A parked reader is handed a token. */
    method TakeToken()
      requires Valid() && canRead > 0
      modifies this`canRead
      ensures Valid() && canRead == old(canRead) - 1 && Contents() == old(Contents())
      ensures Tokens(Wakeups.Woken) == Wakeups.RecvDo(old(Tokens(Wakeups.Parked)), Wakeups.TakeReadToken)
    {
      canRead := canRead - 1;
    }

    /** And goes on without looking again, which is well as long as there is something to read: in every run there
        is (`Wakeups.ReaderAlwaysWoken`). */
    method Resume(buf: array<Byte>) returns (n: nat)
      requires Valid() && buf != buff && buf.Length > 0 && Contents() != []
      modifies this, buf
      ensures n == Min(buf.Length, |old(Contents())|)
      ensures Valid() && nxt == old(nxt) && finRecvd == old(finRecvd) && lbr == Add(old(lbr), n)
      ensures Contents() == old(Contents())[n..]
      ensures buf[..n] == old(Contents())[..n] && buf[n..] == old(buf[n..])
      ensures Tokens(Wakeups.Running) == Wakeups.RecvDo(old(Tokens(Wakeups.Woken)), Wakeups.ResumeRead(buf.Length))
    {
      n := CopyAvailable(buf);
    }

    /** The rest of `Read`. */
    method CopyAvailable(buf: array<Byte>) returns (n: nat)
      requires Valid() && buf != buff && buf.Length > 0 && Contents() != []
      modifies this, buf
      ensures n == Min(buf.Length, |old(Contents())|)
      ensures Valid() && nxt == old(nxt) && finRecvd == old(finRecvd) && lbr == Add(old(lbr), n)
      ensures Contents() == old(Contents())[n..]
      ensures buf[..n] == old(Contents())[..n] && buf[n..] == old(buf[n..]) && canRead == 0
    {
      Indices();
      var head, tail := lbr % capacity, Sub(nxt, 1) % capacity;
      var avail := if tail > head then tail - head else capacity - head + tail;
      n := Min(avail, buf.Length);
      Take(head, n, buf);
    }

    /** The copying part of `Read`. */
    method Take(head: nat, n: nat, buf: array<Byte>)
      requires Valid() && buf != buff && head == Slot(lbr, capacity) && 0 < n <= Min(Unread(), buf.Length)
      modifies this, buf
      ensures Valid() && nxt == old(nxt) && finRecvd == old(finRecvd) && lbr == Add(old(lbr), n)
      ensures Contents() == old(Contents())[n..] && canRead == 0
      ensures buf[..n] == old(Contents())[..n] && buf[n..] == old(buf[n..])
    {
      Consumed(buff[..], lbr, Unread(), n);
      CopyOut(buff, head, n, buf);
      Advance(n);
    }

    method Advance(n: nat)
      requires Valid() && 0 < n <= Unread()
      modifies this
      ensures Valid() && nxt == old(nxt) && finRecvd == old(finRecvd) && lbr == Add(old(lbr), n)
      ensures Contents() == old(Contents())[n..] && canRead == 0
    {
      ghost var was, unread, cells := lbr, Unread(), buff[..];
      isFull := false;
      lbr := Add(lbr, n);
      canRead := 0;
      CursorsAfter(capacity, was, Sub(nxt, 1), n);
      Consumed(cells, was, unread, n);
    }

    /** The bytes go where they should and are counted whether or not their numbers cross 2^32; but the ring
        is a queue afterwards if and only if they do not, or the capacity divides 2^32. One token is left for the
        reader, for which the channel has room. */
    method Write(buf: seq<Byte>) returns (r: WriteOutcome)
      requires Valid()
      modifies this, buff
      ensures lbr == old(lbr) && finRecvd == old(finRecvd)
      ensures r == if buf == [] then Written(0)
                   else if |old(Contents())| == capacity then Full
                   else Written(Min(|buf|, capacity - |old(Contents())|))
      ensures var n := if r.Written? then r.n else 0;
              && nxt == Add(old(nxt), n) && (Valid() <==> Continuous(lbr, |old(Contents())| + n, capacity))
              && (Valid() ==> Contents() == old(Contents()) + buf[..n])
              && canRead == (if n > 0 then old(canRead) + 1 else old(canRead))
              && forall reader :: n > 0 ==> Tokens(reader) == Wakeups.RecvDo(old(Tokens(reader)), Wakeups.Arrive(n))
    {
      if |buf| == 0 { return Written(0); }
      Indices();
      var head, tail := lbr % capacity, Sub(nxt, 1) % capacity;
      if isFull { return Full; }
      var avail := if tail >= head then capacity - tail + head else head - tail;
      assert avail == capacity - Unread();
      var data := if |buf| > avail then buf[..avail] else buf;
      Store(head, tail, data);
      return Written(|data|);
    }

    /** The copying part of `Write`, once the data is known to fit. */
    method Store(head: nat, tail: nat, data: seq<Byte>)
      requires Valid() && 0 < |data| <= capacity - Unread()
      requires head == Slot(lbr, capacity) && tail == Cell(head, Unread(), capacity)
      modifies this, buff
      ensures lbr == old(lbr) && finRecvd == old(finRecvd) && nxt == Add(old(nxt), |data|)
      ensures canRead == old(canRead) + 1 && Unread() == old(Unread()) + |data|
      ensures Valid() <==> Continuous(lbr, |old(Contents())| + |data|, capacity)
      ensures Valid() ==> Contents() == old(Contents()) + data
    {
      CopyIn(buff, head, tail, data, Unread());
      Stored(capacity, lbr, nxt, |data|);
      nxt := Add(nxt, |data|);
      canRead := canRead + 1;
      if Sub(Sub(nxt, 1), lbr) % capacity == 0 { isFull := true; }
    }

    /** What a FIN with sequence number `num` does. The FIN takes a place in the ring as if it were a
        byte, so the reader finds one byte after the data; and unless the buffer has room for two more,
        the ring is no longer a queue: with `capacity - 1` bytes in it, it now looks empty. */
    method AdvanceNxt(num: U32, isFin: bool)
      requires Valid()
      modifies this`nxt, this`finRecvd
      ensures nxt == Add(num, 1) && finRecvd == isFin
      ensures var was := old(Contents());
              num == old(nxt) && Continuous(lbr, |was| + 1, capacity) ==>
                && (Valid() <==> |was| + 1 < capacity)
                && (Valid() && isFin && !old(finRecvd) ==>
                      forall reader :: Tokens(reader) == Wakeups.RecvDo(old(Tokens(reader)), Wakeups.Fin))
                && (Valid() ==> |Contents()| == |was| + 1 && Contents()[..|was|] == was)
                && (|was| + 1 == capacity ==> Unread() == capacity && !isFull)
    {
      ghost var unread, from, cells, was := Unread(), nxt, buff[..], Contents();
      finRecvd := isFin;
      nxt := Add(num, 1);
      if num == from && Continuous(lbr, unread + 1, capacity) {
        FinCounted(capacity, lbr, from);
        if unread + 1 < capacity {
          LapDrop(cells, Slot(lbr, capacity), unread + 1, unread);
        }
      }
    }

    /** The bytes available to read. */
    function WindowSize(): (n: nat)
      requires Valid()
      reads this, buff
      ensures n == |Contents()|
    {
      Indices();
      var head, tail := lbr % capacity, Sub(nxt, 1) % capacity;
      if head == tail then if isFull then capacity else 0
      else if head > tail then capacity - head + tail
      else tail - head
    }

    /** The room left to write. */
    function FreeSpace(): (n: nat)
      requires Valid()
      reads this, buff
      ensures n == capacity - |Contents()| && WindowSize() + n == capacity
    {
      Indices();
      var head, tail := lbr % capacity, Sub(nxt, 1) % capacity;
      if head == tail then if isFull then 0 else capacity
      else if tail < head then head - tail
      else capacity - tail + head
    }

    /** A copy of the unread bytes. */
    function Bytes(): (s: seq<Byte>)
      requires Valid()
      reads this, buff
      ensures s == Contents()
    {
      Indices();
      var head, tail := lbr % capacity, Sub(nxt, 1) % capacity;
      if head == tail then if isFull then buff[head..] + buff[..tail] else []
      else if tail > head then buff[head..tail]
      else
        var n := capacity - head + tail;
        // tail < head, so head + n >= capacity: the source's one-piece copy is never taken here
        buff[head..capacity] + buff[..n - (capacity - head)]
    }
  }
}
