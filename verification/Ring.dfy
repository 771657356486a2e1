/** Cells of a ring, and the one- or two-piece copies both buffers make. */
module Ring {
  import opened Arith

  /** `n` cells from `head` on, going round. */
  function Lap(cells: seq<Byte>, head: nat, n: nat): (s: seq<Byte>)
    requires head < |cells| && n <= |cells|
    ensures |s| == n
  {
    if head + n <= |cells| then cells[head..head + n] else cells[head..] + cells[..head + n - |cells|]
  }

  lemma LapAt(cells: seq<Byte>, head: nat, n: nat, i: nat)
    requires head < |cells| && i < n <= |cells|
    ensures Lap(cells, head, n)[i] == cells[Cell(head, i, |cells|)]
  {
  }

  lemma LapSlice(cells: seq<Byte>, head: nat, n: nat, from: nat, k: nat)
    requires head < |cells| && from + k <= n <= |cells|
    ensures Lap(cells, Cell(head, from, |cells|), k) == Lap(cells, head, n)[from..from + k]
  {
    var a, b := Lap(cells, Cell(head, from, |cells|), k), Lap(cells, head, n)[from..from + k];
    forall i | 0 <= i < k ensures a[i] == b[i] {
      LapAt(cells, Cell(head, from, |cells|), k, i);
      LapAt(cells, head, n, from + i);
      CellCell(head, from, i, |cells|);
    }
  }

  lemma CellCell(head: nat, i: nat, j: nat, m: nat)
    requires head < m && i + j <= m
    ensures Cell(Cell(head, i, m), j, m) == Cell(head, i + j, m)
  {
  }

  lemma LapDrop(cells: seq<Byte>, head: nat, n: nat, k: nat)
    requires head < |cells| && k <= n <= |cells|
    ensures Lap(cells, head, n)[..k] == Lap(cells, head, k)
    ensures Lap(cells, head, n)[k..] == Lap(cells, Cell(head, k, |cells|), n - k)
  {
    LapSlice(cells, head, n, 0, k);
    LapSlice(cells, head, n, k, n - k);
  }

  lemma LapAppend(cells: seq<Byte>, cells': seq<Byte>, head: nat, n: nat, data: seq<Byte>)
    requires head < |cells| == |cells'| && n + |data| <= |cells|
    requires Lap(cells', head, n) == Lap(cells, head, n)
    requires Lap(cells', Cell(head, n, |cells|), |data|) == data
    ensures Lap(cells', head, n + |data|) == Lap(cells, head, n) + data
  {
    LapDrop(cells', head, n + |data|, n);
  }

  /** The copies of a read of `n` bytes: one slice, or two when the end of the ring comes first. */
  method CopyOut(cells: array<Byte>, head: nat, n: nat, buf: array<Byte>)
    requires buf != cells && head < cells.Length && n <= cells.Length && n <= buf.Length
    modifies buf
    ensures buf[..n] == Lap(cells[..], head, n) && buf[n..] == old(buf[n..])
  {
    var capacity, end := cells.Length, head + n;
    if end <= capacity {
      forall i | 0 <= i < n { buf[i] := cells[head + i]; }
    } else {
      DivModUnique(end, 1, end - capacity, capacity);
      forall i | 0 <= i < capacity - head { buf[i] := cells[head + i]; }
      forall i | 0 <= i < end % capacity { buf[capacity - head + i] := cells[i]; }
    }
  }

  /** The copies of a write at `tail`, where `n` bytes from `head` on are in use. */
  method CopyIn(cells: array<Byte>, head: nat, tail: nat, buf: seq<Byte>, ghost n: nat)
    requires head < cells.Length && n + |buf| <= cells.Length && tail == Cell(head, n, cells.Length)
    requires buf != []
    modifies cells
    ensures Lap(cells[..], head, n + |buf|) == old(Lap(cells[..], head, n)) + buf
  {
    if tail >= head {
      var tailSpace := cells.Length - tail;
      if tailSpace >= |buf| {
        forall i | 0 <= i < |buf| { cells[tail + i] := buf[i]; }
      } else {
        forall i | 0 <= i < tailSpace { cells[tail + i] := buf[i]; }
        forall i | 0 <= i < |buf| - tailSpace { cells[i] := buf[tailSpace + i]; }
      }
    } else {
      forall i | 0 <= i < |buf| { cells[tail + i] := buf[i]; }
    }
    LapAppend(old(cells[..]), cells[..], head, n, buf);
  }
}
