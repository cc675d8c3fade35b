/**
 * The ring queue of the thread exercises (HamielecKarol/cw01/zad6/zad6.c, zad2/zad2.c):
 * a buffer of QUEUE_SIZE cells, one of which always stays free.
 */
module Ring {
  /** C's char of x, and its remainder by 122, which takes the sign of the dividend. */
  function Letter(id: nat): int {
    var c := (id + 65 + 128) % 256 - 128;
    if c >= 0 then c % 122 else -((-c) % 122)
  }

  /**
   * What thread id writes: 65 + id for the first 57 threads, all different; for any thread the
   * remainder of 65 + id as a signed byte, truncated towards zero.
   */
  lemma {:induction false} LetterIs(id: nat)
    ensures id < 57 ==> Letter(id) == 65 + id
    ensures var y, l := (id + 65) % 256, Letter(id);
      && (y < 122 ==> l == y) && (122 <= y < 128 ==> l == y - 122)
      && (128 <= y < 135 ==> l == y - 134) && (135 <= y ==> l == y - 256)
  {
    var x := id + 65;
    var q, y := x / 256, x % 256;
    assert x + 128 == q * 256 + (y + 128);
    assert (x + 128) % 256 == if y < 128 then y + 128 else y - 128 by { ModShift(y + 128, q); }
    assert id < 57 ==> y == x;
    SignedMod(y);
  }

  lemma {:induction false} ModShift(z: nat, q: nat)
    ensures (q * 256 + z) % 256 == z % 256
  {
    if q > 0 { ModShift(z, q - 1); }
  }

  lemma {:induction false} SignedMod(y: nat)
    requires y < 256
    ensures y < 122 ==> y % 122 == y
    ensures 122 <= y < 244 ==> y % 122 == y - 122
    ensures y >= 128 ==> (256 - y) % 122 == if y < 135 then 134 - y else 256 - y
  {
  }

  function Letters(ids: seq<nat>): (r: seq<int>)
    ensures |r| == |ids|
  {
    if ids == [] then [] else Letters(ids[..|ids| - 1]) + [Letter(ids[|ids| - 1])]
  }

  lemma {:induction false} LettersAppend(ids: seq<nat>, t: nat)
    ensures Letters(ids + [t]) == Letters(ids) + [Letter(t)]
  {
    assert (ids + [t])[..|ids|] == ids;
  }

  /** A full queue refuses an element: QueuePut then returns -1. */
  function Put(queue: seq<int>, elements: nat, x: int): seq<int> {
    if |queue| < elements then queue + [x] else queue
  }

  /** The cells of the ring from index `out` on, n of them. */
  function Window(cells: seq<int>, out: nat, n: nat): (r: seq<int>)
    requires out < |cells| && n <= |cells|
    ensures |r| == n
  {
    if n == 0 then [] else Window(cells, out, n - 1) + [cells[Cell(out, n - 1, |cells|)]]
  }

  /** The index k places after `out`. */
  function Cell(out: nat, k: nat, size: nat): (r: nat)
    requires out < size && k <= size
    ensures r < size
  {
    if out + k < size then out + k else out + k - size
  }

  lemma {:induction false} Wrapped(x: nat, size: nat)
    requires 0 < size && x < 2 * size
    ensures x % size == if x < size then x else x - size
  {
    if x >= size {
      assert x / size == 1;
    } else {
      assert x / size == 0;
    }
  }

  lemma {:induction false} CellsDiffer(out: nat, j: nat, k: nat, size: nat)
    requires out < size && j < k < size
    ensures Cell(out, j, size) != Cell(out, k, size)
  {
  }

  /** The test of QueuePut: the cell before queue_out is the next free one of a full ring only. */
  lemma {:induction false} FullTest(out: nat, n: nat, size: nat)
    requires out < size && n < size && 2 <= size
    ensures Cell(out, n, size) == (out - 1 + size) % size <==> n == size - 1
    ensures n < size - 1 ==> (Cell(out, n, size) + 1) % size == Cell(out, n + 1, size)
  {
    Wrapped(out - 1 + size, size);
    Wrapped(Cell(out, n, size) + 1, size);
  }

  /** Storing behind the window changes nothing in it. */
  lemma {:induction false} StoreBehind(cells: seq<int>, out: nat, n: nat, k: nat, x: int)
    requires out < |cells| && n <= k < |cells|
    ensures Window(cells[Cell(out, k, |cells|) := x], out, n) == Window(cells, out, n)
  {
    if n > 0 {
      CellsDiffer(out, n - 1, k, |cells|);
      StoreBehind(cells, out, n - 1, k, x);
    }
  }

  lemma {:induction false} WindowTail(cells: seq<int>, out: nat, n: nat)
    requires out < |cells| && 0 < n < |cells|
    ensures Window(cells, out, n)[0] == cells[out]
    ensures Window(cells, out, n)[1..] == Window(cells, Cell(out, 1, |cells|), n - 1)
  {
    if n > 1 {
      WindowTail(cells, out, n - 1);
      var w, last := Window(cells, out, n - 1), cells[Cell(out, n - 1, |cells|)];
      assert (w + [last])[1..] == w[1..] + [last];
      assert Cell(Cell(out, 1, |cells|), n - 2, |cells|) == Cell(out, n - 1, |cells|);
    }
  }

  class Queue {
    const cells: array<int>
    var queueIn: nat
    var queueOut: nat
    var queueLen: nat

    ghost predicate Valid()
      reads this
    {
      && 2 <= cells.Length && queueOut < cells.Length && queueLen < cells.Length
      && queueIn == Cell(queueOut, queueLen, cells.Length)
    }

    ghost function Contents(): (r: seq<int>)
      requires Valid()
      reads this, cells
      ensures |r| == queueLen
    {
      Window(cells[..], queueOut, queueLen)
    }

    constructor (size: nat)
      requires 2 <= size
      ensures Valid() && fresh(cells) && cells.Length == size && Contents() == []
    {
      cells := new int[size];
      queueIn, queueOut, queueLen := 0, 0, 0;
    }

    /** QueuePut: -1 and no change exactly when all cells but one are taken. */
    method QueuePut(x: int) returns (err: int)
      requires Valid()
      modifies this, cells
      ensures Valid() && Contents() == Put(old(Contents()), cells.Length - 1, x)
      ensures err == if |old(Contents())| < cells.Length - 1 then 0 else -1
    {
      FullTest(queueOut, queueLen, cells.Length);
      if queueIn == (queueOut - 1 + cells.Length) % cells.Length { return -1; }
      StoreBehind(cells[..], queueOut, queueLen, queueLen, x);
      ghost var was := cells[..];
      cells[queueIn] := x;
      assert cells[..] == was[queueIn := x];
      queueIn := (queueIn + 1) % cells.Length;
      queueLen := queueLen + 1;
      return 0;
    }

    /** QueueGet: the oldest element, or -1 from an empty queue. */
    method QueueGet() returns (err: int, x: int)
      requires Valid()
      modifies this
      ensures Valid()
      ensures old(Contents()) == [] ==> err == -1 && Contents() == []
      ensures old(Contents()) != [] ==> err == 0 && old(Contents()) == [x] + Contents()
    {
      if queueIn == queueOut { return -1, 0; }
      WindowTail(cells[..], queueOut, queueLen);
      Wrapped(queueOut + 1, cells.Length);
      x := cells[queueOut];
      queueLen := queueLen - 1;
      queueOut := (queueOut + 1) % cells.Length;
      return 0, x;
    }
  }
}
