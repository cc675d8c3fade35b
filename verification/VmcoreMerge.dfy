/**
 * The second half of merge_note_headers_elf64: one PT_NOTE header in place of all of them,
 * by memcpy, memmove and memset on the header buffer.
 */
module VmcoreMerge {
  import opened Oldmem
  import opened Seqs
  import opened Elf
  import opened VmcoreNotes

  /** The bytes after the merge: header with new e_phnum, merged note, the kept headers, zeros. */
  function MergedBytes(b: seq<byte>, n: nat, nr: nat, sz: nat): (r: seq<byte>)
    requires 1 <= nr <= n && At(n) <= |b|
    ensures |r| == |b|
  {
    b[..PHNUM] + ToLE(n - nr + 1, 2) + b[PHNUM + 2..EHDR] + Encode(MergedNote(n - nr + 1, sz))
    + b[At(nr)..At(n)] + Zeros((nr - 1) * PHDR) + b[At(n)..]
  }

  function MergedHead(b: seq<byte>, k: nat): (r: seq<byte>)
    requires EHDR <= |b|
    ensures |r| == EHDR
  {
    b[..PHNUM] + ToLE(k, 2) + b[PHNUM + 2..EHDR]
  }

  lemma {:induction false} MergedParts(b: seq<byte>, n: nat, nr: nat, sz: nat)
    requires 1 <= nr <= n && At(n) <= |b|
    ensures var k := n - nr + 1;
      MergedBytes(b, n, nr, sz)
      == MergedHead(b, k) + (Encode(MergedNote(k, sz)) + (b[At(nr)..At(n)] + (Zeros((nr - 1) * PHDR) + b[At(n)..])))
  {
  }

  lemma {:induction false} MergedPhnum(head: seq<byte>, b: seq<byte>, k: nat, rest: seq<byte>)
    requires EHDR <= |b| && head == MergedHead(b, k) && k < U16
    ensures GetPhnum(head + rest) == k
  {
    SliceLeft(head, rest, PHNUM, PHNUM + 2);
    assert head[PHNUM..PHNUM + 2] == ToLE(k, 2);
    Widths();
    LEInverse(k, 2);
  }

  lemma {:induction false} MergedFirst(head: seq<byte>, p: Phdr, rest: seq<byte>)
    requires |head| == EHDR && Fits(p)
    ensures GetPhdr(head + (Encode(p) + rest), 0) == p
  {
    SliceRight(head, Encode(p) + rest, At(0), At(1));
    SliceLeft(Encode(p), rest, 0, PHDR);
    assert Encode(p)[0..PHDR] == Encode(p);
    DecodeEncode(p);
  }

  lemma {:induction false} MergedEntry(b: seq<byte>, n: nat, nr: nat, sz: nat, k: nat, j: nat)
    requires 1 <= nr <= n && At(n) <= |b| && sz < U64 && k == n - nr + 1 < U16 && j < k
    ensures At(j + 1) <= |b| && At(nr + j) <= |b|
    ensures GetPhdr(MergedBytes(b, n, nr, sz), j) == if j == 0 then MergedNote(k, sz) else GetPhdr(b, nr - 1 + j)
  {
    var note, kept := MergedNote(k, sz), b[At(nr)..At(n)];
    var head, rest := MergedHead(b, k), Zeros((nr - 1) * PHDR) + b[At(n)..];
    assert MergedBytes(b, n, nr, sz) == head + (Encode(note) + (kept + rest)) by { MergedParts(b, n, nr, sz); }
    if j == 0 { MergedFirst(head, note, kept + rest); } else { KeptHeader(b, n, nr, head, Encode(note), rest, j); }
  }

  /** The merged table read back: the merged note, then the headers from index nr on. */
  lemma {:induction false} MergedTable(b: seq<byte>, n: nat, nr: nat, sz: nat)
    requires 1 <= nr <= n < U16 && At(n) <= |b| && sz < U64
    ensures At(n - nr + 1) <= |b|
    ensures Table(MergedBytes(b, n, nr, sz), n - nr + 1) == [MergedNote(n - nr + 1, sz)] + Table(b, n)[nr..]
    ensures GetPhnum(MergedBytes(b, n, nr, sz)) == n - nr + 1
  {
    var k := n - nr + 1;
    var note, r := MergedNote(k, sz), MergedBytes(b, n, nr, sz);
    assert r == MergedHead(b, k) + (Encode(note) + (b[At(nr)..At(n)] + (Zeros((nr - 1) * PHDR) + b[At(n)..]))) by {
      MergedParts(b, n, nr, sz);
    }
    MergedPhnum(MergedHead(b, k), b, k, Encode(note) + (b[At(nr)..At(n)] + (Zeros((nr - 1) * PHDR) + b[At(n)..])));
    forall j: nat | j < k ensures GetPhdr(r, j) == if j == 0 then note else GetPhdr(b, nr - 1 + j) {
      MergedEntry(b, n, nr, sz, k, j);
    }
    SameTable(r, k, note, b, n, nr);
  }

  lemma {:induction false} SameTable(r: seq<byte>, k: nat, note: Phdr, b: seq<byte>, n: nat, nr: nat)
    requires 1 <= nr <= n && k == n - nr + 1 && At(n) <= |b| && At(k) <= |r|
    requires forall j: nat :: j < k ==> GetPhdr(r, j) == if j == 0 then note else GetPhdr(b, nr - 1 + j)
    ensures Table(r, k) == [note] + Table(b, n)[nr..]
  {
    var got, want := Table(r, k), [note] + Table(b, n)[nr..];
    forall j | 0 <= j < k ensures got[j] == want[j] { assert got[j] == GetPhdr(r, j); }
  }

  lemma {:induction false} KeptHeader(b: seq<byte>, n: nat, nr: nat, head: seq<byte>, note: seq<byte>,
                                      rest: seq<byte>, j: nat)
    requires 1 <= nr <= n && At(n) <= |b| && 1 <= j < n - nr + 1
    requires |head| == EHDR && |note| == PHDR
    ensures var r := head + (note + (b[At(nr)..At(n)] + rest));
      At(j + 1) <= |r| && At(nr + j) <= |b| && GetPhdr(r, j) == GetPhdr(b, nr - 1 + j)
  {
    var kept := b[At(nr)..At(n)];
    var r := head + (note + (kept + rest));
    var lo := (j - 1) * PHDR;
    assert At(j) == EHDR + PHDR + lo && At(nr) + lo == At(nr - 1 + j) && lo + PHDR <= |kept|;
    SliceRight(head, note + (kept + rest), At(j), At(j + 1));
    SliceRight(note, kept + rest, PHDR + lo, PHDR + lo + PHDR);
    SliceLeft(kept, rest, lo, lo + PHDR);
    SliceOfSlice(b, At(nr), At(n), lo, lo + PHDR);
  }

  // The bytes x written at offset off.
  datatype Write = Write(off: nat, x: seq<byte>)

  /** now is b after the write. */
  ghost predicate Written(b: seq<byte>, now: seq<byte>, w: Write) {
    match w case Write(off, x) => off + |x| <= |b| && now == Splice(b, off, x)
  }

  // ---------- memcpy and memmove, for any number of PT_NOTE headers ----------

  /**
   * The memory from the header buffer on after the merged note is copied in front and the headers
   * from index nr on are moved behind it.
   */
  function AfterMove(b: seq<byte>, n: nat, nr: nat, sz: nat): (r: seq<byte>)
    requires nr <= n && 0 < n && At(n) <= |b| && At(n - nr + 1) <= |b|
    ensures |r| == |b|
  {
    var b1 := Splice(b, EHDR, Encode(MergedNote(n - nr + 1, sz)));
    Splice(b1, EHDR + PHDR, b1[At(nr)..At(n)])
  }

  /** A slice of what was written. */
  lemma {:induction false} InsideWrite(b: seq<byte>, off: nat, x: seq<byte>, lo: nat, hi: nat)
    requires off + |x| <= |b| && lo <= hi <= |x|
    ensures Splice(b, off, x)[off + lo..off + hi] == x[lo..hi]
  {
    SliceRight(b[..off], x + b[off + |x|..], off + lo, off + hi);
    SliceLeft(x, b[off + |x|..], lo, hi);
    assert Splice(b, off, x) == b[..off] + (x + b[off + |x|..]);
  }

  /** Header j behind the merged note is header nr - 1 + j of the table that the move reads. */
  lemma {:induction false} MovedHeader(b1: seq<byte>, n: nat, nr: nat, j: nat)
    requires nr <= n && 0 < n && At(n) <= |b1| && At(n - nr + 1) <= |b1| && 1 <= j < n - nr + 1
    ensures At(j + 1) <= |b1| && At(nr + j) <= |b1|
    ensures GetPhdr(Splice(b1, EHDR + PHDR, b1[At(nr)..At(n)]), j) == GetPhdr(b1, nr - 1 + j)
  {
    var x, lo := b1[At(nr)..At(n)], (j - 1) * PHDR;
    assert At(j) == EHDR + PHDR + lo && At(nr) + lo == At(nr - 1 + j) && lo + PHDR <= |x|;
    InsideWrite(b1, EHDR + PHDR, x, lo, lo + PHDR);
    SliceOfSlice(b1, At(nr), At(n), lo, lo + PHDR);
  }

  /** The table that the move reads: the merged note has taken the place of header 0. */
  lemma {:induction false} NoteOverFirst(b: seq<byte>, n: nat, p: Phdr)
    requires 0 < n && At(n) <= |b| && Fits(p)
    ensures At(1) <= At(n) && Table(Splice(b, EHDR, Encode(p)), n) == Table(b, n)[0 := p]
  {
    TableSet(b, n, 0, 0, Encode(p));
    assert Splice(b[At(0)..At(1)], 0, Encode(p)) == Encode(p);
    DecodeEncode(p);
  }

  lemma {:induction false} FirstAfterMove(b1: seq<byte>, n: nat, nr: nat)
    requires nr <= n && 0 < n && At(n) <= |b1| && At(n - nr + 1) <= |b1|
    ensures GetPhdr(Splice(b1, EHDR + PHDR, b1[At(nr)..At(n)]), 0) == GetPhdr(b1, 0)
  {
    SpliceSlice(b1, EHDR + PHDR, b1[At(nr)..At(n)], At(0), At(1));
  }

  lemma {:induction false} AfterMoveEntry(b: seq<byte>, n: nat, nr: nat, sz: nat, j: nat)
    requires nr <= n < U16 && 0 < n && At(n) <= |b| && At(n - nr + 1) <= |b| && sz < U64 && j < n - nr + 1
    ensures At(j + 1) <= |b|
    ensures var note := MergedNote(n - nr + 1, sz);
      GetPhdr(AfterMove(b, n, nr, sz), j) == if j == 0 then note else Table(b, n)[0 := note][nr - 1 + j]
  {
    var note := MergedNote(n - nr + 1, sz);
    var b1 := Splice(b, EHDR, Encode(note));
    NoteOverFirst(b, n, note);
    if j == 0 { FirstAfterMove(b1, n, nr); } else { MovedHeader(b1, n, nr, j); }
    assert Table(b1, n)[0] == GetPhdr(b1, 0);
    assert j > 0 ==> Table(b1, n)[nr - 1 + j] == GetPhdr(b1, nr - 1 + j);
  }

  /**
   * The table after the move: the merged note and the headers from index nr on; but without a PT_NOTE
   * header the merged note comes a second time, in the place of header 0.
   */
  lemma {:induction false} AfterMoveTable(b: seq<byte>, n: nat, nr: nat, sz: nat)
    requires nr <= n < U16 && 0 < n && At(n) <= |b| && At(n - nr + 1) <= |b| && sz < U64
    ensures var note := MergedNote(n - nr + 1, sz);
      Table(AfterMove(b, n, nr, sz), n - nr + 1)
      == if nr == 0 then [note, note] + Table(b, n)[1..] else [note] + Table(b, n)[nr..]
  {
    var r, k, note := AfterMove(b, n, nr, sz), n - nr + 1, MergedNote(n - nr + 1, sz);
    var got := Table(r, k);
    forall j: nat | j < k ensures got[j] == if j == 0 then note else Table(b, n)[0 := note][nr - 1 + j] {
      AfterMoveEntry(b, n, nr, sz, j);
      assert got[j] == GetPhdr(r, j);
    }
    MovedTable(got, Table(b, n), note, nr);
  }

  lemma {:induction false} MovedTable(got: seq<Phdr>, t: seq<Phdr>, note: Phdr, nr: nat)
    requires t != [] && nr <= |t| && |got| == |t| - nr + 1
    requires forall j: nat :: j < |got| ==> got[j] == if j == 0 then note else t[0 := note][nr - 1 + j]
    ensures got == if nr == 0 then [note, note] + t[1..] else [note] + t[nr..]
  {
  }

  // The in-place writes, in the order of the code; i is the size of the headers to remove.

  lemma {:induction false} MoveKept(b: seq<byte>, n: nat, nr: nat, i: nat, note: seq<byte>, b1: seq<byte>,
                                    b2: seq<byte>)
    requires 1 <= nr <= n && At(n) <= |b| && |note| == PHDR && i == (nr - 1) * PHDR
    requires Written(b, b1, Write(EHDR, note)) && At(nr) <= At(n)
             && Written(b1, b2, Write(EHDR + PHDR, b1[At(nr)..At(n)]))
    ensures b2 == b[..EHDR] + note + b[At(nr)..At(n)] + b[At(n) - i..]
  {
    SpliceSlice(b, EHDR, note, At(nr), At(n));
    SpliceSlice(b, EHDR, note, At(n) - i, |b|);
    assert b1[At(n) - i..] == b1[At(n) - i..|b|] && b[At(n) - i..] == b[At(n) - i..|b|];
    assert b1[..EHDR + PHDR] == b[..EHDR] + note;
  }

  lemma {:induction false} ClearTail(front: seq<byte>, old': seq<byte>, zeros: seq<byte>, tail: seq<byte>)
    requires |old'| == |zeros|
    ensures Splice(front + (old' + tail), |front|, zeros) == front + zeros + tail
  {
  }

  lemma {:induction false} ClearMoved(b: seq<byte>, n: nat, nr: nat, i: nat, front: seq<byte>, b2: seq<byte>,
                                      b3: seq<byte>)
    requires 1 <= nr <= n && At(n) <= |b| && i == (nr - 1) * PHDR && |front| == At(n) - i
    requires b2 == front + b[At(n) - i..] && Written(b2, b3, Write(At(n) - i, Zeros(i)))
    ensures b3 == front + Zeros(i) + b[At(n)..]
  {
    assert b[At(n) - i..] == b[At(n) - i..At(n)] + b[At(n)..];
    ClearTail(front, b[At(n) - i..At(n)], Zeros(i), b[At(n)..]);
  }

  lemma {:induction false} SetPhnum(b: seq<byte>, k: nat, rest: seq<byte>, b3: seq<byte>, b4: seq<byte>)
    requires EHDR <= |b| && b3 == b[..EHDR] + rest && Written(b3, b4, Write(PHNUM, ToLE(k, 2)))
    ensures b4 == MergedHead(b, k) + rest
  {
  }

  lemma {:induction false} MoveSteps(b: seq<byte>, n: nat, nr: nat, sz: nat, i: nat, b2: seq<byte>, b3: seq<byte>,
                                     b4: seq<byte>)
    requires 1 <= nr <= n && At(n - nr + 1) <= At(n) <= |b| && i == (nr - 1) * PHDR
    requires b2 == AfterMove(b, n, nr, sz)
    requires Written(b2, b3, Write(At(n) - i, Zeros(i)))
    requires Written(b3, b4, Write(PHNUM, ToLE(n - nr + 1, 2)))
    ensures b4 == MergedBytes(b, n, nr, sz)
  {
    var k := n - nr + 1;
    var note, kept, tail := Encode(MergedNote(k, sz)), b[At(nr)..At(n)], b[At(n)..];
    MoveKept(b, n, nr, i, note, Splice(b, EHDR, note), b2);
    ClearMoved(b, n, nr, i, b[..EHDR] + note + kept, b2, b3);
    Regroup(b[..EHDR], note, kept, Zeros(i), tail);
    SetPhnum(b, k, note + (kept + (Zeros(i) + tail)), b3, b4);
    MergedParts(b, n, nr, sz);
  }

  /** A signed number converted to size_t. */
  function AsSize(x: int): (r: nat)
    ensures r < U64
  {
    x % U64
  }

  /**
   * The clear behind the moved headers stays inside the header buffer if and only if there is a
   * PT_NOTE header: without one its size is that of minus one header, converted to size_t.
   */
  lemma {:induction false} ClearInside(n: nat, nr: nat)
    requires nr <= n < U16
    ensures At(n) - (nr - 1) * PHDR + AsSize((nr - 1) * PHDR) <= RoundUp(At(n)) <==> nr >= 1
  {
    var i: int := (nr - 1) * PHDR;
    if nr == 0 { assert i % U64 == i + U64; } else { assert i % U64 == i; }
  }

  /** Bytes lo to hi of the move are done; the rest is as it was. */
  predicate MovedPart(b: seq<byte>, now: seq<byte>, dst: nat, src: nat, lo: nat, hi: nat) {
    && lo <= hi && src + hi <= |b| == |now| && dst + hi <= |b|
    && (forall k :: dst + lo <= k < dst + hi ==> now[k] == b[src + (k - dst)])
    && forall k :: 0 <= k < |b| && !(dst + lo <= k < dst + hi) ==> now[k] == b[k]
  }

  lemma {:induction false} MoveDone(b: seq<byte>, now: seq<byte>, dst: nat, src: nat, n: nat)
    requires MovedPart(b, now, dst, src, 0, n)
    ensures Written(b, now, Write(dst, b[src..src + n]))
  {
    var want := Splice(b, dst, b[src..src + n]);
    forall k | 0 <= k < |b| ensures now[k] == want[k] {}
  }

  /** memmove to a lower address: forwards. */
  method MoveDown(buf: array<byte>, dst: nat, src: nat, n: nat)
    requires dst <= src && src + n <= buf.Length
    modifies buf
    ensures MovedPart(old(buf[..]), buf[..], dst, src, 0, n)
  {
    ghost var b := buf[..];
    var i := 0;
    while i < n
      invariant i <= n && MovedPart(b, buf[..], dst, src, 0, i)
    {
      assert buf[..][src + i] == b[src + i];
      buf[dst + i] := buf[src + i];
      i := i + 1;
    }
  }

  /** memmove to a higher address: backwards. */
  method MoveUp(buf: array<byte>, dst: nat, src: nat, n: nat)
    requires src < dst && dst + n <= buf.Length
    modifies buf
    ensures MovedPart(old(buf[..]), buf[..], dst, src, 0, n)
  {
    ghost var b := buf[..];
    var i: nat := n;
    while i > 0
      invariant i <= n && MovedPart(b, buf[..], dst, src, i, n)
    {
      i := i - 1;
      assert buf[..][src + i] == b[src + i];
      buf[dst + i] := buf[src + i];
    }
  }

  /**
   * memmove within a buffer, byte by byte: where the ranges overlap every byte is read before it
   * is overwritten.
   */
  method Memmove(buf: array<byte>, dst: nat, src: nat, n: nat)
    requires src + n <= buf.Length && dst + n <= buf.Length
    modifies buf
    ensures Written(old(buf[..]), buf[..], Write(dst, old(buf[..])[src..src + n]))
  {
    ghost var b := buf[..];
    if dst <= src { MoveDown(buf, dst, src, n); } else { MoveUp(buf, dst, src, n); }
    MoveDone(b, buf[..], dst, src, n);
  }

  method Store(buf: array<byte>, off: nat, x: seq<byte>)
    requires off + |x| <= buf.Length
    modifies buf
    ensures Written(old(buf[..]), buf[..], Write(off, x))
  {
    CopyTo(buf, off, x);
  }

  /** The memcpy and the memmove; without a PT_NOTE header the move goes to a higher address. */
  method MoveHeaders(buf: array<byte>, n: nat, nr: nat, sz: nat) returns (elfsz: nat)
    requires nr <= n && 0 < n && At(n) <= buf.Length && At(n - nr + 1) <= buf.Length
    modifies buf
    ensures buf[..] == AfterMove(old(buf[..]), n, nr, sz) && elfsz == At(n - nr + 1)
  {
    Store(buf, EHDR, Encode(MergedNote(n - nr + 1, sz)));
    var tmp := EHDR + PHDR;
    var i := (nr - 1) * PHDR;
    elfsz := At(n) - i;
    Memmove(buf, tmp, tmp + i, elfsz - EHDR - PHDR);
  }

  method MergeHeaders(buf: array<byte>, n: nat, nr: nat, sz: nat)
    requires 1 <= nr <= n && At(n) <= buf.Length
    modifies buf
    ensures buf[..] == MergedBytes(old(buf[..]), n, nr, sz)
  {
    ghost var b := buf[..];
    var i := (nr - 1) * PHDR;
    var elfsz := MoveHeaders(buf, n, nr, sz);
    ghost var b2 := buf[..];
    Store(buf, elfsz, Zeros(i));
    ghost var b3 := buf[..];
    Store(buf, PHNUM, ToLE(n - nr + 1, 2));
    MoveSteps(b, n, nr, sz, i, b2, b3, buf[..]);
  }
}
