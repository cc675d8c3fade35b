/**
 * Memory of the crashed kernel as vmcore.c reads it: pages that the hypervisor does not
 * back read as zeros, and a copy of a page may fail.
 */
module Oldmem {
  import opened Wrappers

  newtype byte = x: int | 0 <= x < 256

  const PAGE_SIZE: nat := 4096

  // ram is the registered oldmem_pfn_is_ram hook; copyError(pfn) is what copy_oldmem_page
  // returns for the page (negative on failure).
  datatype OldMem = OldMem(bytes: nat -> byte, ram: Option<nat -> int>, copyError: nat -> int)

  function RoundDown(x: nat): (r: nat)
    ensures r <= x < r + PAGE_SIZE && r % PAGE_SIZE == 0
  {
    x - x % PAGE_SIZE
  }

  function RoundUp(x: nat): (r: nat)
    ensures r - PAGE_SIZE < x <= r && r % PAGE_SIZE == 0
  {
    (x + PAGE_SIZE - 1) / PAGE_SIZE * PAGE_SIZE
  }

  function PfnIsRam(m: OldMem, pfn: nat): int {
    match m.ram
    case None => 1
    case Some(hook) => hook(pfn)
  }

  lemma {:induction false} RoundUpMonotone(x: nat, y: nat)
    requires x <= y
    ensures RoundUp(x) <= RoundUp(y)
  {
  }

  /** What the exported file shows at old address a. */
  function OldByte(m: OldMem, a: nat): byte {
    if PfnIsRam(m, a / PAGE_SIZE) == 0 then 0 else m.bytes(a)
  }

  function OldBytes(m: OldMem, a: nat, n: nat): (r: seq<byte>)
    ensures |r| == n
  {
    seq(n, i requires 0 <= i < n => OldByte(m, a + i))
  }

  predicate PageOk(m: OldMem, pfn: nat) {
    PfnIsRam(m, pfn) == 0 || m.copyError(pfn) >= 0
  }

  /** Address a can be read. */
  predicate AddrOk(m: OldMem, a: nat) {
    PageOk(m, a / PAGE_SIZE)
  }

  ghost predicate Readable(m: OldMem, a: nat, n: nat) {
    forall k :: a <= k < a + n ==> AddrOk(m, k)
  }

  /** What is exported at an old address: 0 if the registered hook returns 0 for its page, else the byte there. */
  lemma {:induction false} OldBytesAt(m: OldMem, a: nat, n: nat, i: nat)
    requires i < n
    ensures OldBytes(m, a, n)[i]
            == if m.ram.Some? && m.ram.value((a + i) / 4096) == 0 then 0 else m.bytes(a + i)
    ensures AddrOk(m, a + i)
            <==> (m.ram.Some? && m.ram.value((a + i) / 4096) == 0) || m.copyError((a + i) / 4096) >= 0
  {
    assert OldBytes(m, a, n)[i] == OldByte(m, a + i);
  }

  lemma {:induction false} OldBytesSplit(m: OldMem, a: nat, n: nat, k: nat)
    requires k <= n
    ensures OldBytes(m, a, n) == OldBytes(m, a, k) + OldBytes(m, a + k, n - k)
  {
    forall i | 0 <= i < n
      ensures OldBytes(m, a, n)[i] == (OldBytes(m, a, k) + OldBytes(m, a + k, n - k))[i]
    {
      if i >= k { assert OldBytes(m, a + k, n - k)[i - k] == OldByte(m, a + k + (i - k)); }
    }
  }

  /** b with x written at off. */
  function Splice(b: seq<byte>, off: nat, x: seq<byte>): (r: seq<byte>)
    requires off + |x| <= |b|
    ensures |r| == |b|
  {
    b[..off] + x + b[off + |x|..]
  }

  /** memcpy into a buffer. */
  method CopyTo(buf: array<byte>, off: nat, x: seq<byte>)
    requires off + |x| <= buf.Length
    modifies buf
    ensures buf[..] == Splice(old(buf[..]), off, x)
  {
    var i := 0;
    while i < |x|
      invariant i <= |x|
      invariant forall k :: 0 <= k < i ==> buf[off + k] == x[k]
      invariant forall k :: 0 <= k < buf.Length && !(off <= k < off + i) ==> buf[k] == old(buf[k])
    {
      buf[off + i] := x[i];
      i := i + 1;
    }
    assert buf[..] == Splice(old(buf[..]), off, x);
  }

  function Zeros(n: nat): (r: seq<byte>)
    ensures |r| == n
  {
    seq(n, i requires 0 <= i < n => 0)
  }

  function RawBytes(m: OldMem, a: nat, n: nat): (r: seq<byte>)
    ensures |r| == n
  {
    seq(n, i requires 0 <= i < n => m.bytes(a + i))
  }

  lemma {:induction false} SamePage(a: nat, k: nat)
    requires a <= k < a + (PAGE_SIZE - a % PAGE_SIZE)
    ensures k / PAGE_SIZE == a / PAGE_SIZE
  {
    var q := a / PAGE_SIZE;
    assert q * PAGE_SIZE <= k < (q + 1) * PAGE_SIZE;
  }

  /** Within one page the exported bytes are all zeros or all raw. */
  lemma {:induction false} PageBytes(m: OldMem, a: nat, n: nat)
    requires n <= PAGE_SIZE - a % PAGE_SIZE
    ensures OldBytes(m, a, n) == if PfnIsRam(m, a / PAGE_SIZE) == 0 then Zeros(n) else RawBytes(m, a, n)
    ensures n > 0 ==> (Readable(m, a, n) <==> AddrOk(m, a))
  {
    forall k | a <= k < a + n ensures k / PAGE_SIZE == a / PAGE_SIZE { SamePage(a, k); }
    forall i | 0 <= i < n
      ensures OldBytes(m, a, n)[i] == (if PfnIsRam(m, a / PAGE_SIZE) == 0 then Zeros(n) else RawBytes(m, a, n))[i]
    {
      SamePage(a, a + i);
      assert OldBytes(m, a, n)[i] == OldByte(m, a + i);
    }
  }

  lemma {:induction false} ReadableSplit(m: OldMem, a: nat, n: nat, k: nat)
    requires k <= n
    ensures Readable(m, a, n) <==> Readable(m, a, k) && Readable(m, a + k, n - k)
  {
  }

  lemma {:induction false} NotReadable(m: OldMem, a: nat, n: nat, k: nat)
    requires a <= k < a + n && !AddrOk(m, k)
    ensures !Readable(m, a, n)
  {
  }

  /** Two transfers in a row are one longer transfer. */
  lemma {:induction false} TransferMore(m: OldMem, b: seq<byte>, at: nat, pos: nat, read: nat, nr: nat)
    requires at + read + nr <= |b|
    ensures Splice(Splice(b, at, OldBytes(m, pos, read)), at + read, OldBytes(m, pos + read, nr))
            == Splice(b, at, OldBytes(m, pos, read + nr))
    ensures Readable(m, pos, read) && Readable(m, pos + read, nr) ==> Readable(m, pos, read + nr)
    ensures Splice(b, at, OldBytes(m, pos, 0)) == b
  {
    OldBytesSplit(m, pos, read + nr, read);
    ReadableSplit(m, pos, read + nr, read);
  }

  lemma {:induction false} PageEnd(a: nat)
    ensures var b := a + PAGE_SIZE - a % PAGE_SIZE; b / PAGE_SIZE == a / PAGE_SIZE + 1 && b % PAGE_SIZE == 0
  {
  }

  /** n bytes from old address pos have been stored at offset at of a buffer that held was. */
  ghost predicate Moved(m: OldMem, was: seq<byte>, now: seq<byte>, at: nat, pos: nat, n: nat) {
    at + n <= |was| && now == Splice(was, at, OldBytes(m, pos, n)) && Readable(m, pos, n)
  }

  lemma {:induction false} PlaceIs(a: nat, pfn: nat, offset: nat)
    requires pfn == a / PAGE_SIZE && offset == a % PAGE_SIZE
    ensures pfn * PAGE_SIZE + offset == a
  {
  }

  lemma {:induction false} MovedMore(m: OldMem, was: seq<byte>, b: seq<byte>, now: seq<byte>, at: nat, pos: nat,
                                     read: nat, nr: nat)
    requires at + read + nr <= |was| && Moved(m, was, b, at, pos, read) && Readable(m, pos + read, nr)
    requires now == Splice(b, at + read, OldBytes(m, pos + read, nr))
    ensures Moved(m, was, now, at, pos, read + nr)
  {
    TransferMore(m, was, at, pos, read, nr);
  }

  /** The turn of read_from_oldmem's loop for one page. */
  method ReadPage(m: OldMem, buf: array<byte>, at: nat, read: nat, pfn: nat, offset: nat, nr: nat,
                  ghost pos: nat, ghost was: seq<byte>)
    returns (err: int)
    requires at + read + nr <= buf.Length == |was| && 0 < nr <= PAGE_SIZE - offset
    requires pfn == (pos + read) / PAGE_SIZE && offset == (pos + read) % PAGE_SIZE
    requires Moved(m, was, buf[..], at, pos, read)
    modifies buf
    ensures err >= 0 ==> Moved(m, was, buf[..], at, pos, read + nr)
    ensures err < 0 ==> Moved(m, was, buf[..], at, pos, read)
                        && !AddrOk(m, pos + read) && err == m.copyError((pos + read) / PAGE_SIZE)
  {
    ghost var a, b := pos + read, buf[..];
    PlaceIs(a, pfn, offset);
    PageBytes(m, a, nr);
    if PfnIsRam(m, pfn) == 0 {
      CopyTo(buf, at + read, Zeros(nr));
    } else {
      if m.copyError(pfn) < 0 { return m.copyError(pfn); }
      CopyTo(buf, at + read, RawBytes(m, pfn * PAGE_SIZE + offset, nr));
    }
    MovedMore(m, was, b, buf[..], at, pos, read, nr);
    return 0;
  }

  /**
   * read_from_oldmem: on success exactly the old bytes from pos on, zeros for pages that
   * are not RAM; it fails exactly when some page of the range cannot be copied, with the
   * error of the first such page, the bytes before that page stored.
   */
  method ReadFromOldmem(m: OldMem, buf: array<byte>, at: nat, count0: nat, pos: nat)
    returns (ret: int, newPos: nat)
    requires at + count0 <= buf.Length
    modifies buf
    ensures ret >= 0 <==> Readable(m, pos, count0)
    ensures ret >= 0 ==> ret == count0 && newPos == pos + count0
    ensures ret < 0 ==> pos <= newPos < pos + count0
                        && !AddrOk(m, newPos) && ret == m.copyError(newPos / PAGE_SIZE)
    ensures Moved(m, old(buf[..]), buf[..], at, pos, newPos - pos)
  {
    newPos := pos;
    ghost var was := buf[..];
    TransferMore(m, was, at, pos, 0, 0);
    if count0 == 0 { return 0, pos; }
    var offset, pfn := pos % PAGE_SIZE, pos / PAGE_SIZE;
    var count: nat, read: nat := count0, 0;
    while count > 0
      invariant read + count == count0 && newPos == pos + read
      invariant count > 0 ==> pfn == newPos / PAGE_SIZE && offset == newPos % PAGE_SIZE
      invariant Moved(m, was, buf[..], at, pos, read)
    {
      var nr: nat := if count > PAGE_SIZE - offset then PAGE_SIZE - offset else count;
      var err := ReadPage(m, buf, at, read, pfn, offset, nr, pos, was);
      if err < 0 {
        NotReadable(m, pos, count0, newPos);
        return err, newPos;
      }
      PageEnd(newPos);
      newPos := newPos + nr;
      count := count - nr;
      read := read + nr;
      pfn := pfn + 1;
      offset := 0;
    }
    return read, newPos;
  }
}
