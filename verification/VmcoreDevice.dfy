/**
 * Reading the exported file: the segmented loop of __read_vmcore.
 */
module VmcoreDevice {
  import opened Oldmem
  import opened Seqs
  import opened VmcoreFile

  /** The first n requested bytes have been delivered at the front of the buffer. */
  ghost predicate Delivered(image: seq<byte>, was: seq<byte>, now: seq<byte>, p: nat, n: nat) {
    n <= |was| && p + n <= |image| && now == Splice(was, 0, image[p..p + n])
  }

  lemma {:induction false} DeliverMore(image: seq<byte>, was: seq<byte>, now: seq<byte>, p: nat, n: nat, x: seq<byte>)
    requires Delivered(image, was, now, p, n)
    requires n + |x| <= |was| && p + n + |x| <= |image| && x == image[p + n..p + n + |x|]
    ensures Delivered(image, was, Splice(now, n, x), p, n + |x|)
  {
    assert image[p..p + n] + x == image[p..p + n + |x|];
  }

  lemma {:induction false} ArraySlice(buf: array<byte>, sz: nat, i: nat, j: nat)
    requires i <= j <= sz <= buf.Length
    ensures buf[..sz][i..j] == buf[i..j]
  {
    forall x | 0 <= x < j - i ensures buf[..sz][i..j][x] == buf[i..j][x] { assert buf[..sz][i + x] == buf[i + x]; }
  }

  class Vmcore {
    const mem: OldMem
    const elfcorebuf: array<byte>
    const elfcorebufSz: nat
    const elfnotesBuf: array<byte>
    const elfnotesSz: nat
    const list: seq<Chunk>
    const size: nat

    ghost predicate Valid()
      reads elfcorebuf, elfnotesBuf
    {
      && elfcorebufSz <= elfcorebuf.Length && elfnotesSz <= elfnotesBuf.Length
      && Offsets(list, elfcorebufSz + elfnotesSz)
      && size == elfcorebufSz + elfnotesSz + Total(list)
    }

    ghost function File(): (r: seq<byte>)
      requires Valid()
      reads elfcorebuf, elfnotesBuf
      ensures |r| == size
    {
      Image(mem, elfcorebuf[..elfcorebufSz], elfnotesBuf[..elfnotesSz], list)
    }

    ghost predicate Ok(p: nat)
      requires Valid() && p < size
      reads elfcorebuf, elfnotesBuf
    {
      PosOk(mem, elfcorebufSz + elfnotesSz, list, p)
    }

    ghost predicate AllOk(p: nat, q: nat)
      requires Valid() && q <= size
      reads elfcorebuf, elfnotesBuf
    {
      forall k :: p <= k < q ==> Ok(k)
    }

    /** Where a read of n bytes at position p stops. */
    ghost function End(p: nat, n: nat): (q: nat)
      ensures q <= size
    {
      Min(p + n, size)
    }

    constructor (mem: OldMem, elfcorebuf: array<byte>, elfcorebufSz: nat, elfnotesBuf: array<byte>,
                 elfnotesSz: nat, list: seq<Chunk>, size: nat)
      requires elfcorebufSz <= elfcorebuf.Length && elfnotesSz <= elfnotesBuf.Length
      requires Offsets(list, elfcorebufSz + elfnotesSz) && size == elfcorebufSz + elfnotesSz + Total(list)
      ensures Valid() && this.mem == mem && this.list == list
      ensures this.elfcorebuf == elfcorebuf && this.elfcorebufSz == elfcorebufSz
      ensures this.elfnotesBuf == elfnotesBuf && this.elfnotesSz == elfnotesSz
    {
      this.mem, this.list := mem, list;
      this.elfcorebuf, this.elfcorebufSz := elfcorebuf, elfcorebufSz;
      this.elfnotesBuf, this.elfnotesSz := elfnotesBuf, elfnotesSz;
      this.size := size;
    }

    /** A stretch of chunk i lies in the file where its offset says. */
    lemma {:induction false} ChunkInFile(i: nat, k: nat, n: nat)
      requires Valid() && i < |list| && k + n <= list[i].size
      ensures var q := list[i].offset + k; q + n <= size && File()[q..q + n] == OldBytes(mem, list[i].paddr + k, n)
    {
      var a, c := elfcorebuf[..elfcorebufSz] + elfnotesBuf[..elfnotesSz], ChunkBytes(mem, list);
      OffsetAt(list, |a|, i);
      ChunkSlice(mem, list, i, k, n);
      var q := list[i].offset + k;
      SliceRight(a, c, q, q + n);
    }

    lemma {:induction false} OkInChunk(i: nat, k: nat)
      requires Valid() && i < |list| && k < list[i].size
      ensures list[i].offset + k < size
      ensures Ok(list[i].offset + k) <==> AddrOk(mem, list[i].paddr + k)
    {
      OffsetAt(list, elfcorebufSz + elfnotesSz, i);
      AddrInChunk(list, i, k);
    }

    lemma {:induction false} AllOkInChunk(i: nat, k: nat, n: nat)
      requires Valid() && i < |list| && k + n <= list[i].size
      ensures list[i].offset + k + n <= size
      ensures Readable(mem, list[i].paddr + k, n) ==> AllOk(list[i].offset + k, list[i].offset + k + n)
    {
      ChunkInFile(i, k, n);
      var c := list[i];
      if Readable(mem, c.paddr + k, n) {
        forall p | c.offset + k <= p < c.offset + k + n ensures Ok(p) { OkInChunk(i, p - c.offset); }
      }
    }

    /** What read_from_oldmem stored for chunk i is what the file has there. */
    lemma {:induction false} ChunkDelivered(was: seq<byte>, before: seq<byte>, now: seq<byte>, p: nat, acc: nat,
                                            i: nat, k: nat, got: nat)
      requires Valid() && i < |list| && k + got <= list[i].size && p + acc == list[i].offset + k
      requires Delivered(File(), was, before, p, acc)
      requires acc + got <= |was| && Moved(mem, before, now, acc, list[i].paddr + k, got)
      ensures Delivered(File(), was, now, p, acc + got)
    {
      ChunkInFile(i, k, got);
      DeliverMore(File(), was, before, p, acc, OldBytes(mem, list[i].paddr + k, got));
    }

    /** The part of a read that chunk i serves. */
    method ReadChunk(buffer: array<byte>, acc: nat, i: nat, fpos: nat, tsz: nat, ghost p: nat, ghost was: seq<byte>)
      returns (err: int, ghost got: nat)
      requires Valid() && buffer !in {elfcorebuf, elfnotesBuf}
      requires i < |list| && list[i].offset <= fpos && fpos + tsz <= list[i].offset + list[i].size
      requires p + acc == fpos && acc + tsz <= buffer.Length == |was|
      requires Delivered(File(), was, buffer[..], p, acc)
      modifies buffer
      ensures fpos + tsz <= size && got <= tsz
      ensures err >= 0 ==> got == tsz && AllOk(fpos, fpos + tsz)
      ensures err < 0 ==> got < tsz && !Ok(fpos + got)
      ensures Delivered(File(), was, buffer[..], p, acc + got)
    {
      var c := list[i];
      ghost var k := fpos - c.offset;
      var start := c.paddr + fpos - c.offset;
      ghost var before := buffer[..];
      var ret, newPos := ReadFromOldmem(mem, buffer, acc, tsz, start);
      err, got := ret, newPos - start;
      ChunkDelivered(was, before, buffer[..], p, acc, i, k, got);
      ChunkAnswered(i, k, tsz, got, err >= 0);
    }

    /** Whether the file can be read where chunk i was. */
    lemma {:induction false} ChunkAnswered(i: nat, k: nat, tsz: nat, got: nat, ok: bool)
      requires Valid() && i < |list| && k + tsz <= list[i].size
      requires if ok then got == tsz && Readable(mem, list[i].paddr + k, tsz)
               else got < tsz && !AddrOk(mem, list[i].paddr + k + got)
      ensures list[i].offset + k + tsz <= size
      ensures var q := list[i].offset + k; if ok then AllOk(q, q + tsz) else !Ok(q + got)
    {
      AllOkInChunk(i, k, tsz);
      if !ok { OkInChunk(i, k + got); }
    }

    // The request: n bytes at p, of which acc have been delivered; fpos is the position now.
    ghost predicate Reading(was: seq<byte>, now: seq<byte>, p: nat, n: nat, acc: nat, buflen: nat, fpos: nat)
      requires Valid()
      reads elfcorebuf, elfnotesBuf
    {
      && acc + buflen == n <= |was| && fpos == p + acc && p + n <= size
      && Delivered(File(), was, now, p, acc)
      && AllOk(p, fpos)
    }

    lemma {:induction false} StartReading(was: seq<byte>, p: nat, n: nat)
      requires Valid() && n <= |was| && p + n <= size
      ensures Reading(was, was, p, n, 0, n, p)
    {
      assert was == Splice(was, 0, []);
    }

    lemma {:induction false} FinishReading(was: seq<byte>, now: seq<byte>, p: nat, n: nat, acc: nat, fpos: nat,
                                           asked: nat)
      requires Valid() && Reading(was, now, p, n, acc, 0, fpos)
      requires p < size && n == End(p, asked) - p
      ensures acc == n == |Slice(File(), p, asked)| && fpos == p + n
      ensures now == Splice(was, 0, Slice(File(), p, asked))
      ensures AllOk(p, End(p, asked))
    {
    }

    /** The next bytes come from one of the buffers. */
    lemma {:induction false} ReadMore(was: seq<byte>, now: seq<byte>, p: nat, n: nat, acc: nat, buflen: nat,
                                      fpos: nat, x: seq<byte>)
      requires Valid() && Reading(was, now, p, n, acc, buflen, fpos) && |x| <= buflen && |now| == |was|
      requires fpos + |x| <= elfcorebufSz + elfnotesSz && x == File()[fpos..fpos + |x|]
      ensures acc + |x| <= |now| && Reading(was, Splice(now, acc, x), p, n, acc + |x|, buflen - |x|, fpos + |x|)
    {
      DeliverMore(File(), was, now, p, acc, x);
    }

    lemma {:induction false} BufferInFile(i: nat, j: nat)
      requires Valid() && i <= j
      ensures j <= elfcorebufSz ==> File()[i..j] == elfcorebuf[i..j]
      ensures elfcorebufSz <= i && j <= elfcorebufSz + elfnotesSz
        ==> File()[i..j] == elfnotesBuf[i - elfcorebufSz..j - elfcorebufSz]
    {
      var a, b, c := elfcorebuf[..elfcorebufSz], elfnotesBuf[..elfnotesSz], ChunkBytes(mem, list);
      assert File() == a + (b + c);
      if j <= elfcorebufSz {
        SliceLeft(a, b + c, i, j);
        ArraySlice(elfcorebuf, elfcorebufSz, i, j);
      } else if elfcorebufSz <= i && j <= elfcorebufSz + elfnotesSz {
        SliceRight(a, b + c, i, j);
        SliceLeft(b, c, i - |a|, j - |a|);
        ArraySlice(elfnotesBuf, elfnotesSz, i - elfcorebufSz, j - elfcorebufSz);
      }
    }

    /** The part of a read that one of the two buffers serves; base is where it starts in the file. */
    method ReadBuffer(buffer: array<byte>, src: array<byte>, base: nat, end: nat, acc0: nat, buflen0: nat, fpos0: nat,
                      ghost p: nat, ghost n: nat, ghost was: seq<byte>)
      returns (acc: nat, buflen: nat, fpos: nat)
      requires Valid() && buffer !in {elfcorebuf, elfnotesBuf} && buffer.Length == |was|
      requires (src == elfcorebuf && base == 0 && end == elfcorebufSz)
            || (src == elfnotesBuf && base == elfcorebufSz && end == elfcorebufSz + elfnotesSz)
      requires base <= fpos0 < end
      requires Reading(was, buffer[..], p, n, acc0, buflen0, fpos0)
      modifies buffer
      ensures Reading(was, buffer[..], p, n, acc, buflen, fpos)
      ensures buflen == 0 || fpos == end
    {
      var tsz := Min(end - fpos0, buflen0);
      var x := FromBuffer(src, base, end, fpos0, tsz);
      ReadMore(was, buffer[..], p, n, acc0, buflen0, fpos0, x);
      CopyTo(buffer, acc0, x);
      return acc0 + tsz, buflen0 - tsz, fpos0 + tsz;
    }

    /** The bytes of one of the two buffers for a stretch of the file. */
    method FromBuffer(src: array<byte>, base: nat, end: nat, fpos: nat, tsz: nat) returns (x: seq<byte>)
      requires Valid()
      requires (src == elfcorebuf && base == 0 && end == elfcorebufSz)
            || (src == elfnotesBuf && base == elfcorebufSz && end == elfcorebufSz + elfnotesSz)
      requires base <= fpos && fpos + tsz <= end
      ensures |x| == tsz && x == File()[fpos..fpos + tsz]
    {
      BufferInFile(fpos, fpos + tsz);
      return src[fpos - base..fpos - base + tsz];
    }

    /** The list_for_each_entry loop over the chunks. */
    method ReadChunks(buffer: array<byte>, acc0: nat, buflen0: nat, fpos0: nat,
                      ghost p: nat, ghost n: nat, ghost was: seq<byte>)
      returns (ret: int, fpos: nat)
      requires Valid() && buffer !in {elfcorebuf, elfnotesBuf} && buffer.Length == |was|
      requires elfcorebufSz + elfnotesSz <= fpos0 && Reading(was, buffer[..], p, n, acc0, buflen0, fpos0)
      modifies buffer
      ensures ret >= 0 ==> ret == n && Reading(was, buffer[..], p, n, n, 0, fpos)
      ensures ret < 0 ==> !AllOk(p, p + n)
    {
      var i, acc, buflen := 0, acc0, buflen0;
      fpos := fpos0;
      assert list[..0] == [];
      while i < |list|
        invariant i <= |list| && elfcorebufSz + elfnotesSz + Total(list[..i]) <= fpos
        invariant Reading(was, buffer[..], p, n, acc, buflen, fpos)
      {
        ret, acc, buflen, fpos := ChunkTurn(buffer, i, acc, buflen, fpos, p, n, was);
        if ret < 0 { return ret, fpos; }
        if buflen == 0 { return acc, fpos; }
        i := i + 1;
      }
      assert list[..i] == list;
      return acc, fpos;
    }

    /** The turn of the loop for chunk i. */
    method ChunkTurn(buffer: array<byte>, i: nat, acc0: nat, buflen0: nat, fpos0: nat,
                     ghost p: nat, ghost n: nat, ghost was: seq<byte>)
      returns (err: int, acc: nat, buflen: nat, fpos: nat)
      requires Valid() && buffer !in {elfcorebuf, elfnotesBuf} && buffer.Length == |was|
      requires i < |list| && elfcorebufSz + elfnotesSz + Total(list[..i]) <= fpos0
      requires Reading(was, buffer[..], p, n, acc0, buflen0, fpos0)
      modifies buffer
      ensures err >= 0 ==> Reading(was, buffer[..], p, n, acc, buflen, fpos)
      ensures err >= 0 && buflen > 0 ==> elfcorebufSz + elfnotesSz + Total(list[..i + 1]) <= fpos
      ensures err < 0 ==> !AllOk(p, p + n)
    {
      acc, buflen, fpos := acc0, buflen0, fpos0;
      OffsetAt(list, elfcorebufSz + elfnotesSz, i);
      var end := list[i].offset + list[i].size;
      if fpos >= end { return 0, acc, buflen, fpos; }
      var tsz := Min(end - fpos, buflen);
      ghost var got;
      err, got := ReadChunk(buffer, acc, i, fpos, tsz, p, was);
      if err >= 0 { buflen, fpos, acc := buflen - tsz, fpos + tsz, acc + tsz; }
    }

    /**
     * __read_vmcore: delivers the slice of the flat image from fpos on and advances the
     * position by its length.  It fails exactly when some byte of that slice lies on an
     * old page that cannot be copied.
     */
    method ReadVmcore(buffer: array<byte>, buflen0: nat, fpos0: nat) returns (ret: int, fpos: nat)
      requires Valid() && buflen0 <= buffer.Length && buffer !in {elfcorebuf, elfnotesBuf}
      modifies buffer
      ensures ret >= 0 ==> ret == |Slice(File(), fpos0, buflen0)| && fpos == fpos0 + ret
                           && buffer[..] == Splice(old(buffer[..]), 0, Slice(File(), fpos0, buflen0))
      ensures ret >= 0 <==> AllOk(fpos0, End(fpos0, buflen0))
    {
      fpos := fpos0;
      ghost var was, p := buffer[..], fpos0;
      if buflen0 == 0 || fpos >= size {
        assert was == Splice(was, 0, []);
        return 0, fpos;
      }
      var buflen: nat := if buflen0 > size - fpos then size - fpos else buflen0;
      ghost var n := buflen;
      StartReading(was, p, n);
      var acc: nat := 0;
      if fpos < elfcorebufSz {
        acc, buflen, fpos := ReadBuffer(buffer, elfcorebuf, 0, elfcorebufSz, acc, buflen, fpos, p, n, was);
        if buflen == 0 {
          FinishReading(was, buffer[..], p, n, acc, fpos, buflen0);
          return acc, fpos;
        }
      }
      if fpos < elfcorebufSz + elfnotesSz {
        acc, buflen, fpos :=
          ReadBuffer(buffer, elfnotesBuf, elfcorebufSz, elfcorebufSz + elfnotesSz, acc, buflen, fpos, p, n, was);
        if buflen == 0 {
          FinishReading(was, buffer[..], p, n, acc, fpos, buflen0);
          return acc, fpos;
        }
      }
      ret, fpos := ReadChunks(buffer, acc, buflen, fpos, p, n, was);
      if ret >= 0 { FinishReading(was, buffer[..], p, n, n, fpos, buflen0); }
    }
  }
}
