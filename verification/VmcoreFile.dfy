/**
 * The exported /proc/vmcore file: HamielecKarol/cw05/proc/vmcore.c.  The file is the
 * rewritten ELF headers, the merged notes and the memory chunks, one after the other.
 */
module VmcoreFile {
  import opened Oldmem

  // struct vmcore: a piece of old memory and its offset in the file.
  datatype Chunk = Chunk(paddr: nat, size: nat, offset: nat)

  function Total(list: seq<Chunk>): nat {
    if list == [] then 0 else list[0].size + Total(list[1..])
  }

  /** Each chunk's offset is where the parts before it end. */
  predicate Offsets(list: seq<Chunk>, off: nat) {
    list == [] || (list[0].offset == off && Offsets(list[1..], off + list[0].size))
  }

  /** The old address behind byte q of the concatenated chunks. */
  function AddrAt(list: seq<Chunk>, q: nat): nat
    requires q < Total(list)
  {
    if q < list[0].size then list[0].paddr + q else AddrAt(list[1..], q - list[0].size)
  }

  function ChunkBytes(m: OldMem, list: seq<Chunk>): (r: seq<byte>)
    ensures |r| == Total(list)
  {
    seq(Total(list), q requires 0 <= q < Total(list) => OldByte(m, AddrAt(list, q)))
  }

  /** The flat image: headers ++ notes ++ chunks. */
  function Image(m: OldMem, headers: seq<byte>, notes: seq<byte>, list: seq<Chunk>): (r: seq<byte>)
    ensures |r| == |headers| + |notes| + Total(list)
  {
    headers + notes + ChunkBytes(m, list)
  }

  /** File position p can be read: its bytes are in a buffer or on a readable old page. */
  predicate PosOk(m: OldMem, base: nat, list: seq<Chunk>, p: nat)
    requires p < base + Total(list)
  {
    p < base || AddrOk(m, AddrAt(list, p - base))
  }

  // ---------- positions and chunks ----------

  lemma {:induction false} OffsetAt(list: seq<Chunk>, off: nat, i: nat)
    requires Offsets(list, off) && i < |list|
    ensures list[i].offset == off + Total(list[..i])
    ensures Total(list[..i + 1]) == Total(list[..i]) + list[i].size <= Total(list)
  {
    if i == 0 {
      assert list[..1] == [list[0]] && list[..0] == [];
      assert Total(list[..1]) == list[0].size + Total(list[..1][1..]);
    } else {
      OffsetAt(list[1..], off + list[0].size, i - 1);
      assert list[..i][1..] == list[1..][..i - 1];
      assert list[..i + 1][1..] == list[1..][..i];
    }
  }

  /** Inside chunk i the file position and the old address move together. */
  lemma {:induction false} AddrInChunk(list: seq<Chunk>, i: nat, k: nat)
    requires i < |list| && k < list[i].size
    ensures Total(list[..i]) + k < Total(list)
    ensures AddrAt(list, Total(list[..i]) + k) == list[i].paddr + k
  {
    if i == 0 {
      assert list[..0] == [];
    } else {
      AddrInChunk(list[1..], i - 1, k);
      assert list[..i][1..] == list[1..][..i - 1];
    }
  }

  lemma {:induction false} ChunkByteAt(m: OldMem, list: seq<Chunk>, i: nat, k: nat)
    requires i < |list| && k < list[i].size
    ensures Total(list[..i]) + k < Total(list)
    ensures ChunkBytes(m, list)[Total(list[..i]) + k] == OldByte(m, list[i].paddr + k)
  {
    AddrInChunk(list, i, k);
    var q := Total(list[..i]) + k;
    assert ChunkBytes(m, list)[q] == OldByte(m, AddrAt(list, q));
  }

  /** A stretch of chunk i in the image is the old memory it came from. */
  lemma {:induction false} ChunkSlice(m: OldMem, list: seq<Chunk>, i: nat, k: nat, n: nat)
    requires i < |list| && k + n <= list[i].size
    ensures var q := Total(list[..i]) + k;
      q + n <= Total(list) && ChunkBytes(m, list)[q..q + n] == OldBytes(m, list[i].paddr + k, n)
  {
    TotalPrefix(list, i);
    if n > 0 {
      ChunkSlice(m, list, i, k, n - 1);
      ChunkByteAt(m, list, i, k + n - 1);
      OldBytesSplit(m, list[i].paddr + k, n, n - 1);
      var q, all := Total(list[..i]) + k, ChunkBytes(m, list);
      assert all[q..q + n] == all[q..q + n - 1] + [all[q + n - 1]];
      assert OldBytes(m, list[i].paddr + k + (n - 1), 1) == [OldByte(m, list[i].paddr + k + (n - 1))];
    }
  }

  lemma {:induction false} TotalPrefix(list: seq<Chunk>, i: nat)
    requires i < |list|
    ensures Total(list[..i]) + list[i].size <= Total(list)
  {
    if i > 0 {
      TotalPrefix(list[1..], i - 1);
      assert list[..i][1..] == list[1..][..i - 1];
    }
  }
}
