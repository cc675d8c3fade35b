/**
 * PT_LOAD headers: process_ptload_program_headers_elf64 rewrites their offsets and lists
 * their memory, set_vmcore_list_offsets computes the offsets of the list on its own.
 */
module VmcoreLoad {
  import opened Oldmem
  import Seqs
  import opened Elf
  import opened VmcoreFile
  import opened VmcoreHeaders

  function ChunkSize(p: Phdr): nat {
    RoundUp(p.offset + p.memsz) - RoundDown(p.offset)
  }

  // The following two look at the first n headers of t.

  function LoadSize(t: seq<Phdr>, n: nat): nat
    requires n <= |t|
  {
    if n == 0 then 0
    else if t[n - 1].ptype == PT_LOAD then LoadSize(t, n - 1) + ChunkSize(t[n - 1])
    else LoadSize(t, n - 1)
  }

  function Loads(t: seq<Phdr>, n: nat): seq<Chunk>
    requires n <= |t|
  {
    if n == 0 then []
    else if t[n - 1].ptype == PT_LOAD then
      Loads(t, n - 1) + [Chunk(RoundDown(t[n - 1].offset), ChunkSize(t[n - 1]), 0)]
    else Loads(t, n - 1)
  }

  /** Header i of the exported table; the chunks start at file offset off. */
  function Relocated(t: seq<Phdr>, off: nat, i: nat): Phdr
    requires i < |t|
  {
    if t[i].ptype == PT_LOAD
    then t[i].(offset := off + LoadSize(t, i) + (t[i].offset - RoundDown(t[i].offset)))
    else t[i]
  }

  function Relocate(t: seq<Phdr>, off: nat): (r: seq<Phdr>)
    ensures |r| == |t|
  {
    seq(|t|, i requires 0 <= i < |t| => Relocated(t, off, i))
  }

  function WithOffsets(list: seq<Chunk>, off: nat): (r: seq<Chunk>)
    ensures |r| == |list|
  {
    if list == [] then []
    else [list[0].(offset := off)] + WithOffsets(list[1..], off + list[0].size)
  }

  // ---------- facts ----------

  lemma {:induction false} LoadSizeMonotone(t: seq<Phdr>, i: nat, n: nat)
    requires i <= n <= |t|
    ensures LoadSize(t, i) <= LoadSize(t, n)
  {
    if i < n { LoadSizeMonotone(t, i, n - 1); }
  }

  lemma {:induction false} TotalAppend(s: seq<Chunk>, c: Chunk)
    ensures Total(s + [c]) == Total(s) + c.size
  {
    if s != [] {
      assert (s + [c])[1..] == s[1..] + [c];
      TotalAppend(s[1..], c);
    }
  }

  lemma {:induction false} LoadsTotal(t: seq<Phdr>, n: nat)
    requires n <= |t|
    ensures Total(Loads(t, n)) == LoadSize(t, n)
  {
    if n > 0 {
      LoadsTotal(t, n - 1);
      if t[n - 1].ptype == PT_LOAD {
        TotalAppend(Loads(t, n - 1), Chunk(RoundDown(t[n - 1].offset), ChunkSize(t[n - 1]), 0));
      }
    }
  }

  lemma {:induction false} LoadsPrefix(t: seq<Phdr>, i: nat, n: nat)
    requires i <= n <= |t|
    ensures |Loads(t, i)| <= |Loads(t, n)| && Loads(t, n)[..|Loads(t, i)|] == Loads(t, i)
  {
    if i < n {
      LoadsPrefix(t, i, n - 1);
      assert Loads(t, n)[..|Loads(t, i)|] == Loads(t, n - 1)[..|Loads(t, i)|];
    }
  }

  lemma {:induction false} OffsetsSet(list: seq<Chunk>, off: nat)
    ensures Offsets(WithOffsets(list, off), off) && Total(WithOffsets(list, off)) == Total(list)
    ensures forall k :: 0 <= k < |list| ==>
      WithOffsets(list, off)[k] == list[k].(offset := WithOffsets(list, off)[k].offset)
  {
    if list != [] {
      var r := WithOffsets(list, off);
      OffsetsSet(list[1..], off + list[0].size);
      assert r[1..] == WithOffsets(list[1..], off + list[0].size);
      forall k | 0 <= k < |list| ensures r[k] == list[k].(offset := r[k].offset) {
        if k > 0 { assert r[k] == r[1..][k - 1] && list[k] == list[1..][k - 1]; }
      }
    }
  }

  lemma {:induction false} TotalOfPrefix(list: seq<Chunk>, off: nat, k: nat)
    requires k <= |list|
    ensures Total(WithOffsets(list, off)[..k]) == Total(list[..k])
  {
    if k > 0 {
      var r := WithOffsets(list, off);
      TotalOfPrefix(list[1..], off + list[0].size, k - 1);
      assert r[..k][1..] == r[1..][..k - 1] && r[1..] == WithOffsets(list[1..], off + list[0].size);
      assert list[..k][1..] == list[1..][..k - 1];
    }
  }

  /**
   * The two computations agree: the chunk listed for PT_LOAD header i covers its memory,
   * and its own offset plus the place inside the chunk is the header's new offset.
   */
  lemma {:induction false} OffsetsAgree(t: seq<Phdr>, off: nat, i: nat)
    requires i < |t| && t[i].ptype == PT_LOAD
    ensures var list, k, p := WithOffsets(Loads(t, |t|), off), |Loads(t, i)|, t[i];
      && k < |list|
      && list[k].paddr == RoundDown(p.offset)
      && p.offset - list[k].paddr + p.memsz <= list[k].size
      && Relocated(t, off, i).offset == list[k].offset + (p.offset - list[k].paddr)
  {
    var plain, k, p := Loads(t, |t|), |Loads(t, i)|, t[i];
    LoadsPrefix(t, i + 1, |t|);
    LoadsPrefix(t, i, |t|);
    assert plain[..k + 1][k] == plain[k] == Chunk(RoundDown(p.offset), ChunkSize(p), 0);
    OffsetsSet(plain, off);
    var list := WithOffsets(plain, off);
    OffsetAt(list, off, k);
    TotalOfPrefix(plain, off, k);
    LoadsTotal(t, i);
  }

  /**
   * One chunk is listed for each PT_LOAD header, in order: the pages of 4096 bytes that its memory
   * touches, no more.
   */
  lemma {:induction false} ChunkPages(t: seq<Phdr>, off: nat, i: nat)
    requires i < |t| && t[i].ptype == PT_LOAD
    ensures var list, k, p := WithOffsets(Loads(t, |t|), off), |Loads(t, i)|, t[i];
      && k < |list|
      && list[k].paddr % 4096 == 0 && p.offset - 4096 < list[k].paddr <= p.offset
      && list[k].size % 4096 == 0
      && p.offset + p.memsz <= list[k].paddr + list[k].size < p.offset + p.memsz + 4096
    ensures |Loads(t, i + 1)| == |Loads(t, i)| + 1
  {
    var plain, k, p := Loads(t, |t|), |Loads(t, i)|, t[i];
    LoadsPrefix(t, i + 1, |t|);
    assert plain[..k + 1][k] == plain[k] == Chunk(RoundDown(p.offset), ChunkSize(p), 0);
    OffsetsSet(plain, off);
    assert RoundUp(p.offset + p.memsz) >= RoundDown(p.offset);
    Difference(RoundUp(p.offset + p.memsz), RoundDown(p.offset));
  }

  lemma {:induction false} Difference(x: nat, y: nat)
    requires y <= x && x % PAGE_SIZE == 0 && y % PAGE_SIZE == 0
    ensures (x - y) % PAGE_SIZE == 0
  {
  }

  // ---------- the code ----------

  /** The first i headers have been processed. */
  ghost predicate LoadedTo(was: seq<byte>, now: seq<byte>, n: nat, i: nat, off: nat, list: seq<Chunk>, vmcoreOff: nat) {
    && i <= n && OnlyTable(was, now, n)
    && Table(now, n) == Relocate(Table(was, n), off)[..i] + Table(was, n)[i..]
    && list == Loads(Table(was, n), i) && vmcoreOff == off + LoadSize(Table(was, n), i)
  }

  lemma {:induction false} LoadNext(was: seq<byte>, before: seq<byte>, now: seq<byte>, n: nat, i: nat, off: nat,
                                    list: seq<Chunk>, vmcoreOff: nat)
    requires i < n && LoadedTo(was, before, n, i, off, list, vmcoreOff) && OnlyTable(before, now, n)
    requires Table(now, n) == Table(before, n)[i := Relocated(Table(was, n), off, i)]
    ensures LoadedTo(was, now, n, i + 1, off, Loads(Table(was, n), i + 1), off + LoadSize(Table(was, n), i + 1))
  {
    Seqs.PrefixNext(Table(was, n), Relocate(Table(was, n), off), i);
  }

  method ProcessHeader(buf: array<byte>, n: nat, i: nat, list0: seq<Chunk>, vmcoreOff0: nat,
                       ghost was: seq<byte>, ghost off: nat)
    returns (list: seq<Chunk>, vmcoreOff: nat)
    requires buf.Length == |was| && i < n && LoadedTo(was, buf[..], n, i, off, list0, vmcoreOff0)
    requires off + LoadSize(Table(was, n), n) + PAGE_SIZE <= U64
    modifies buf
    ensures LoadedTo(was, buf[..], n, i + 1, off, list, vmcoreOff)
  {
    ghost var before, t := buf[..], Table(was, n);
    var p := ReadPhdr(buf, n, i, before);
    assert p == t[i];
    list, vmcoreOff := list0, vmcoreOff0;
    if p.ptype != PT_LOAD {
      assert Table(before, n)[i := p] == Table(before, n);
      LoadNext(was, before, before, n, i, off, list0, vmcoreOff0);
      return;
    }
    list, vmcoreOff := ProcessLoad(buf, n, i, p, list, vmcoreOff, was, before, off);
  }

  /** A PT_LOAD header: one more chunk of memory, and the new offset. */
  method ProcessLoad(buf: array<byte>, n: nat, i: nat, p: Phdr, list0: seq<Chunk>, vmcoreOff0: nat,
                     ghost was: seq<byte>, ghost before: seq<byte>, ghost off: nat)
    returns (list: seq<Chunk>, vmcoreOff: nat)
    requires buf[..] == before && |before| == |was| && i < n && LoadedTo(was, before, n, i, off, list0, vmcoreOff0)
    requires off + LoadSize(Table(was, n), n) + PAGE_SIZE <= U64 && p == Table(was, n)[i] && p.ptype == PT_LOAD
    modifies buf
    ensures LoadedTo(was, buf[..], n, i + 1, off, list, vmcoreOff)
  {
    var offset;
    list, vmcoreOff, offset := LoadChunk(p, list0, vmcoreOff0, Table(was, n), off, i);
    SetField(buf, n, i, 8, offset);
    LoadStored(was, before, buf[..], n, i, off, offset, list0, vmcoreOff0, list, vmcoreOff);
  }

  /** The numbers of a PT_LOAD header: its chunk, its new offset, and where the next chunk starts. */
  method LoadChunk(p: Phdr, list0: seq<Chunk>, vmcoreOff0: nat, ghost t: seq<Phdr>, ghost off: nat, ghost i: nat)
    returns (list: seq<Chunk>, vmcoreOff: nat, offset: nat)
    requires i < |t| && p == t[i] && p.ptype == PT_LOAD && list0 == Loads(t, i) && vmcoreOff0 == off + LoadSize(t, i)
    requires off + LoadSize(t, |t|) + PAGE_SIZE <= U64
    ensures offset < U64 && Relocated(t, off, i) == p.(offset := offset)
    ensures list == Loads(t, i + 1) && vmcoreOff == off + LoadSize(t, i + 1)
  {
    var paddr := p.offset;
    var start := RoundDown(paddr);
    var end := RoundUp(paddr + p.memsz);
    var size := end - start;
    LoadValues(t, off, i, vmcoreOff0);
    list := list0 + [Chunk(start, size, 0)];
    offset := vmcoreOff0 + (paddr - start);
    vmcoreOff := vmcoreOff0 + size;
  }

  /** What the header looks like once its new offset is stored. */
  lemma {:induction false} LoadStored(was: seq<byte>, before: seq<byte>, now: seq<byte>, n: nat, i: nat, off: nat,
                                      v: nat, list0: seq<Chunk>, vmcoreOff0: nat, list: seq<Chunk>, vmcoreOff: nat)
    requires i < n && LoadedTo(was, before, n, i, off, list0, vmcoreOff0)
    requires FieldSet(before, now, n, i, 8, v) && Relocated(Table(was, n), off, i) == Table(was, n)[i].(offset := v)
    requires list == Loads(Table(was, n), i + 1) && vmcoreOff == off + LoadSize(Table(was, n), i + 1)
    ensures LoadedTo(was, now, n, i + 1, off, list, vmcoreOff)
  {
    assert Table(before, n)[i] == Table(was, n)[i];
    LoadNext(was, before, now, n, i, off, list0, vmcoreOff0);
  }

  /** The values that the code computes for a PT_LOAD header. */
  lemma {:induction false} LoadValues(t: seq<Phdr>, off: nat, i: nat, vmcoreOff: nat)
    requires i < |t| && t[i].ptype == PT_LOAD && vmcoreOff == off + LoadSize(t, i)
    requires off + LoadSize(t, |t|) + PAGE_SIZE <= U64
    ensures var start, size := RoundDown(t[i].offset), RoundUp(t[i].offset + t[i].memsz) - RoundDown(t[i].offset);
      && 0 <= size && vmcoreOff + (t[i].offset - start) < U64
      && Relocated(t, off, i) == t[i].(offset := vmcoreOff + (t[i].offset - start))
      && Loads(t, i + 1) == Loads(t, i) + [Chunk(start, size, 0)]
      && vmcoreOff + size == off + LoadSize(t, i + 1)
  {
    LoadSizeMonotone(t, i, |t|);
  }

  /** process_ptload_program_headers_elf64. */
  method ProcessPtLoad(buf: array<byte>, n: nat, elfsz: nat, notesSz: nat, ghost off: nat) returns (list: seq<Chunk>)
    requires At(n) <= buf.Length && off == elfsz + notesSz
    requires off + LoadSize(Table(buf[..], n), n) + PAGE_SIZE <= U64
    modifies buf
    ensures OnlyTable(old(buf[..]), buf[..], n)
    ensures Table(buf[..], n) == Relocate(Table(old(buf[..]), n), off)
    ensures list == Loads(Table(old(buf[..]), n), n)
  {
    ghost var was := buf[..];
    var i, vmcoreOff: nat := 0, elfsz + notesSz;
    list := [];
    while i < n
      invariant i <= n && LoadedTo(was, buf[..], n, i, off, list, vmcoreOff)
    {
      list, vmcoreOff := ProcessHeader(buf, n, i, list, vmcoreOff, was, off);
      i := i + 1;
    }
  }

  /** set_vmcore_list_offsets. */
  method SetListOffsets(list0: seq<Chunk>, elfsz: nat, notesSz: nat, ghost off: nat) returns (list: seq<Chunk>)
    requires off == elfsz + notesSz
    ensures list == WithOffsets(list0, off)
  {
    var vmcoreOff: nat := elfsz + notesSz;
    var i := 0;
    list := list0;
    assert list0[0..] == list0;
    while i < |list0|
      invariant i <= |list0| == |list| && list[i..] == list0[i..]
      invariant WithOffsets(list0, off) == list[..i] + WithOffsets(list0[i..], vmcoreOff)
    {
      assert list0[i..][1..] == list0[i + 1..];
      list := list[i := list[i].(offset := vmcoreOff)];
      vmcoreOff := vmcoreOff + list[i].size;
      i := i + 1;
    }
  }

  /** get_vmcore_size. */
  method GetVmcoreSize(elfsz: nat, notesSz: nat, list: seq<Chunk>) returns (size: nat)
    ensures size == elfsz + notesSz + Total(list)
  {
    size := elfsz + notesSz;
    var i := 0;
    assert list[0..] == list;
    while i < |list|
      invariant i <= |list|
      invariant size + Total(list[i..]) == elfsz + notesSz + Total(list)
    {
      assert list[i..][1..] == list[i + 1..];
      size := size + list[i].size;
      i := i + 1;
    }
  }
}
