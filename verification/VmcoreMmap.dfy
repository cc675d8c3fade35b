/**
 * Mapping the exported file: remap_oldmem_pfn_checked and mmap_vmcore.  Addresses inside
 * the mapped area are counted in pages.
 */
module VmcoreMmap {
  import opened Oldmem
  import opened Seqs
  import opened Elf
  import opened VmcoreFile
  import opened VmcoreDevice
  import opened VmcoreLoad
  import opened VmcoreExport

  // A page frame: page k of the header or notes buffer, a page of old memory, the zero page.
  datatype Frame = HeaderFrame(k: nat) | NotesFrame(k: nat) | OldFrame(pfn: nat) | ZeroFrame

  // ---------- page tables ----------

  /** pages with consecutive frames mapped from page number `at` on. */
  function Extend(pages: map<nat, Frame>, at: nat, frames: seq<Frame>): map<nat, Frame>
    decreases |frames|
  {
    if frames == [] then pages
    else Extend(pages[at := frames[0]], at + 1, frames[1..])
  }

  /** pages without the n pages from `at` on. */
  function Unmap(pages: map<nat, Frame>, at: nat, n: nat): map<nat, Frame> {
    map k | k in pages && !(at <= k < at + n) :: pages[k]
  }

  ghost predicate Free(pages: map<nat, Frame>, at: nat, n: nat) {
    forall k :: at <= k < at + n ==> k !in pages
  }

  lemma {:induction false} ExtendTwice(pages: map<nat, Frame>, at: nat, a: seq<Frame>, mid: nat, b: seq<Frame>)
    requires mid == at + |a|
    ensures Extend(Extend(pages, at, a), mid, b) == Extend(pages, at, a + b)
    decreases |a|
  {
    if a == [] {
      assert a + b == b;
    } else {
      ExtendTwice(pages[at := a[0]], at + 1, a[1..], mid, b);
      assert (a + b)[1..] == a[1..] + b;
    }
  }

  /** The pages of the range show the frames, all others are as before. */
  lemma {:induction false} ExtendAt(pages: map<nat, Frame>, at: nat, frames: seq<Frame>, k: nat)
    ensures var e := Extend(pages, at, frames);
      if at <= k < at + |frames| then k in e && e[k] == frames[k - at]
      else (k in e <==> k in pages) && (k in e ==> e[k] == pages[k])
    decreases |frames|
  {
    if frames != [] { ExtendAt(pages[at := frames[0]], at + 1, frames[1..], k); }
  }

  lemma {:induction false} UnmapExtend(pages: map<nat, Frame>, at: nat, frames: seq<Frame>)
    requires Free(pages, at, |frames|)
    ensures Unmap(Extend(pages, at, frames), at, |frames|) == pages
  {
    var e := Extend(pages, at, frames);
    forall k: nat ensures k in Unmap(e, at, |frames|) <==> k in pages { ExtendAt(pages, at, frames, k); }
    forall k | k in pages ensures Unmap(e, at, |frames|)[k] == pages[k] { ExtendAt(pages, at, frames, k); }
  }

  lemma {:induction false} FreeRest(pages: map<nat, Frame>, at: nat, frames: seq<Frame>, mid: nat, n: nat)
    requires Free(pages, at, |frames| + n) && mid == at + |frames|
    ensures Free(Extend(pages, at, frames), mid, n)
  {
    forall k | mid <= k < mid + n ensures k !in Extend(pages, at, frames) { ExtendAt(pages, at, frames, k); }
  }

  function OldFrames(pfn: nat, n: nat): (r: seq<Frame>)
    ensures |r| == n
  {
    seq(n, i requires 0 <= i < n => OldFrame(pfn + i))
  }

  /** Old pages one by one, the zero page in place of each page that is not RAM. */
  function CheckedFrame(m: OldMem, pfn: nat): Frame {
    if PfnIsRam(m, pfn) == 0 then ZeroFrame else OldFrame(pfn)
  }

  function CheckedFrames(m: OldMem, pfn: nat, n: nat): (r: seq<Frame>)
    ensures |r| == n
  {
    seq(n, i requires 0 <= i < n => CheckedFrame(m, pfn + i))
  }

  /** The zero page stands for exactly the pages for which the registered hook returns 0. */
  lemma {:induction false} CheckedFrameAt(m: OldMem, pfn: nat, n: nat, i: nat)
    requires i < n
    ensures CheckedFrames(m, pfn, n)[i]
            == if m.ram.Some? && m.ram.value(pfn + i) == 0 then ZeroFrame else OldFrame(pfn + i)
  {
    assert CheckedFrames(m, pfn, n)[i] == CheckedFrame(m, pfn + i);
  }

  /** Mapping n old pages each with a call of its own. */
  function PageByPage(m: OldMem, pages: map<nat, Frame>, at: nat, pfn: nat, n: nat): map<nat, Frame> {
    if n == 0 then pages
    else Extend(PageByPage(m, pages, at, pfn, n - 1), at + (n - 1), [CheckedFrame(m, pfn + (n - 1))])
  }

  lemma {:induction false} PageByPageIsChecked(m: OldMem, pages: map<nat, Frame>, at: nat, pfn: nat, n: nat)
    ensures PageByPage(m, pages, at, pfn, n) == Extend(pages, at, CheckedFrames(m, pfn, n))
  {
    if n > 0 {
      var k, a := n - 1, CheckedFrames(m, pfn, n - 1);
      PageByPageIsChecked(m, pages, at, pfn, k);
      CheckedNext(m, pfn, k, n);
      ExtendTwice(pages, at, a, at + k, [CheckedFrame(m, pfn + k)]);
    }
  }

  lemma {:induction false} CheckedNext(m: OldMem, pfn: nat, k: nat, n: nat)
    requires n == k + 1
    ensures CheckedFrames(m, pfn, n) == CheckedFrames(m, pfn, k) + [CheckedFrame(m, pfn + k)]
  {
    var all, parts := CheckedFrames(m, pfn, n), CheckedFrames(m, pfn, k) + [CheckedFrame(m, pfn + k)];
    forall i | 0 <= i < n ensures all[i] == parts[i] {}
  }

  // A run of RAM pages, from page `start` to page `end`, after the first k pages.
  lemma {:induction false} CheckedRun(m: OldMem, pfn: nat, k: nat, start: nat, end: nat, n: nat)
    requires start == pfn + k && start <= end == pfn + n
    requires forall p :: start <= p < end ==> PfnIsRam(m, p) != 0
    ensures CheckedFrames(m, pfn, n) == CheckedFrames(m, pfn, k) + OldFrames(start, end - start)
  {
    var all, parts := CheckedFrames(m, pfn, n), CheckedFrames(m, pfn, k) + OldFrames(start, end - start);
    forall i | 0 <= i < n ensures all[i] == parts[i] {
      if i >= k { assert parts[i] == OldFrames(start, end - start)[i - k] == OldFrame(pfn + i); }
    }
  }

  // ---------- the mapped area ----------

  datatype Flag = Write | Exec | MayWrite | MayExec | MixedMap

  const EAGAIN: int := 11
  const EPERM: int := 1

  /**
   * The address space around a vm_area_struct.  The remapping functions of the memory manager
   * map all their pages or none; fails says which of the calls fail.
   */
  class VmArea {
    const fails: nat -> bool
    var calls: nat
    var pages: map<nat, Frame>
    var flags: set<Flag>

    /** Whether none of the remap calls since call number c failed. */
    ghost predicate NoneFailed(c: nat)
      reads this
    {
      forall i :: c <= i < calls ==> !fails(i)
    }

    constructor (fails: nat -> bool, pages: map<nat, Frame>, flags: set<Flag>)
      ensures this.fails == fails && calls == 0 && this.pages == pages && this.flags == flags
    {
      this.fails, calls, this.pages, this.flags := fails, 0, pages, flags;
    }

    method Remap(at: nat, frames: seq<Frame>) returns (err: int)
      modifies this`calls, this`pages
      ensures calls == old(calls) + 1 && err == (if fails(old(calls)) then -1 else 0)
      ensures pages == if err == 0 then Extend(old(pages), at, frames) else old(pages)
    {
      err := if fails(calls) then -1 else 0;
      calls := calls + 1;
      if err == 0 { pages := Extend(pages, at, frames); }
    }

    method DoMunmap(at: nat, n: nat)
      modifies this`pages
      ensures pages == Unmap(old(pages), at, n)
    {
      pages := Unmap(pages, at, n);
    }

    /** The first n pages from pfn on are mapped at `from`, and no call since call c failed. */
    ghost predicate Mapped(m: OldMem, before: map<nat, Frame>, from: nat, pfn: nat, n: nat, c: nat)
      reads this
    {
      c <= calls && NoneFailed(c) && pages == Extend(before, from, CheckedFrames(m, pfn, n))
    }

    /** A remap after the first len pages; on failure what the earlier calls mapped is unmapped. */
    method RemapNext(m: OldMem, from: nat, len: nat, frames: seq<Frame>,
                     ghost before: map<nat, Frame>, ghost pfn: nat, ghost c: nat, ghost n: nat)
      returns (err: int)
      requires Mapped(m, before, from, pfn, len, c) && Free(before, from, n) && len + |frames| <= n
      requires CheckedFrames(m, pfn, len + |frames|) == CheckedFrames(m, pfn, len) + frames
      modifies this`calls, this`pages
      ensures err == 0 ==> Mapped(m, before, from, pfn, len + |frames|, c)
      ensures err != 0 ==> err == -EAGAIN && c <= calls && !NoneFailed(c) && pages == before
    {
      ghost var done := CheckedFrames(m, pfn, len);
      ghost var now := calls;
      err := Remap(from + len, frames);
      ExtendTwice(before, from, done, from + len, frames);
      if err != 0 {
        assert fails(now);
        UnmapExtend(before, from, done);
        DoMunmap(from, len);
        err := -EAGAIN;
      }
    }

    /**
     * remap_oldmem_pfn_checked: runs of RAM pages are mapped with one call each, pages that are
     * not RAM with the zero page.  It fails exactly when one of its calls does, and then
     * leaves the pages as they were.
     */
    method RemapOldmemPfnChecked(m: OldMem, from: nat, pfn: nat, n: nat) returns (ret: int)
      requires Free(pages, from, n)
      modifies this`calls, this`pages
      ensures old(calls) <= calls && (ret == 0 <==> NoneFailed(old(calls)))
      ensures ret == 0 || ret == -EAGAIN
      ensures pages == if ret == 0 then Extend(old(pages), from, CheckedFrames(m, pfn, n)) else old(pages)
    {
      ghost var before, c := pages, calls;
      var posStart, posEnd, pos := pfn, pfn + n, pfn;
      var len: nat := 0;
      while pos < posEnd
        invariant pfn <= posStart <= pos <= posEnd && len == posStart - pfn
        invariant forall p :: posStart <= p < pos ==> PfnIsRam(m, p) != 0
        invariant Mapped(m, before, from, pfn, len, c)
      {
        if PfnIsRam(m, pos) == 0 {
          if pos > posStart {
            var mapSize := pos - posStart;
            CheckedRun(m, pfn, len, posStart, pos, len + mapSize);
            ret := RemapNext(m, from, len, OldFrames(posStart, mapSize), before, pfn, c, n);
            if ret != 0 { return; }
            len := len + mapSize;
          }
          CheckedNext(m, pfn, len, len + 1);
          ret := RemapNext(m, from, len, [ZeroFrame], before, pfn, c, n);
          if ret != 0 { return; }
          len := len + 1;
          posStart := pos + 1;
        }
        pos := pos + 1;
      }
      if pos > posStart {
        CheckedRun(m, pfn, len, posStart, pos, n);
        ret := RemapNext(m, from, len, OldFrames(posStart, pos - posStart), before, pfn, c, n);
        if ret != 0 { return; }
      }
      return 0;
    }

    /** vmcore_remap_oldmem_pfn: page by page only if a hook is registered. */
    method RemapOldmemPfn(m: OldMem, from: nat, pfn: nat, n: nat) returns (ret: int)
      requires Free(pages, from, n)
      modifies this`calls, this`pages
      ensures old(calls) <= calls && (ret == 0 <==> NoneFailed(old(calls)))
      ensures pages == if ret == 0 then Extend(old(pages), from, CheckedFrames(m, pfn, n)) else old(pages)
    {
      if m.ram.Some? {
        ret := RemapOldmemPfnChecked(m, from, pfn, n);
      } else {
        CheckedRun(m, pfn, 0, pfn, pfn + n, n);
        assert CheckedFrames(m, pfn, n) == OldFrames(pfn, n);
        ret := Remap(from, OldFrames(pfn, n));
      }
    }
  }

  // ---------- what a mapping shows ----------

  // The parts of the exported file.
  datatype View = View(mem: OldMem, headers: seq<byte>, notes: seq<byte>, list: seq<Chunk>) {
    function File(): seq<byte> { Image(mem, headers, notes, list) }
  }

  /** The bytes of a frame; none if the buffer has no such page. */
  function FrameBytes(v: View, f: Frame): seq<byte> {
    match f
    case HeaderFrame(k) => PageOf(v.headers, k)
    case NotesFrame(k) => PageOf(v.notes, k)
    case OldFrame(pfn) => RawBytes(v.mem, pfn * PAGE_SIZE, PAGE_SIZE)
    case ZeroFrame => Zeros(PAGE_SIZE)
  }

  function PageOf(b: seq<byte>, k: nat): seq<byte> {
    if (k + 1) * PAGE_SIZE <= |b| then b[k * PAGE_SIZE..(k + 1) * PAGE_SIZE] else []
  }

  /** Byte i of each kind of frame. */
  lemma {:induction false} FrameByteAt(v: View, f: Frame, i: nat)
    requires i < 4096
    ensures f.OldFrame? ==>
      |FrameBytes(v, f)| == 4096 && FrameBytes(v, f)[i] == v.mem.bytes(4096 * f.pfn + i)
    ensures f.ZeroFrame? ==> |FrameBytes(v, f)| == 4096 && FrameBytes(v, f)[i] == 0
    ensures f.HeaderFrame? && 4096 * (f.k + 1) <= |v.headers| ==>
      |FrameBytes(v, f)| == 4096 && FrameBytes(v, f)[i] == v.headers[4096 * f.k + i]
    ensures f.NotesFrame? && 4096 * (f.k + 1) <= |v.notes| ==>
      |FrameBytes(v, f)| == 4096 && FrameBytes(v, f)[i] == v.notes[4096 * f.k + i]
  {
  }

  /** The frame shows page f of the file, and the file has such a page. */
  ghost predicate ShowsPage(v: View, f: nat, frame: Frame) {
    (f + 1) * PAGE_SIZE <= |v.File()| && FrameBytes(v, frame) == PageOf(v.File(), f)
  }

  ghost predicate ShowsAt(v: View, f: nat, frames: seq<Frame>, k: nat) {
    k < |frames| ==> ShowsPage(v, f + k, frames[k])
  }

  /** The frames show the pages of the file from page f on. */
  ghost predicate Shows(v: View, f: nat, frames: seq<Frame>) {
    forall k: nat :: ShowsAt(v, f, frames, k)
  }

  lemma {:induction false} ShowsBound(v: View, f: nat, frames: seq<Frame>)
    requires Shows(v, f, frames) && frames != []
    ensures (f + |frames|) * PAGE_SIZE <= |v.File()|
  {
    assert ShowsAt(v, f, frames, |frames| - 1);
  }

  lemma {:induction false} ShowsMore(v: View, f: nat, a: seq<Frame>, mid: nat, b: seq<Frame>)
    requires Shows(v, f, a) && Shows(v, mid, b) && mid == f + |a|
    ensures Shows(v, f, a + b)
  {
    forall k: nat ensures ShowsAt(v, f, a + b, k) {
      if k < |a| { assert ShowsAt(v, f, a, k); } else { assert ShowsAt(v, mid, b, k - |a|); }
    }
  }

  function ShownBytes(v: View, frames: seq<Frame>, n: nat): seq<byte>
    requires n <= |frames|
  {
    if n == 0 then [] else ShownBytes(v, frames, n - 1) + FrameBytes(v, frames[n - 1])
  }

  lemma {:induction false} NextShown(v: View, image: seq<byte>, f: nat, frames: seq<Frame>, k: nat, g: nat, n: nat)
    requires Shows(v, f, frames) && k < |frames| && g == f + k && n == k + 1 && image == v.File()
    ensures ShownBytes(v, frames, n) == ShownBytes(v, frames, k) + PageOf(image, g) && (g + 1) * PAGE_SIZE <= |image|
  {
    FrameIs(v, f, frames, k, g);
  }

  lemma {:induction false} FrameIs(v: View, f: nat, frames: seq<Frame>, k: nat, g: nat)
    requires Shows(v, f, frames) && k < |frames| && g == f + k
    ensures (g + 1) * PAGE_SIZE <= |v.File()| && FrameBytes(v, frames[k]) == PageOf(v.File(), g)
  {
    assert ShowsAt(v, f, frames, k);
  }

  lemma {:induction false} MappedSoFar(v: View, image: seq<byte>, f: nat, frames: seq<Frame>, n: nat)
    requires Shows(v, f, frames) && n <= |frames| && image == v.File()
    ensures ShownBytes(v, frames, n) == Slice(image, f * PAGE_SIZE, n * PAGE_SIZE)
  {
    if n > 0 {
      var k := n - 1;
      MappedSoFar(v, image, f, frames, k);
      NextShown(v, image, f, frames, k, f + k, n);
      PageJoin(image, f, k, f + k, n);
    }
  }

  /** Read in order, the mapped pages give what a read of the same range delivers. */
  lemma {:induction false} MappedIsRead(v: View, f: nat, frames: seq<Frame>, n: nat)
    requires Shows(v, f, frames) && n <= |frames|
    ensures ShownBytes(v, frames, n) == Slice(v.File(), f * PAGE_SIZE, n * PAGE_SIZE)
  {
    MappedSoFar(v, v.File(), f, frames, n);
  }

  lemma {:induction false} PagePlus(a: nat, d: nat)
    ensures (a + d) * PAGE_SIZE == a * PAGE_SIZE + d * PAGE_SIZE
  {
  }

  /** k pages and the page behind them are k + 1 pages. */
  lemma {:induction false} PageJoin(image: seq<byte>, f: nat, k: nat, g: nat, n: nat)
    requires g == f + k && n == k + 1 && (g + 1) * PAGE_SIZE <= |image|
    ensures Slice(image, f * PAGE_SIZE, k * PAGE_SIZE) + PageOf(image, g) == Slice(image, f * PAGE_SIZE, n * PAGE_SIZE)
  {
    var lo, mid, hi := f * PAGE_SIZE, g * PAGE_SIZE, (g + 1) * PAGE_SIZE;
    PagePlus(f, k);
    PagePlus(f, n);
    PagePlus(g, 1);
    SliceJoin(image, lo, mid, hi);
  }

  function HeaderFrames(f: nat, n: nat): (r: seq<Frame>)
    ensures |r| == n
  {
    seq(n, i requires 0 <= i < n => HeaderFrame(f + i))
  }

  function NotesFrames(f: nat, n: nat): (r: seq<Frame>)
    ensures |r| == n
  {
    seq(n, i requires 0 <= i < n => NotesFrame(f + i))
  }

  lemma {:induction false} HeadersShow(v: View, f: nat, n: nat)
    requires (f + n) * PAGE_SIZE <= |v.headers|
    ensures Shows(v, f, HeaderFrames(f, n))
  {
    var rest := v.notes + ChunkBytes(v.mem, v.list);
    assert v.File() == v.headers + rest;
    var frames := HeaderFrames(f, n);
    forall k: nat ensures ShowsAt(v, f, frames, k) {
      if k < n { SliceLeft(v.headers, rest, (f + k) * PAGE_SIZE, (f + k + 1) * PAGE_SIZE); }
    }
  }

  lemma {:induction false} NotesShow(v: View, hp: nat, f: nat, n: nat)
    requires |v.headers| == hp * PAGE_SIZE && (f + n) * PAGE_SIZE <= |v.notes|
    ensures Shows(v, hp + f, NotesFrames(f, n))
  {
    var frames, at := NotesFrames(f, n), hp + f;
    forall k: nat ensures ShowsAt(v, at, frames, k) {
      if k < n { NotesPageShows(v, hp, f + k, at + k); }
    }
  }

  lemma {:induction false} NotesPageShows(v: View, hp: nat, k: nat, g: nat)
    requires |v.headers| == hp * PAGE_SIZE && (k + 1) * PAGE_SIZE <= |v.notes| && g == hp + k
    ensures ShowsPage(v, g, NotesFrame(k))
  {
    var mem, i, j := ChunkBytes(v.mem, v.list), k * PAGE_SIZE, (k + 1) * PAGE_SIZE;
    assert v.File() == v.headers + (v.notes + mem);
    PagePlus(hp, k);
    PagePlus(hp, k + 1);
    SliceRight(v.headers, v.notes + mem, |v.headers| + i, |v.headers| + j);
    SliceLeft(v.notes, mem, i, j);
  }

  lemma {:induction false} OldPageShows(v: View, pfn: nat, a: nat)
    requires a == pfn * PAGE_SIZE
    ensures FrameBytes(v, CheckedFrame(v.mem, pfn)) == OldBytes(v.mem, a, PAGE_SIZE)
  {
    assert a / PAGE_SIZE == pfn && a % PAGE_SIZE == 0;
    PageBytes(v.mem, a, PAGE_SIZE);
  }

  // Chunk c is cs pages, starting at file page co and old page cp.

  lemma {:induction false} ChunkPage(v: View, c: nat, co: nat, cp: nat, cs: nat, d: nat, f: nat, pfn: nat)
    requires Offsets(v.list, |v.headers| + |v.notes|) && c < |v.list|
    requires v.list[c] == Chunk(cp * PAGE_SIZE, cs * PAGE_SIZE, co * PAGE_SIZE) && d < cs
    requires f == co + d && pfn == cp + d
    ensures ShowsPage(v, f, CheckedFrame(v.mem, pfn))
  {
    var o, a := co * PAGE_SIZE + d * PAGE_SIZE, cp * PAGE_SIZE + d * PAGE_SIZE;
    PagePlus(co, d);
    PagePlus(cp, d);
    PageFits(d, cs);
    MemoryInFile(v.mem, v.headers, v.notes, v.list, c, d * PAGE_SIZE, PAGE_SIZE);
    OldPageShows(v, pfn, a);
    PageAt(v.File(), f, o);
  }

  lemma {:induction false} PageFits(d: nat, n: nat)
    requires d < n
    ensures d * PAGE_SIZE + PAGE_SIZE <= n * PAGE_SIZE
  {
  }

  lemma {:induction false} PageAt(b: seq<byte>, k: nat, o: nat)
    requires o == k * PAGE_SIZE && o + PAGE_SIZE <= |b|
    ensures (k + 1) * PAGE_SIZE <= |b| && PageOf(b, k) == b[o..o + PAGE_SIZE]
  {
  }

  lemma {:induction false} ChunkShows(v: View, c: nat, co: nat, cp: nat, cs: nat, d: nat, f: nat, pfn: nat, n: nat)
    requires Offsets(v.list, |v.headers| + |v.notes|) && c < |v.list|
    requires v.list[c] == Chunk(cp * PAGE_SIZE, cs * PAGE_SIZE, co * PAGE_SIZE) && d + n <= cs
    requires f == co + d && pfn == cp + d
    ensures Shows(v, f, CheckedFrames(v.mem, pfn, n))
  {
    var frames := CheckedFrames(v.mem, pfn, n);
    forall k: nat ensures ShowsAt(v, f, frames, k) {
      if k < n { ChunkPage(v, c, co, cp, cs, d + k, f + k, pfn + k); }
    }
  }

  // ---------- mmap_vmcore ----------

  ghost function ViewOf(vm: Vmcore): View
    requires vm.Valid()
    reads vm.elfcorebuf, vm.elfnotesBuf
  {
    View(vm.mem, vm.elfcorebuf[..vm.elfcorebufSz], vm.elfnotesBuf[..vm.elfnotesSz], vm.list)
  }

  /** All parts of the file are whole pages. */
  ghost predicate Aligned(vm: Vmcore) {
    && vm.elfcorebufSz % PAGE_SIZE == 0 && vm.elfnotesSz % PAGE_SIZE == 0
    && forall i :: 0 <= i < |vm.list| ==> vm.list[i].paddr % PAGE_SIZE == 0 && vm.list[i].size % PAGE_SIZE == 0
  }

  /** How many of n pages from file position s on the file has. */
  function PagesInFile(s: nat, n: nat, size: nat): nat {
    if s >= size then 0 else Min(n, (size - s) / PAGE_SIZE)
  }

  lemma {:induction false} OffsetAligned(list: seq<Chunk>, off: nat, i: nat)
    requires Offsets(list, off) && i <= |list| && off % PAGE_SIZE == 0
    requires forall j :: 0 <= j < |list| ==> list[j].size % PAGE_SIZE == 0
    ensures Total(list[..i]) % PAGE_SIZE == 0
    ensures i < |list| ==> list[i].offset % PAGE_SIZE == 0
  {
    if i == 0 { assert list[..0] == []; }
    else {
      OffsetAligned(list, off, i - 1);
      OffsetAt(list, off, i - 1);
      SumAligned(Total(list[..i - 1]), list[i - 1].size);
    }
    if i < |list| {
      OffsetAt(list, off, i);
      SumAligned(off, Total(list[..i]));
    }
  }

  lemma {:induction false} SumAligned(a: nat, b: nat)
    requires a % PAGE_SIZE == 0 && b % PAGE_SIZE == 0
    ensures (a + b) % PAGE_SIZE == 0
  {
  }

  // The request: n pages at page vmStart of the area, showing the file from page f on.
  datatype Request = Request(before: map<nat, Frame>, vmStart: nat, f: nat, n: nat, c: nat)

  /** The given frames have been mapped. */
  ghost predicate Shown(q: Request, v: View, pages: map<nat, Frame>, frames: seq<Frame>) {
    && |frames| <= q.n && Free(q.before, q.vmStart, q.n)
    && pages == Extend(q.before, q.vmStart, frames) && Shows(v, q.f, frames)
  }

  ghost predicate Mapped(area: VmArea, q: Request, v: View, frames: seq<Frame>)
    reads area
  {
    q.c <= area.calls && area.NoneFailed(q.c) && Shown(q, v, area.pages, frames)
  }

  /** The code's counters after d pages. */
  predicate Counters(q: Request, d: nat, start: nat, len: nat, size: nat) {
    d <= q.n && len == d * PAGE_SIZE && start == (q.f + d) * PAGE_SIZE && size == (q.n - d) * PAGE_SIZE
  }

  /** A failed request leaves the pages as they were. */
  ghost predicate Undone(area: VmArea, q: Request)
    reads area
  {
    q.c <= area.calls && !area.NoneFailed(q.c) && area.pages == q.before
  }

  lemma {:induction false} ShownNext(q: Request, v: View, pages: map<nat, Frame>, frames: seq<Frame>,
                                     next: seq<Frame>, at: nat)
    requires Shown(q, v, pages, frames) && at == q.vmStart + |frames| && |frames| + |next| <= q.n
    requires Shows(v, q.f + |frames|, next)
    ensures Shown(q, v, Extend(pages, at, next), frames + next)
  {
    ShowsMore(v, q.f, frames, q.f + |frames|, next);
    ExtendTwice(q.before, q.vmStart, frames, at, next);
  }

  lemma {:induction false} ShownUndone(q: Request, v: View, pages: map<nat, Frame>, frames: seq<Frame>)
    requires Shown(q, v, pages, frames)
    ensures Unmap(pages, q.vmStart, |frames|) == q.before
  {
    UnmapExtend(q.before, q.vmStart, frames);
  }

  /** A part of the file that ends at `end`: the code maps tsz bytes of it from file page f on. */
  lemma {:induction false} WholePages(f: nat, k: nat, end: nat, tsz: nat)
    requires f * PAGE_SIZE < end && end % PAGE_SIZE == 0 && tsz == Min(end - f * PAGE_SIZE, k * PAGE_SIZE)
    ensures tsz / PAGE_SIZE * PAGE_SIZE == tsz && (f + tsz / PAGE_SIZE) * PAGE_SIZE <= end
    ensures f * PAGE_SIZE / PAGE_SIZE == f && tsz / PAGE_SIZE <= k
  {
  }

  /** Serving the headers. */
  lemma {:induction false} HeadersNext(q: Request, v: View, pages: map<nat, Frame>, t: nat)
    requires Shown(q, v, pages, []) && t <= q.n && (q.f + t) * PAGE_SIZE <= |v.headers|
    ensures Shown(q, v, Extend(pages, q.vmStart, HeaderFrames(q.f, t)), HeaderFrames(q.f, t))
  {
    var more := HeaderFrames(q.f, t);
    HeadersShow(v, q.f, t);
    assert [] + more == more;
    ShownNext(q, v, pages, [], more, q.vmStart);
  }

  /** The headers part: the first remap, so that a failure leaves nothing to unmap. */
  method MapHeaders(vm: Vmcore, area: VmArea, vmStart: nat, start: nat, tsz: nat, ghost q: Request, ghost size: nat)
    returns (ret: int, ghost more: seq<Frame>)
    requires vm.Valid() && Aligned(vm) && vmStart == q.vmStart
    requires Mapped(area, q, ViewOf(vm), []) && Counters(q, 0, start, 0, size)
    requires start < vm.elfcorebufSz && tsz == Min(vm.elfcorebufSz - start, size)
    modifies area`calls, area`pages
    ensures ret == 0 ==> |more| * PAGE_SIZE == tsz && Mapped(area, q, ViewOf(vm), more)
    ensures ret != 0 ==> ret == -EAGAIN && Undone(area, q)
  {
    ghost var v := ViewOf(vm);
    var t := tsz / PAGE_SIZE;
    WholePages(q.f, q.n, vm.elfcorebufSz, tsz);
    more := HeaderFrames(start / PAGE_SIZE, t);
    HeadersNext(q, v, area.pages, t);
    ret := area.Remap(vmStart, HeaderFrames(start / PAGE_SIZE, t));
    if ret != 0 { return -EAGAIN, more; }
  }

  // The code's byte arithmetic for the notes in pages.
  lemma {:induction false} NotesPages(headersSz: nat, notesSz: nat, f: nat, k: nat, start: nat, tsz: nat)
    requires headersSz % PAGE_SIZE == 0 && notesSz % PAGE_SIZE == 0 && start == f * PAGE_SIZE
    requires headersSz <= start < headersSz + notesSz && tsz == Min(headersSz + notesSz - start, k * PAGE_SIZE)
    ensures var hp, np, t := headersSz / PAGE_SIZE, notesSz / PAGE_SIZE, tsz / PAGE_SIZE;
      && headersSz == hp * PAGE_SIZE && notesSz == np * PAGE_SIZE
      && hp <= f && f - hp + t <= np && t <= k && t * PAGE_SIZE == tsz
      && (start - headersSz) / PAGE_SIZE == f - hp
  {
    WholePages(f, k, headersSz + notesSz, tsz);
  }

  /** Serving the notes, from their page `from` on, after the d frames mapped so far, or undoing them. */
  lemma {:induction false} NotesNext(q: Request, v: View, pages: map<nat, Frame>, frames: seq<Frame>, d: nat,
                                     hp: nat, np: nat, from: nat, t: nat)
    requires |v.headers| == hp * PAGE_SIZE && |v.notes| == np * PAGE_SIZE
    requires Shown(q, v, pages, frames) && d == |frames| && d + t <= q.n
    requires hp + from == q.f + d && from + t <= np
    ensures var more := NotesFrames(from, t); Shown(q, v, Extend(pages, q.vmStart + d, more), frames + more)
    ensures Unmap(pages, q.vmStart, d) == q.before
  {
    NotesShow(v, hp, from, t);
    ShownNext(q, v, pages, frames, NotesFrames(from, t), q.vmStart + d);
    ShownUndone(q, v, pages, frames);
  }

  /** The notes part. */
  method MapNotes(vm: Vmcore, area: VmArea, vmStart: nat, start: nat, len: nat, tsz: nat,
                  ghost q: Request, ghost frames: seq<Frame>, ghost size: nat)
    returns (ret: int, ghost more: seq<Frame>)
    requires vm.Valid() && Aligned(vm) && vmStart == q.vmStart
    requires Mapped(area, q, ViewOf(vm), frames) && Counters(q, |frames|, start, len, size)
    requires vm.elfcorebufSz <= start < vm.elfcorebufSz + vm.elfnotesSz
    requires tsz == Min(vm.elfcorebufSz + vm.elfnotesSz - start, size)
    modifies area`calls, area`pages
    ensures ret == 0 ==> |more| * PAGE_SIZE == tsz && Mapped(area, q, ViewOf(vm), frames + more)
    ensures ret != 0 ==> ret == -EAGAIN && Undone(area, q)
  {
    ghost var v, d := ViewOf(vm), |frames|;
    var t := tsz / PAGE_SIZE;
    var from := (start - vm.elfcorebufSz) / PAGE_SIZE;
    NotesPages(vm.elfcorebufSz, vm.elfnotesSz, q.f + d, q.n - d, start, tsz);
    NotesNext(q, v, area.pages, frames, d, vm.elfcorebufSz / PAGE_SIZE, vm.elfnotesSz / PAGE_SIZE, from, t);
    more := NotesFrames(from, t);
    ret := area.Remap(vmStart + len / PAGE_SIZE, NotesFrames(from, t));
    if ret != 0 {
      area.DoMunmap(vmStart, len / PAGE_SIZE);
      return -EAGAIN, more;
    }
  }

  // The code's byte arithmetic for chunk i in pages.
  lemma {:induction false} ChunkPages(c: Chunk, f: nat, k: nat, start: nat, tsz: nat)
    requires c.paddr % PAGE_SIZE == 0 && c.offset % PAGE_SIZE == 0 && c.size % PAGE_SIZE == 0
    requires start == f * PAGE_SIZE && c.offset <= start < c.offset + c.size
    requires tsz == Min(c.offset + c.size - start, k * PAGE_SIZE)
    ensures var co, cp, cs, t := c.offset / PAGE_SIZE, c.paddr / PAGE_SIZE, c.size / PAGE_SIZE, tsz / PAGE_SIZE;
      && c == Chunk(cp * PAGE_SIZE, cs * PAGE_SIZE, co * PAGE_SIZE)
      && co <= f && f - co + t <= cs && t <= k && t * PAGE_SIZE == tsz
      && (c.paddr + start - c.offset) / PAGE_SIZE == cp + (f - co)
  {
    WholePages(f, k, c.offset + c.size, tsz);
  }

  /** Serving chunk i, from its page `from` on, after the d frames mapped so far, or undoing them. */
  lemma {:induction false} ChunkNext(q: Request, v: View, pages: map<nat, Frame>, frames: seq<Frame>, d: nat, i: nat,
                                     co: nat, cp: nat, cs: nat, from: nat, pfn: nat, t: nat)
    requires Offsets(v.list, |v.headers| + |v.notes|) && i < |v.list|
    requires v.list[i] == Chunk(cp * PAGE_SIZE, cs * PAGE_SIZE, co * PAGE_SIZE)
    requires Shown(q, v, pages, frames) && d == |frames| && d + t <= q.n
    requires co + from == q.f + d && cp + from == pfn && from + t <= cs
    ensures var more, at := CheckedFrames(v.mem, pfn, t), q.vmStart + d;
      Free(pages, at, t) && Shown(q, v, Extend(pages, at, more), frames + more)
    ensures Unmap(pages, q.vmStart, d) == q.before
  {
    ChunkShows(v, i, co, cp, cs, from, q.f + d, pfn, t);
    FreeRest(q.before, q.vmStart, frames, q.vmStart + d, q.n - d);
    ShownNext(q, v, pages, frames, CheckedFrames(v.mem, pfn, t), q.vmStart + d);
    ShownUndone(q, v, pages, frames);
  }

  /** list_for_each_entry: the chunk i that serves file page q.f + |frames|. */
  method MapChunk(vm: Vmcore, area: VmArea, i: nat, vmStart: nat, start: nat, len: nat, tsz: nat,
                  ghost q: Request, ghost frames: seq<Frame>, ghost size: nat)
    returns (ret: int, ghost more: seq<Frame>)
    requires vm.Valid() && Aligned(vm) && i < |vm.list| && vmStart == q.vmStart
    requires Mapped(area, q, ViewOf(vm), frames) && Counters(q, |frames|, start, len, size)
    requires vm.list[i].offset <= start < vm.list[i].offset + vm.list[i].size
    requires tsz == Min(vm.list[i].offset + vm.list[i].size - start, size)
    modifies area`calls, area`pages
    ensures ret == 0 ==> |more| * PAGE_SIZE == tsz && Mapped(area, q, ViewOf(vm), frames + more)
    ensures ret != 0 ==> ret == -EAGAIN && Undone(area, q)
  {
    ghost var v := ViewOf(vm);
    OffsetAligned(vm.list, vm.elfcorebufSz + vm.elfnotesSz, i);
    var paddr := vm.list[i].paddr + start - vm.list[i].offset;
    var t := tsz / PAGE_SIZE;
    more := CheckedFrames(vm.mem, paddr / PAGE_SIZE, t);
    ghost var c, d := vm.list[i], |frames|;
    ChunkPages(c, q.f + d, q.n - d, start, tsz);
    ChunkNext(q, v, area.pages, frames, d, i, c.offset / PAGE_SIZE, c.paddr / PAGE_SIZE, c.size / PAGE_SIZE,
              q.f + d - c.offset / PAGE_SIZE, paddr / PAGE_SIZE, t);
    ret := area.RemapOldmemPfn(vm.mem, vmStart + len / PAGE_SIZE, paddr / PAGE_SIZE, t);
    if ret != 0 {
      area.DoMunmap(vmStart, len / PAGE_SIZE);
      return -EAGAIN, more;
    }
  }

  /** The request was served as far as the file goes. */
  ghost predicate Served(vm: Vmcore, area: VmArea, q: Request, frames: seq<Frame>)
    requires vm.Valid()
    reads area, vm.elfcorebuf, vm.elfnotesBuf
  {
    Mapped(area, q, ViewOf(vm), frames) && |frames| == PagesInFile(q.f * PAGE_SIZE, q.n, vm.size)
  }

  lemma {:induction false} AllServed(vm: Vmcore, area: VmArea, q: Request, frames: seq<Frame>, start: nat, len: nat)
    requires vm.Valid() && Mapped(area, q, ViewOf(vm), frames) && Counters(q, |frames|, start, len, 0)
    requires q.n > 0
    ensures Served(vm, area, q, frames)
  {
    ShowsBound(ViewOf(vm), q.f, frames);
  }

  /** The chunks part. */
  method MapChunks(vm: Vmcore, area: VmArea, vmStart: nat, start0: nat, len0: nat, size0: nat,
                   ghost q: Request, ghost frames0: seq<Frame>)
    returns (ret: int, ghost frames: seq<Frame>)
    requires vm.Valid() && Aligned(vm) && vmStart == q.vmStart && size0 > 0
    requires Mapped(area, q, ViewOf(vm), frames0) && Counters(q, |frames0|, start0, len0, size0)
    requires vm.elfcorebufSz + vm.elfnotesSz <= start0
    modifies area`calls, area`pages
    ensures ret == 0 ==> Served(vm, area, q, frames)
    ensures ret != 0 ==> ret == -EAGAIN && Undone(area, q)
  {
    var i, start, len, size := 0, start0, len0, size0;
    frames := frames0;
    assert vm.list[..0] == [];
    while i < |vm.list|
      invariant size > 0 && InLoop(vm, area, q, frames, i, start, len, size)
    {
      ret, frames, start, len, size := ChunkTurn(vm, area, i, vmStart, start, len, size, q, frames);
      if ret != 0 { return; }
      if size == 0 {
        AllServed(vm, area, q, frames, start, len);
        return 0, frames;
      }
      i := i + 1;
    }
    assert vm.list[..i] == vm.list;
    if frames != [] { ShowsBound(ViewOf(vm), q.f, frames); }
    return 0, frames;
  }

  /** The request has been served up to chunk i. */
  ghost predicate InLoop(vm: Vmcore, area: VmArea, q: Request, frames: seq<Frame>, i: nat, start: nat, len: nat,
                         size: nat)
    requires vm.Valid()
    reads area, vm.elfcorebuf, vm.elfnotesBuf
  {
    && i <= |vm.list| && vm.elfcorebufSz + vm.elfnotesSz + Total(vm.list[..i]) <= start
    && Mapped(area, q, ViewOf(vm), frames) && Counters(q, |frames|, start, len, size)
  }

  /** The turn of the list_for_each_entry loop for chunk i. */
  method ChunkTurn(vm: Vmcore, area: VmArea, i: nat, vmStart: nat, start0: nat, len0: nat, size0: nat,
                   ghost q: Request, ghost frames0: seq<Frame>)
    returns (ret: int, ghost frames: seq<Frame>, start: nat, len: nat, size: nat)
    requires vm.Valid() && Aligned(vm) && i < |vm.list| && vmStart == q.vmStart
    requires InLoop(vm, area, q, frames0, i, start0, len0, size0)
    modifies area`calls, area`pages
    ensures ret == 0 ==> Mapped(area, q, ViewOf(vm), frames) && Counters(q, |frames|, start, len, size)
    ensures ret == 0 && size > 0 ==> InLoop(vm, area, q, frames, i + 1, start, len, size)
    ensures ret != 0 ==> ret == -EAGAIN && Undone(area, q)
  {
    var c := vm.list[i];
    frames, start, len, size := frames0, start0, len0, size0;
    OffsetAt(vm.list, vm.elfcorebufSz + vm.elfnotesSz, i);
    if start >= c.offset + c.size { return 0, frames, start, len, size; }
    var tsz := Min(c.offset + c.size - start, size);
    ghost var more;
    ret, more := MapChunk(vm, area, i, vmStart, start, len, tsz, q, frames, size);
    frames := frames + more;
    size, start, len := size - tsz, start + tsz, len + tsz;
    if ret == 0 { CountMore(q, |frames0|, |more|, start0, len0, size0, tsz); }
  }

  /** The counters after t more pages, tsz bytes. */
  lemma {:induction false} CountMore(q: Request, d: nat, t: nat, start: nat, len: nat, size: nat, tsz: nat)
    requires Counters(q, d, start, len, size) && tsz == t * PAGE_SIZE && tsz <= size
    ensures Counters(q, d + t, start + tsz, len + tsz, size - tsz)
  {
  }

  /** The headers part, if the request starts there. */
  method HeadersTurn(vm: Vmcore, area: VmArea, vmStart: nat, start0: nat, size0: nat, ghost q: Request)
    returns (ret: int, ghost frames: seq<Frame>, start: nat, len: nat, size: nat)
    requires vm.Valid() && Aligned(vm) && vmStart == q.vmStart
    requires Mapped(area, q, ViewOf(vm), []) && Counters(q, 0, start0, 0, size0)
    modifies area`calls, area`pages
    ensures ret == 0 ==> Mapped(area, q, ViewOf(vm), frames) && Counters(q, |frames|, start, len, size)
    ensures ret == 0 && size > 0 ==> vm.elfcorebufSz <= start
    ensures ret != 0 ==> ret == -EAGAIN && Undone(area, q)
  {
    frames, start, len, size := [], start0, 0, size0;
    if start >= vm.elfcorebufSz { return 0, frames, start, len, size; }
    var tsz := Min(vm.elfcorebufSz - start, size);
    ret, frames := MapHeaders(vm, area, vmStart, start, tsz, q, size);
    size, start, len := size - tsz, start + tsz, len + tsz;
    if ret == 0 { CountMore(q, 0, |frames|, start0, 0, size0, tsz); }
  }

  /** The notes part, if there is something left to map and it starts there. */
  method NotesTurn(vm: Vmcore, area: VmArea, vmStart: nat, start0: nat, len0: nat, size0: nat,
                   ghost q: Request, ghost frames0: seq<Frame>)
    returns (ret: int, ghost frames: seq<Frame>, start: nat, len: nat, size: nat)
    requires vm.Valid() && Aligned(vm) && vmStart == q.vmStart && vm.elfcorebufSz <= start0
    requires Mapped(area, q, ViewOf(vm), frames0) && Counters(q, |frames0|, start0, len0, size0)
    modifies area`calls, area`pages
    ensures ret == 0 ==> Mapped(area, q, ViewOf(vm), frames) && Counters(q, |frames|, start, len, size)
    ensures ret == 0 && size > 0 ==> vm.elfcorebufSz + vm.elfnotesSz <= start
    ensures ret != 0 ==> ret == -EAGAIN && Undone(area, q)
  {
    frames, start, len, size := frames0, start0, len0, size0;
    if start >= vm.elfcorebufSz + vm.elfnotesSz { return 0, frames, start, len, size; }
    var tsz := Min(vm.elfcorebufSz + vm.elfnotesSz - start, size);
    ghost var more;
    ret, more := MapNotes(vm, area, vmStart, start, len, tsz, q, frames, size);
    frames := frames + more;
    size, start, len := size - tsz, start + tsz, len + tsz;
    if ret == 0 { CountMore(q, |frames0|, |more|, start0, len0, size0, tsz); }
  }

  /** The three parts, one after the other. */
  method MapParts(vm: Vmcore, area: VmArea, vmStart: nat, n: nat, start0: nat)
    returns (ret: int, ghost frames: seq<Frame>)
    requires vm.Valid() && Aligned(vm) && n > 0 && start0 % PAGE_SIZE == 0 && Free(area.pages, vmStart, n)
    modifies area`calls, area`pages
    ensures (ret == 0 || ret == -EAGAIN) && (ret == 0 <==> area.NoneFailed(old(area.calls)))
    ensures ret == 0 ==>
      Served(vm, area, Request(old(area.pages), vmStart, start0 / PAGE_SIZE, n, old(area.calls)), frames)
    ensures ret != 0 ==> area.pages == old(area.pages)
  {
    ghost var q := Request(area.pages, vmStart, start0 / PAGE_SIZE, n, area.calls);
    var start, len, size;
    ret, frames, start, len, size := HeadersTurn(vm, area, vmStart, start0, n * PAGE_SIZE, q);
    if ret != 0 { return; }
    if size > 0 {
      ret, frames, start, len, size := NotesTurn(vm, area, vmStart, start, len, size, q, frames);
      if ret != 0 { return; }
    }
    if size == 0 {
      AllServed(vm, area, q, frames, start, len);
      return 0, frames;
    }
    ret, frames := MapChunks(vm, area, vmStart, start, len, size, q, frames);
  }

  /** Positions are unsigned 64-bit numbers. */
  function Wrap(x: nat): (r: nat)
    ensures r < U64 && (x < U64 ==> r == x)
  {
    x % U64
  }

  /** The test of mmap_vmcore on n pages at file page pgoff, for a file of the given size. */
  predicate Accepted(pgoff: nat, n: nat, size: nat) {
    n * PAGE_SIZE <= size && Wrap(Wrap(pgoff * PAGE_SIZE) + n * PAGE_SIZE) <= size
  }

  /**
   * An accepted request is mapped to its last page if and only if its end, before it is cut to
   * 64 bits, fits in 64 bits.
   */
  lemma {:induction false} MappedWhole(pgoff: nat, n: nat, size: nat)
    requires n > 0 && size % PAGE_SIZE == 0 && size < U64 && Accepted(pgoff, n, size)
    ensures PagesInFile(Wrap(pgoff * PAGE_SIZE), n, size) == n <==> Wrap(pgoff * PAGE_SIZE) + n * PAGE_SIZE < U64
  {
    PagesFrom(Wrap(pgoff * PAGE_SIZE), n, size);
  }

  lemma {:induction false} PagesFrom(s: nat, n: nat, size: nat)
    requires n > 0
    ensures PagesInFile(s, n, size) == n <==> s + n * PAGE_SIZE <= size
  {
    if s < size {
      var q := (size - s) / PAGE_SIZE;
      assert q * PAGE_SIZE <= size - s < (q + 1) * PAGE_SIZE;
    }
  }

  /** Page k of a request is mapped if and only if it is a page of the file. */
  lemma {:induction false} PageMapped(s: nat, n: nat, size: nat, k: nat)
    requires k < n && size % 4096 == 0 && s % 4096 == 0
    ensures k < PagesInFile(s, n, size) <==> s + 4096 * k < size
  {
  }

  /** A request that does not reach 2^64 is accepted if and only if all its pages are pages of the file. */
  lemma {:induction false} AcceptedIs(pgoff: nat, n: nat, size: nat)
    requires n > 0 && size % 4096 == 0 && 4096 * (pgoff + n) < 0x1_0000_0000_0000_0000
    ensures Accepted(pgoff, n, size) <==> 4096 * (pgoff + n) <= size
  {
    assert pgoff * PAGE_SIZE + n * PAGE_SIZE == PAGE_SIZE * (pgoff + n);
  }

  /** One that reaches it is accepted if and only if its size and its end less 2^64 are within the file. */
  lemma {:induction false} AcceptedWrapped(pgoff: nat, n: nat, size: nat)
    requires n > 0 && 4096 * pgoff < 0x1_0000_0000_0000_0000 <= 4096 * (pgoff + n)
    requires size < 0x1_0000_0000_0000_0000
    ensures Accepted(pgoff, n, size)
            <==> 4096 * n <= size && 4096 * (pgoff + n) - 0x1_0000_0000_0000_0000 <= size
  {
    var x := pgoff * PAGE_SIZE + n * PAGE_SIZE;
    if 4096 * n <= size { WrapOnce(x); }
  }

  lemma {:induction false} WrapOnce(x: nat)
    requires U64 <= x < 2 * U64
    ensures Wrap(x) == x - U64
  {
  }

  /** A request at the last page below 2^64 is accepted, and nothing is mapped for it. */
  lemma {:induction false} LastPageRequest(size: nat)
    requires PAGE_SIZE <= size < U64 && size % PAGE_SIZE == 0
    ensures var pgoff := 0xF_FFFF_FFFF_FFFF;
      Accepted(pgoff, 1, size) && PagesInFile(Wrap(pgoff * PAGE_SIZE), 1, size) == 0
  {
    assert 0xF_FFFF_FFFF_FFFF * PAGE_SIZE == U64 - PAGE_SIZE;
    assert Wrap(U64) == 0;
  }

  /**
   * mmap_vmcore, for n pages at file page pgoff.  On success the area shows the pages of the
   * file from there on, as far as the file goes; on failure its pages are as before.
   */
  method MmapVmcore(vm: Vmcore, area: VmArea, vmStart: nat, n: nat, pgoff: nat)
    returns (ret: int, ghost frames: seq<Frame>)
    requires vm.Valid() && Aligned(vm) && n > 0 && Free(area.pages, vmStart, n)
    modifies area
    ensures ret == -EINVAL <==> !Accepted(pgoff, n, vm.size)
    ensures ret == -EPERM <==> ret != -EINVAL && (Write in old(area.flags) || Exec in old(area.flags))
    ensures ret != -EINVAL && ret != -EPERM ==>
      (ret == 0 || ret == -EAGAIN) && (ret == 0 <==> area.NoneFailed(old(area.calls)))
      && area.flags == old(area.flags) - {MayWrite, MayExec} + {MixedMap}
    ensures ret == -EINVAL || ret == -EPERM ==> area.flags == old(area.flags) && area.calls == old(area.calls)
    ensures ret == 0 ==> area.pages == Extend(old(area.pages), vmStart, frames)
    ensures ret == 0 ==> Shows(ViewOf(vm), Wrap(pgoff * PAGE_SIZE) / PAGE_SIZE, frames)
    ensures ret == 0 ==> |frames| == PagesInFile(Wrap(pgoff * PAGE_SIZE), n, vm.size)
    ensures ret != 0 ==> area.pages == old(area.pages)
  {
    var size := n * PAGE_SIZE;
    var start := Wrap(pgoff * PAGE_SIZE);
    var end := Wrap(start + size);
    frames := [];
    if size > vm.size || end > vm.size { return -EINVAL, frames; }
    if Write in area.flags || Exec in area.flags { return -EPERM, frames; }
    area.flags := area.flags - {MayWrite, MayExec};
    area.flags := area.flags + {MixedMap};
    ret, frames := MapParts(vm, area, vmStart, n, start);
  }

  lemma {:induction false} LoadsAligned(t: seq<Phdr>, n: nat, i: nat)
    requires n <= |t| && i < |Loads(t, n)|
    ensures Loads(t, n)[i].paddr % PAGE_SIZE == 0 && Loads(t, n)[i].size % PAGE_SIZE == 0
  {
    if i < |Loads(t, n - 1)| { LoadsAligned(t, n - 1, i); }
  }

  /** What parse_crash_elf64_headers exports is whole pages, ready to be mapped. */
  lemma {:induction false} ExportedAligned(m: OldMem, addr: nat, vm: Vmcore)
    requires vm.Valid() && Exported(m, addr, vm)
    ensures Aligned(vm)
  {
    var h, n := Original(m, addr), GetPhnum(OldBytes(m, addr, EHDR));
    var mt := MergedHeaders(m, h, n);
    var off := vm.elfcorebufSz + vm.elfnotesSz;
    assert |vm.elfcorebuf[..vm.elfcorebufSz]| == vm.elfcorebufSz && |vm.elfnotesBuf[..vm.elfnotesSz]| == vm.elfnotesSz;
    assert vm.list == WithOffsets(Loads(mt, |mt|), off);
    OffsetsSet(Loads(mt, |mt|), off);
    forall i | 0 <= i < |vm.list| ensures vm.list[i].paddr % PAGE_SIZE == 0 && vm.list[i].size % PAGE_SIZE == 0 {
      LoadsAligned(mt, |mt|, i);
    }
  }
}
