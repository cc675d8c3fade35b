/**
 * /proc/pid/pagemap: HamielecKarol/cw05/proc/task_mmu.c.  Addresses are counted in pages.
 */
module Pagemap {
  import opened Wrappers
  import opened Seqs

  const PAGES_PER_PMD: nat := 512
  const PM_END_OF_BUFFER: int := 1
  const EINVAL: int := 22
  const PM_ENTRY_BYTES: nat := 8
  // Page numbers are 52 bits wide: 64-bit addresses of pages of 4096 bytes.
  const PAGE_NUMBERS: nat := 0x10_0000_0000_0000

  // ---------- an address space ----------

  datatype Vma = Vma(start: nat, end: nat, softDirty: bool)

  datatype Page = Page(anon: bool, mapcount: int)

  datatype Pte = NoPte
               | PresentPte(pfn: nat, softDirty: bool, page: Option<Page>)
               | SwapPte(swpType: nat, swpOffset: nat, softDirty: bool, page: Option<Page>)

  // A huge page: a pmd, or a hugetlb entry.
  datatype Large = Large(present: bool, pfn: nat, softDirty: bool, page: Page)

  // What maps a page of a vma: nothing down to the page table, an entry of a page table, a
  // transparent huge page, or a hugetlb page of the given number of pages.
  datatype Mapping = Absent | Mapped(pte: Pte) | Thp(pmd: Large) | Hugetlb(huge: Large, pages: nat)

  datatype Mm = Mm(vmas: seq<Vma>, at: nat -> Mapping, taskPages: nat)

  predicate WellFormed(mm: Mm) {
    && (forall i :: 0 <= i < |mm.vmas| ==> mm.vmas[i].start < mm.vmas[i].end)
    && (forall i, j :: 0 <= i < j < |mm.vmas| ==> mm.vmas[i].end <= mm.vmas[j].start)
    && mm.taskPages < PAGE_NUMBERS
  }

  /** find_vma: the first vma that ends behind p. */
  function FindVma(vmas: seq<Vma>, p: nat): Option<Vma> {
    if vmas == [] then None else if p < vmas[0].end then Some(vmas[0]) else FindVma(vmas[1..], p)
  }

  function VmaAt(mm: Mm, p: nat): Option<Vma> {
    var v := FindVma(mm.vmas, p);
    if v.Some? && v.value.start <= p then v else None
  }

  lemma {:induction false} FindVmaEnd(vmas: seq<Vma>, p: nat, q: nat)
    requires p <= q
    ensures FindVma(vmas, p).None? ==> FindVma(vmas, q).None?
    ensures FindVma(vmas, p).Some? ==> p < FindVma(vmas, p).value.end
    ensures FindVma(vmas, p).Some? && q < FindVma(vmas, p).value.end ==> FindVma(vmas, q) == FindVma(vmas, p)
  {
    if vmas != [] && p >= vmas[0].end { FindVmaEnd(vmas[1..], p, q); }
  }

  // ---------- one entry for each page ----------

  datatype Flags = Flags(softDirty: bool, exclusive: bool, file: bool, swap: bool, present: bool)

  function Bit(b: bool, weight: nat): nat { if b then weight else 0 }

  /** make_pme: 55 bits of frame below the flags. */
  function MakePme(frame: nat, f: Flags): nat {
    frame % 0x80_0000_0000_0000 + Bit(f.softDirty, 0x80_0000_0000_0000) + Bit(f.exclusive, 0x100_0000_0000_0000)
    + Bit(f.file, 0x2000_0000_0000_0000) + Bit(f.swap, 0x4000_0000_0000_0000) + Bit(f.present, 0x8000_0000_0000_0000)
  }

  /** The flags as a number of their own. */
  function HighPart(f: Flags): (h: nat)
    ensures h < 512
  {
    Bit(f.softDirty, 1) + Bit(f.exclusive, 2) + Bit(f.file, 64) + Bit(f.swap, 128) + Bit(f.present, 256)
  }

  lemma {:induction false} FlagBits(f: Flags)
    ensures var h := HighPart(f);
      && (h / 1 % 2 == 1 <==> f.softDirty) && (h / 2 % 2 == 1 <==> f.exclusive) && (h / 64 % 2 == 1 <==> f.file)
      && (h / 128 % 2 == 1 <==> f.swap) && (h / 256 % 2 == 1 <==> f.present)
  {
  }

  /** Nothing of an entry is lost but the high bits of a frame number that does not fit. */
  lemma {:induction false} PmeReadsBack(frame: nat, f: Flags)
    ensures var e := MakePme(frame, f);
      && e < 0x1_0000_0000_0000_0000
      && e % 0x80_0000_0000_0000 == frame % 0x80_0000_0000_0000
      && (e / 0x80_0000_0000_0000 % 2 == 1 <==> f.softDirty) && (e / 0x100_0000_0000_0000 % 2 == 1 <==> f.exclusive)
      && (e / 0x2000_0000_0000_0000 % 2 == 1 <==> f.file) && (e / 0x4000_0000_0000_0000 % 2 == 1 <==> f.swap)
      && (e / 0x8000_0000_0000_0000 % 2 == 1 <==> f.present)
  {
    var e, low := MakePme(frame, f), frame % 0x80_0000_0000_0000;
    var h := HighPart(f);
    assert e == h * 0x80_0000_0000_0000 + low;
    FlagBits(f);
    HighBits(e, h, low, 0x80_0000_0000_0000, 1);
    HighBits(e, h, low, 0x80_0000_0000_0000, 2);
    HighBits(e, h, low, 0x80_0000_0000_0000, 64);
    HighBits(e, h, low, 0x80_0000_0000_0000, 128);
    HighBits(e, h, low, 0x80_0000_0000_0000, 256);
  }

  /** Bits above the low part of weight w can be read from the high part alone. */
  lemma {:induction false} HighBits(e: nat, h: nat, low: nat, w: nat, m: nat)
    requires e == h * w + low && low < w && m > 0
    ensures m * w > 0 && e / (m * w) == h / m && e % w == low
  {
    var q, r := h / m, h % m;
    assert h == q * m + r;
    assert h * w == q * (m * w) + r * w by { assert q * m * w == q * (m * w); }
    assert 0 <= r * w + low < m * w by {
      assert r <= m - 1;
      assert r * w <= (m - 1) * w;
      assert (m - 1) * w == m * w - w;
    }
    DivIs(e, q, m * w);
    DivIs(e, h, w);
  }

  lemma {:induction false} DivIs(p: nat, q: nat, n: nat)
    requires n > 0 && 0 <= p - q * n < n
    ensures p / n == q && p % n == p - q * n
  {
    var d := p / n - q;
    assert d * n == (p - q * n) - p % n;
    Multiple(d, n);
  }

  const Nothing: Flags := Flags(false, false, false, false, false)

  function Soft(v: Vma): Flags { Nothing.(softDirty := v.softDirty) }

  function WithPage(f: Flags, page: Option<Page>): Flags {
    match page
    case None => f
    case Some(p) => f.(file := !p.anon, exclusive := p.mapcount == 1)
  }

  /** The entry of a page behind a page table entry. */
  function PteEntry(showPfn: bool, v: Vma, pte: Pte): nat {
    match pte
    case NoPte => MakePme(0, Soft(v))
    case PresentPte(pfn, dirty, page) =>
      MakePme(if showPfn then pfn else 0,
              WithPage(Nothing.(softDirty := dirty || v.softDirty, present := true), page))
    case SwapPte(t, offset, dirty, page) =>
      MakePme(t + 32 * offset, WithPage(Nothing.(softDirty := dirty || v.softDirty, swap := true), page))
  }

  /** The entry of a huge page's page number k. */
  function LargeEntry(showPfn: bool, f: Flags, l: Large, k: nat): nat {
    if l.present then MakePme(if showPfn then l.pfn + k else 0, f.(present := true)) else MakePme(0, f)
  }

  function ThpFlags(v: Vma, l: Large): Flags {
    Nothing.(softDirty := v.softDirty || l.softDirty, exclusive := l.present && l.page.mapcount == 1)
  }

  function HugetlbFlags(v: Vma, l: Large): Flags {
    Soft(v).(file := l.present && !l.page.anon, exclusive := l.present && l.page.mapcount == 1)
  }

  /** The documented table: the entry of page p, whatever maps it. */
  function PmeAt(mm: Mm, showPfn: bool, p: nat): nat {
    match VmaAt(mm, p)
    case None => MakePme(0, Nothing)
    case Some(v) =>
      match mm.at(p)
      case Absent => MakePme(0, Soft(v))
      case Mapped(pte) => PteEntry(showPfn, v, pte)
      case Thp(pmd) => LargeEntry(showPfn, ThpFlags(v, pmd), pmd, p % PAGES_PER_PMD)
      case Hugetlb(huge, n) => LargeEntry(showPfn, HugetlbFlags(v, huge), huge, if n == 0 then 0 else p % n)
  }

  /** The entries of n pages from page s on. */
  function Table(mm: Mm, showPfn: bool, s: nat, n: nat): (r: seq<nat>)
    ensures |r| == n
  {
    if n == 0 then [] else Table(mm, showPfn, s, n - 1) + [PmeAt(mm, showPfn, s + (n - 1))]
  }

  lemma {:induction false} TableJoin(mm: Mm, showPfn: bool, s: nat, a: nat, b: nat, n: nat)
    requires n == a + b
    ensures Table(mm, showPfn, s, a) + Table(mm, showPfn, s + a, b) == Table(mm, showPfn, s, n)
  {
    if b > 0 { TableJoin(mm, showPfn, s, a, b - 1, n - 1); }
  }

  lemma {:induction false} TableSlice(mm: Mm, showPfn: bool, s: nat, n: nat, all: nat)
    requires s + n <= all
    ensures Table(mm, showPfn, 0, all)[s..s + n] == Table(mm, showPfn, s, n)
  {
    var k := s + n;
    var front, part, rest := Table(mm, showPfn, 0, s), Table(mm, showPfn, s, n), Table(mm, showPfn, k, all - k);
    TableJoin(mm, showPfn, 0, k, all - k, all);
    TableJoin(mm, showPfn, 0, s, n, k);
    SliceLeft(front + part, rest, s, k);
    SliceRight(front, part, s, k);
    assert part[0..n] == part;
  }

  lemma {:induction false} TableNext(mm: Mm, showPfn: bool, s: nat, n: nat, front: seq<nat>, p: nat)
    requires n > 0 && front == Table(mm, showPfn, s, n - 1) && p == s + (n - 1)
    ensures Table(mm, showPfn, s, n) == front + [PmeAt(mm, showPfn, p)]
  {
  }

  /** Entry i is that of page s + i. */
  lemma {:induction false} TableAt(mm: Mm, showPfn: bool, s: nat, n: nat, i: nat)
    requires i < n
    ensures Table(mm, showPfn, s, n)[i] == PmeAt(mm, showPfn, s + i)
  {
    var front := Table(mm, showPfn, s, n - 1);
    TableNext(mm, showPfn, s, n, front, s + (n - 1));
    if i < n - 1 { TableAt(mm, showPfn, s, n - 1, i); }
  }

  // ---------- the walk ----------

  // walk_page_range cuts the range at pmd boundaries and vma boundaries and calls one of the
  // walkers for each piece: a hole, or a piece of a vma mapped in one of three ways.
  datatype Piece = Hole(end: nat) | PteRange(end: nat, v: Vma) | ThpRange(end: nat, v: Vma, pmd: Large)
                 | HugeRange(end: nat, v: Vma, huge: Large, pages: nat)

  /** The walker's piece [start, end) is what the address space has there. */
  ghost predicate PieceOk(mm: Mm, start: nat, piece: Piece) {
    && start < piece.end
    && match piece
       case Hole(end) => forall p :: start <= p < end && VmaAt(mm, p).Some? ==> mm.at(p) == Absent
       case PteRange(end, v) => forall p :: start <= p < end ==> VmaAt(mm, p) == Some(v) && mm.at(p).Mapped?
       case ThpRange(end, v, pmd) =>
         && start / PAGES_PER_PMD == (end - 1) / PAGES_PER_PMD
         && forall p :: start <= p < end ==> VmaAt(mm, p) == Some(v) && mm.at(p) == Thp(pmd)
       case HugeRange(end, v, huge, n) =>
         && n > 0 && start / n == (end - 1) / n
         && forall p :: start <= p < end ==> VmaAt(mm, p) == Some(v) && mm.at(p) == Hugetlb(huge, n)
  }

  /** The pieces cover [start, end) in order. */
  ghost predicate Partition(mm: Mm, start: nat, end: nat, pieces: seq<Piece>)
    decreases |pieces|
  {
    if pieces == [] then start == end
    else PieceOk(mm, start, pieces[0]) && pieces[0].end <= end && Partition(mm, pieces[0].end, end, pieces[1..])
  }

  lemma {:induction false} NextRemainder(p: nat, start: nat, end: nat, n: nat)
    requires n > 0 && start <= p < end && start / n == (end - 1) / n
    ensures p % n == start % n + (p - start)
  {
    var q := start / n;
    assert start == q * n + start % n && end - 1 == q * n + (end - 1) % n;
    assert 0 <= p - q * n < n;
    assert p == q * n + (p - q * n);
    DivIs(p, q, n);
  }

  lemma {:induction false} Multiple(d: int, n: nat)
    ensures d >= 1 ==> d * n >= n
    ensures d <= -1 ==> d * n + n <= 0
  {
  }

  class Reader {
    const buffer: array<nat>
    const showPfn: bool
    var pos: nat

    constructor (len: nat, showPfn: bool)
      ensures fresh(buffer) && buffer.Length == len && pos == 0 && this.showPfn == showPfn
    {
      buffer := new nat[len];
      this.showPfn, pos := showPfn, 0;
    }

    /** The buffer holds the entries of the pages from s up to before addr. */
    ghost predicate Filled(mm: Mm, s: nat, addr: nat)
      reads this, buffer
    {
      addr == s + pos && pos <= buffer.Length && buffer[..pos] == Table(mm, showPfn, s, pos)
    }

    /** What a walker over [start, end) leaves: all entries, or a full buffer. */
    ghost predicate Walked(mm: Mm, s: nat, end: nat, err: int)
      reads this, buffer
    {
      && (err == 0 ==> Filled(mm, s, end) && pos < buffer.Length)
      && (err != 0 ==> err == PM_END_OF_BUFFER && pos == buffer.Length && s + pos <= end && Filled(mm, s, s + pos))
    }

    /** add_to_pagemap. */
    method AddToPagemap(pme: nat, ghost mm: Mm, ghost s: nat, ghost addr: nat) returns (err: int)
      requires Filled(mm, s, addr) && pos < buffer.Length && pme == PmeAt(mm, showPfn, addr)
      modifies this, buffer
      ensures Filled(mm, s, addr + 1) && Walked(mm, s, addr + 1, err)
    {
      ghost var was, n := buffer[..pos], pos;
      buffer[pos] := pme;
      pos := pos + 1;
      assert buffer[..n] == was;
      assert buffer[..n + 1] == buffer[..n] + [pme];
      if pos >= buffer.Length { return PM_END_OF_BUFFER; }
      return 0;
    }

    /** A loop that adds the same entry for each page of a range. */
    method AddSame(pme: nat, start: nat, end: nat, ghost mm: Mm, ghost s: nat) returns (err: int)
      requires Filled(mm, s, start) && pos < buffer.Length
      requires forall p :: start <= p < end ==> PmeAt(mm, showPfn, p) == pme
      modifies this, buffer
      ensures Walked(mm, s, if start < end then end else start, err)
    {
      var addr := start;
      while addr < end
        invariant start <= addr && (start < end ==> addr <= end) && (start >= end ==> addr == start)
        invariant Filled(mm, s, addr) && pos < buffer.Length
      {
        err := AddToPagemap(pme, mm, s, addr);
        if err != 0 { return; }
        addr := addr + 1;
      }
      return 0;
    }

    /** pagemap_pte_hole: pages without a page table, inside and outside the vmas. */
    method PteHole(mm: Mm, start: nat, end: nat, ghost s: nat) returns (err: int)
      requires WellFormed(mm) && PieceOk(mm, start, Hole(end)) && Filled(mm, s, start) && pos < buffer.Length
      modifies this, buffer
      ensures Walked(mm, s, end, err)
    {
      var addr := start;
      while addr < end
        invariant start <= addr <= end && Filled(mm, s, addr) && pos < buffer.Length
        decreases end - addr
      {
        var vma := FindVma(mm.vmas, addr);
        var holeEnd := if vma.Some? then Min(end, vma.value.start) else end;
        HoleEntries(mm, showPfn, addr, end, holeEnd);
        err := AddSame(MakePme(0, Nothing), addr, holeEnd, mm, s);
        if err != 0 { return; }
        addr := if addr < holeEnd then holeEnd else addr;
        if vma.None? { break; }
        var vmaEnd := Min(end, vma.value.end);
        var flags := if vma.value.softDirty then Nothing.(softDirty := true) else Nothing;
        err := AddSame(MakePme(0, flags), addr, vmaEnd, mm, s);
        if err != 0 { return; }
        addr := if addr < vmaEnd then vmaEnd else addr;
      }
      return 0;
    }

    /** pagemap_pmd_range below a page table. */
    method PteRangeWalk(mm: Mm, start: nat, end: nat, v: Vma, ghost s: nat) returns (err: int)
      requires PieceOk(mm, start, PteRange(end, v)) && Filled(mm, s, start) && pos < buffer.Length
      modifies this, buffer
      ensures Walked(mm, s, end, err)
    {
      var addr := start;
      while addr < end
        invariant start <= addr <= end && Filled(mm, s, addr) && pos < buffer.Length
      {
        var pme := PteEntry(showPfn, v, mm.at(addr).pte);
        err := AddToPagemap(pme, mm, s, addr);
        if err != 0 { return; }
        addr := addr + 1;
      }
      return 0;
    }

    /** The loop over the pages of a huge page, counting the frame up. */
    method LargeWalk(start: nat, end: nat, frame0: nat, f: Flags, ghost mm: Mm, ghost s: nat) returns (err: int)
      requires start < end && Filled(mm, s, start) && pos < buffer.Length
      requires forall p :: start <= p < end ==>
                 PmeAt(mm, showPfn, p) == MakePme(if showPfn && f.present then frame0 + (p - start) else frame0, f)
      modifies this, buffer
      ensures Walked(mm, s, end, err)
    {
      var addr, frame := start, frame0;
      while addr != end
        invariant start <= addr <= end && Filled(mm, s, addr) && pos < buffer.Length
        invariant frame == if showPfn && f.present then frame0 + (addr - start) else frame0
        decreases end - addr
      {
        var pme := MakePme(frame, f);
        err := AddToPagemap(pme, mm, s, addr);
        if err != 0 { return; }
        if showPfn && f.present { frame := frame + 1; }
        addr := addr + 1;
      }
      return 0;
    }

    /** pagemap_pmd_range for a transparent huge page. */
    method ThpWalk(mm: Mm, start: nat, end: nat, v: Vma, pmd: Large, ghost s: nat) returns (err: int)
      requires PieceOk(mm, start, ThpRange(end, v, pmd)) && Filled(mm, s, start) && pos < buffer.Length
      modifies this, buffer
      ensures Walked(mm, s, end, err)
    {
      var flags, frame := Nothing, 0;
      if v.softDirty || pmd.softDirty { flags := flags.(softDirty := true); }
      if pmd.present {
        if pmd.page.mapcount == 1 { flags := flags.(exclusive := true); }
        flags := flags.(present := true);
        if showPfn { frame := pmd.pfn + start % PAGES_PER_PMD; }
      }
      ThpEntries(mm, showPfn, start, end, v, pmd);
      err := LargeWalk(start, end, frame, flags, mm, s);
    }

    /** pagemap_hugetlb_range. */
    method HugetlbWalk(mm: Mm, start: nat, end: nat, v: Vma, huge: Large, n: nat, ghost s: nat) returns (err: int)
      requires PieceOk(mm, start, HugeRange(end, v, huge, n)) && Filled(mm, s, start) && pos < buffer.Length
      modifies this, buffer
      ensures Walked(mm, s, end, err)
    {
      var flags, frame := Nothing, 0;
      if v.softDirty { flags := flags.(softDirty := true); }
      if huge.present {
        if !huge.page.anon { flags := flags.(file := true); }
        if huge.page.mapcount == 1 { flags := flags.(exclusive := true); }
        flags := flags.(present := true);
        if showPfn { frame := huge.pfn + start % n; }
      }
      HugetlbEntries(mm, showPfn, start, end, v, huge, n);
      err := LargeWalk(start, end, frame, flags, mm, s);
    }

    /** walk_page_range with these walkers: whatever maps the pages, their entries are added in order. */
    method WalkPageRange(mm: Mm, start: nat, end: nat, pieces: seq<Piece>, ghost s: nat) returns (err: int)
      requires WellFormed(mm) && Partition(mm, start, end, pieces) && Filled(mm, s, start) && pos < buffer.Length
      modifies this, buffer
      ensures Walked(mm, s, end, err)
    {
      var i, addr := 0, start;
      assert pieces[0..] == pieces;
      while i < |pieces|
        invariant i <= |pieces| && Partition(mm, addr, end, pieces[i..])
        invariant Filled(mm, s, addr) && pos < buffer.Length
      {
        var piece := pieces[i];
        assert pieces[i..][0] == piece && pieces[i..][1..] == pieces[i + 1..];
        match piece {
          case Hole(to) => err := PteHole(mm, addr, to, s);
          case PteRange(to, v) => err := PteRangeWalk(mm, addr, to, v, s);
          case ThpRange(to, v, pmd) => err := ThpWalk(mm, addr, to, v, pmd, s);
          case HugeRange(to, v, huge, n) => err := HugetlbWalk(mm, addr, to, v, huge, n, s);
        }
        PartitionEnd(mm, piece.end, end, pieces[i + 1..]);
        if err != 0 { return; }
        addr := piece.end;
        i := i + 1;
      }
      return 0;
    }
  }

  lemma {:induction false} PartitionEnd(mm: Mm, start: nat, end: nat, pieces: seq<Piece>)
    requires Partition(mm, start, end, pieces)
    ensures start <= end
    decreases |pieces|
  {
    if pieces != [] { PartitionEnd(mm, pieces[0].end, end, pieces[1..]); }
  }

  /** The entry of page p of a hole, by the vma found at an earlier page of it. */
  lemma {:induction false} HoleEntry(mm: Mm, showPfn: bool, addr: nat, p: nat)
    requires addr <= p && (VmaAt(mm, p).Some? ==> mm.at(p) == Absent)
    ensures var vma := FindVma(mm.vmas, addr);
      && (vma.None? ==> PmeAt(mm, showPfn, p) == MakePme(0, Nothing))
      && (vma.Some? ==> addr < vma.value.end)
      && (vma.Some? && p < vma.value.end ==>
            PmeAt(mm, showPfn, p) == MakePme(0, if p < vma.value.start then Nothing else Soft(vma.value)))
  {
    FindVmaEnd(mm.vmas, addr, p);
  }

  lemma {:induction false} HoleEntries(mm: Mm, showPfn: bool, addr: nat, end: nat, holeEnd: nat)
    requires addr < end && forall p :: addr <= p < end && VmaAt(mm, p).Some? ==> mm.at(p) == Absent
    requires holeEnd == if FindVma(mm.vmas, addr).Some? then Min(end, FindVma(mm.vmas, addr).value.start) else end
    requires WellFormed(mm)
    ensures forall p :: addr <= p < holeEnd ==> PmeAt(mm, showPfn, p) == MakePme(0, Nothing)
    ensures var vma := FindVma(mm.vmas, addr);
      vma.Some? ==> addr < vma.value.end
                    && forall p :: addr <= p < Min(end, vma.value.end) && holeEnd <= p ==>
                         PmeAt(mm, showPfn, p) == MakePme(0, Soft(vma.value))
  {
    var vma := FindVma(mm.vmas, addr);
    HoleEntry(mm, showPfn, addr, addr);
    FindVmaIn(mm.vmas, addr);
    forall p | addr <= p < holeEnd ensures PmeAt(mm, showPfn, p) == MakePme(0, Nothing) {
      HoleEntry(mm, showPfn, addr, p);
    }
    if vma.Some? {
      forall p | addr <= p < Min(end, vma.value.end) && holeEnd <= p
        ensures PmeAt(mm, showPfn, p) == MakePme(0, Soft(vma.value))
      {
        HoleEntry(mm, showPfn, addr, p);
      }
    }
  }

  lemma {:induction false} FindVmaIn(vmas: seq<Vma>, p: nat)
    ensures FindVma(vmas, p).Some? ==> FindVma(vmas, p).value in vmas
  {
    if vmas != [] && p >= vmas[0].end { FindVmaIn(vmas[1..], p); }
  }

  lemma {:induction false} ThpEntries(mm: Mm, showPfn: bool, start: nat, end: nat, v: Vma, pmd: Large)
    requires PieceOk(mm, start, ThpRange(end, v, pmd))
    ensures forall p :: start <= p < end ==>
      PmeAt(mm, showPfn, p) == LargeEntry(showPfn, ThpFlags(v, pmd), pmd, start % PAGES_PER_PMD + (p - start))
  {
    forall p | start <= p < end
      ensures PmeAt(mm, showPfn, p) == LargeEntry(showPfn, ThpFlags(v, pmd), pmd, start % PAGES_PER_PMD + (p - start))
    {
      NextRemainder(p, start, end, PAGES_PER_PMD);
    }
  }

  lemma {:induction false} HugetlbEntries(mm: Mm, showPfn: bool, start: nat, end: nat, v: Vma, huge: Large, n: nat)
    requires PieceOk(mm, start, HugeRange(end, v, huge, n))
    ensures forall p :: start <= p < end ==>
      PmeAt(mm, showPfn, p) == LargeEntry(showPfn, HugetlbFlags(v, huge), huge, start % n + (p - start))
  {
    forall p | start <= p < end
      ensures PmeAt(mm, showPfn, p) == LargeEntry(showPfn, HugetlbFlags(v, huge), huge, start % n + (p - start))
    {
      NextRemainder(p, start, end, n);
    }
  }

  // ---------- pagemap_read ----------

  /** The whole file: an entry for each page of the process. */
  function WholeFile(mm: Mm, showPfn: bool): (r: seq<nat>)
    ensures |r| == mm.taskPages
  {
    Table(mm, showPfn, 0, mm.taskPages)
  }

  /** copy_to_user of the first n entries. */
  method CopyOut(buf: array<nat>, at: nat, src: array<nat>, n: nat)
    requires at + n <= buf.Length && n <= src.Length && buf != src
    modifies buf
    ensures buf[..at] == old(buf[..at]) && buf[at..at + n] == src[..n] && buf[at + n..] == old(buf[at + n..])
  {
    var i := 0;
    while i < n
      invariant i <= n && buf[..at] == old(buf[..at]) && buf[at..at + i] == src[..i]
                && buf[at + i..] == old(buf[at + i..])
    {
      buf[at + i] := src[i];
      i := i + 1;
    }
  }

  /** The first n entries from page s on have been delivered. */
  ghost predicate Delivered(was: seq<nat>, now: seq<nat>, mm: Mm, showPfn: bool, s: nat, n: nat) {
    n <= |was| == |now| && now[..n] == Table(mm, showPfn, s, n) && now[n..] == was[n..]
  }

  lemma {:induction false} DeliverMore(was: seq<nat>, mid: seq<nat>, now: seq<nat>, mm: Mm, showPfn: bool, s: nat,
                                       n: nat, part: seq<nat>, k: nat)
    requires Delivered(was, mid, mm, showPfn, s, n) && n + k <= |now| == |was| && k <= |part|
    requires now[..n] == mid[..n] && now[n..n + k] == part[..k] && now[n + k..] == mid[n + k..]
    requires part == Table(mm, showPfn, s + n, |part|)
    ensures Delivered(was, now, mm, showPfn, s, n + k)
  {
    TableJoin(mm, showPfn, s + n, k, |part| - k, |part|);
    TableJoin(mm, showPfn, s, n, k, n + k);
    assert now[..n + k] == now[..n] + now[n..n + k];
    assert now[n + k..] == mid[n..][k..] == was[n..][k..];
  }

  /** The walk from page start on, to the end of a page table or of the process. */
  method WalkSome(pm: Reader, mm: Mm, cut: (nat, nat) -> seq<Piece>, start: nat) returns (end: nat)
    requires WellFormed(mm) && pm.buffer.Length == PAGES_PER_PMD && start < mm.taskPages
    requires forall a, b :: a <= b ==> Partition(mm, a, b, cut(a, b))
    modifies pm, pm.buffer
    ensures start < end <= mm.taskPages && pm.pos == end - start && pm.Filled(mm, start, end)
  {
    pm.pos := 0;
    end := (start + PAGES_PER_PMD) / PAGES_PER_PMD * PAGES_PER_PMD % PAGE_NUMBERS;
    if end < start || end > mm.taskPages { end := mm.taskPages; }
    WalkLength(start, end, mm.taskPages);
    assert pm.Filled(mm, start, start);
    var ret := pm.WalkPageRange(mm, start, end, cut(start, end), start);
  }

  /** One turn of the loop: the walk from page start on, and the copy of what the reader asked for. */
  method ReadSome(pm: Reader, mm: Mm, cut: (nat, nat) -> seq<Piece>, start: nat, buf: array<nat>, n: nat, count: nat,
                  ghost was: seq<nat>, ghost s: nat)
    returns (end: nat, len: nat)
    requires WellFormed(mm) && pm.buffer.Length == PAGES_PER_PMD && buf != pm.buffer && start < mm.taskPages
    requires forall a, b :: a <= b ==> Partition(mm, a, b, cut(a, b))
    requires n + count <= buf.Length && start == s + n && count > 0 && Delivered(was, buf[..], mm, pm.showPfn, s, n)
    modifies pm, pm.buffer, buf
    ensures start < end <= mm.taskPages && len == Min(count, end - start)
    ensures Delivered(was, buf[..], mm, pm.showPfn, s, n + len)
  {
    end := WalkSome(pm, mm, cut, start);
    len := Min(count, pm.pos);
    ghost var mid, part := buf[..], pm.buffer[..pm.pos];
    CopyPart(buf, n, pm.buffer, len, mid, pm.pos, part);
    DeliverMore(was, mid, buf[..], mm, pm.showPfn, s, n, part, len);
  }

  /** The copy, said of whole contents. */
  method CopyPart(buf: array<nat>, at: nat, src: array<nat>, n: nat, ghost mid: seq<nat>, ghost k: nat,
                  ghost part: seq<nat>)
    requires at + n <= buf.Length && n <= k <= src.Length && buf != src && buf[..] == mid && src[..k] == part
    modifies buf
    ensures |mid| == buf.Length && |part| == k
    ensures buf[..][..at] == mid[..at] && buf[..][at..at + n] == part[..n] && buf[..][at + n..] == mid[at + n..]
  {
    CopyOut(buf, at, src, n);
    assert part[..n] == src[..n];
    assert buf[..][..at] == mid[..at] && buf[..][at..at + n] == part[..n] && buf[..][at + n..] == mid[at + n..];
  }

  /** No walk is longer than the buffer. */
  lemma {:induction false} WalkLength(start: nat, end: nat, taskPages: nat)
    requires start < taskPages < PAGE_NUMBERS
    requires var e := (start + PAGES_PER_PMD) / PAGES_PER_PMD * PAGES_PER_PMD % PAGE_NUMBERS;
      end == if e < start || e > taskPages then taskPages else e
    ensures start < end <= start + PAGES_PER_PMD
  {
  }

  /** What a read of count bytes at position ppos delivers, both whole numbers of entries. */
  function Answer(mm: Mm, showPfn: bool, ppos: nat, count: nat): seq<nat> {
    Slice(WholeFile(mm, showPfn), ppos / PM_ENTRY_BYTES, count / PM_ENTRY_BYTES)
  }

  /**
   * pagemap_read: the entries of the pages from ppos on, as many as asked for and as the process has,
   * each as the documented table says; the position advances by their size.
   */
  method PagemapRead(mm: Option<Mm>, showPfn: bool, cut: (nat, nat) -> seq<Piece>, buf: array<nat>, count0: nat,
                     ppos: nat)
    returns (ret: int, pos: nat)
    requires mm.Some? ==> WellFormed(mm.value) && forall a, b :: a <= b ==> Partition(mm.value, a, b, cut(a, b))
    requires count0 / PM_ENTRY_BYTES <= buf.Length
    modifies buf
    ensures mm.Some? && (ppos % PM_ENTRY_BYTES != 0 || count0 % PM_ENTRY_BYTES != 0) <==> ret == -EINVAL
    ensures mm.None? || ret < 0 ==> buf[..] == old(buf[..]) && pos == ppos && (mm.None? ==> ret == 0)
    ensures mm.Some? && ret >= 0 ==>
      var x := Answer(mm.value, showPfn, ppos, count0);
      && ret == PM_ENTRY_BYTES * |x| && pos == ppos + ret
      && buf[..] == x + old(buf[..])[|x|..]
  {
    if mm.None? { return 0, ppos; }
    if ppos % PM_ENTRY_BYTES != 0 || count0 % PM_ENTRY_BYTES != 0 { return -EINVAL, ppos; }
    var svpfn := ppos / PM_ENTRY_BYTES;
    if count0 == 0 { return 0, ppos; }
    var copied := ReadAll(mm.value, showPfn, cut, buf, count0 / PM_ENTRY_BYTES, svpfn);
    ReadIsSlice(mm.value, showPfn, svpfn, copied, count0 / PM_ENTRY_BYTES);
    assert buf[..] == buf[..][..copied] + buf[..][copied..];
    return PM_ENTRY_BYTES * copied, ppos + PM_ENTRY_BYTES * copied;
  }

  /** The loop of pagemap_read, counting in entries. */
  method ReadAll(mm: Mm, showPfn: bool, cut: (nat, nat) -> seq<Piece>, buf: array<nat>, asked: nat, svpfn: nat)
    returns (copied: nat)
    requires WellFormed(mm) && asked <= buf.Length && forall a, b :: a <= b ==> Partition(mm, a, b, cut(a, b))
    modifies buf
    ensures copied == if svpfn < mm.taskPages then Min(asked, mm.taskPages - svpfn) else 0
    ensures Delivered(old(buf[..]), buf[..], mm, showPfn, svpfn, copied)
  {
    ghost var was := buf[..];
    var pm := new Reader(PAGES_PER_PMD, showPfn);
    var start := svpfn % PAGE_NUMBERS;
    if svpfn > mm.taskPages { start := mm.taskPages; }
    var count := asked;
    copied := 0;
    while count > 0 && start < mm.taskPages
      invariant copied + count == asked && start <= mm.taskPages && pm.showPfn == showPfn
      invariant svpfn <= mm.taskPages ==> svpfn + copied <= start && (count > 0 ==> start == svpfn + copied)
      invariant svpfn > mm.taskPages ==> start == mm.taskPages && copied == 0
      invariant Delivered(was, buf[..], mm, showPfn, svpfn, copied)
      decreases mm.taskPages - start
    {
      var end, len := ReadSome(pm, mm, cut, start, buf, copied, count, was, svpfn);
      start, copied, count := end, copied + len, count - len;
    }
  }

  lemma {:induction false} ReadIsSlice(mm: Mm, showPfn: bool, s: nat, n: nat, asked: nat)
    requires n == if s < mm.taskPages then Min(asked, mm.taskPages - s) else 0
    ensures Slice(WholeFile(mm, showPfn), s, asked) == Table(mm, showPfn, s, n)
  {
    if s < mm.taskPages { TableSlice(mm, showPfn, s, n, mm.taskPages); }
  }

  // ---------- reading on ----------

  /** What reads of the given numbers of bytes deliver, each at the position the last one left. */
  function Answers(mm: Mm, showPfn: bool, ppos: nat, counts: seq<nat>): seq<nat>
    decreases counts
  {
    if counts == [] then []
    else
      var first := Answer(mm, showPfn, ppos, counts[0]);
      first + Answers(mm, showPfn, ppos + PM_ENTRY_BYTES * |first|, counts[1..])
  }

  /** Counts that pagemap_read does not refuse. */
  predicate WholeEntries(counts: seq<nat>) {
    forall i :: 0 <= i < |counts| ==> counts[i] % PM_ENTRY_BYTES == 0
  }

  /** The numbers of entries that byte counts ask for. */
  function Entries(counts: seq<nat>): (r: seq<nat>)
    ensures |r| == |counts|
  {
    seq(|counts|, i requires 0 <= i < |counts| => counts[i] / PM_ENTRY_BYTES)
  }

  lemma {:induction false} EntriesSum(counts: seq<nat>)
    requires WholeEntries(counts)
    ensures Sum(counts) == PM_ENTRY_BYTES * Sum(Entries(counts))
  {
    if counts != [] {
      EntriesSum(counts[1..]);
      assert Entries(counts)[1..] == Entries(counts[1..]);
    }
  }

  lemma {:induction false} AnswerAt(mm: Mm, showPfn: bool, page: nat, count: nat)
    ensures Answer(mm, showPfn, PM_ENTRY_BYTES * page, count)
            == Slice(WholeFile(mm, showPfn), page, count / PM_ENTRY_BYTES)
  {
  }

  lemma {:induction false} FirstAnswer(mm: Mm, showPfn: bool, ppos: nat, counts: seq<nat>, first: seq<nat>,
                                       next: nat, rest: seq<nat>)
    requires counts != [] && first == Answer(mm, showPfn, ppos, counts[0]) && next == ppos + PM_ENTRY_BYTES * |first|
    requires rest == Answers(mm, showPfn, next, counts[1..])
    ensures Answers(mm, showPfn, ppos, counts) == first + rest
  {
  }

  /** Reading pagemap bytes from a page on is reading entries of the whole file. */
  lemma {:induction false} AnswersAreReads(mm: Mm, showPfn: bool, page: nat, counts: seq<nat>)
    ensures Answers(mm, showPfn, PM_ENTRY_BYTES * page, counts) == Reads(WholeFile(mm, showPfn), page, Entries(counts))
    decreases |counts|
  {
    if counts != [] {
      var whole, sizes := WholeFile(mm, showPfn), Entries(counts);
      var first := Slice(whole, page, sizes[0]);
      var next := page + |first|;
      var rest := Reads(whole, next, sizes[1..]);
      assert Entries(counts[1..]) == sizes[1..];
      AnswerAt(mm, showPfn, page, counts[0]);
      AnswersAreReads(mm, showPfn, next, counts[1..]);
      FirstAnswer(mm, showPfn, PM_ENTRY_BYTES * page, counts, first, PM_ENTRY_BYTES * next, rest);
      NextRead(whole, page, sizes, first, next, rest);
    }
  }

  /** Reads of any sizes, one after the other, deliver what one large read at the first position does. */
  lemma {:induction false} SequentialReads(mm: Mm, showPfn: bool, ppos: nat, counts: seq<nat>)
    requires ppos % PM_ENTRY_BYTES == 0 && WholeEntries(counts)
    ensures Answers(mm, showPfn, ppos, counts) == Answer(mm, showPfn, ppos, Sum(counts))
  {
    var page := ppos / PM_ENTRY_BYTES;
    assert ppos == PM_ENTRY_BYTES * page;
    AnswersAreReads(mm, showPfn, page, counts);
    ReadsConcatenate(WholeFile(mm, showPfn), page, Entries(counts));
    EntriesSum(counts);
    AnswerAt(mm, showPfn, page, Sum(counts));
  }

  /** Reading from the start until enough is asked for delivers the entry of each page once. */
  lemma {:induction false} ReadToEnd(mm: Mm, showPfn: bool, counts: seq<nat>)
    requires WholeEntries(counts) && Sum(counts) >= PM_ENTRY_BYTES * mm.taskPages
    ensures Answers(mm, showPfn, 0, counts) == WholeFile(mm, showPfn)
  {
    SequentialReads(mm, showPfn, 0, counts);
  }
}
