/**
 * What an entry of /proc/pid/pagemap says of its page, bit by bit: bits 0 to 54 are the frame or
 * the place in swap, 55 soft-dirty, 56 mapped once, 61 file or shared page, 62 swapped, 63 present.
 */
module PagemapEntries {
  import opened Wrappers
  import opened Pagemap

  // Page p lies in v, one of the vmas.
  predicate InVma(mm: Mm, p: nat, v: Vma) {
    WellFormed(mm) && v in mm.vmas && v.start <= p < v.end
  }

  predicate Bit63(e: nat) { e / 0x8000_0000_0000_0000 % 2 == 1 }
  predicate Bit62(e: nat) { e / 0x4000_0000_0000_0000 % 2 == 1 }
  predicate Bit61(e: nat) { e / 0x2000_0000_0000_0000 % 2 == 1 }
  predicate Bit56(e: nat) { e / 0x100_0000_0000_0000 % 2 == 1 }
  predicate Bit55(e: nat) { e / 0x80_0000_0000_0000 % 2 == 1 }

  /** The low 55 bits of e are those of x. */
  predicate Low(e: nat, x: nat) { e % 0x80_0000_0000_0000 == x % 0x80_0000_0000_0000 }

  lemma {:induction false} FindsVma(vmas: seq<Vma>, p: nat, v: Vma)
    requires forall i :: 0 <= i < |vmas| ==> vmas[i].start < vmas[i].end
    requires forall i, j :: 0 <= i < j < |vmas| ==> vmas[i].end <= vmas[j].start
    requires v in vmas && v.start <= p < v.end
    ensures FindVma(vmas, p) == Some(v)
  {
    var k :| 0 <= k < |vmas| && vmas[k] == v;
    if k > 0 { FindsVma(vmas[1..], p, v); }
  }

  lemma {:induction false} FoundIn(vmas: seq<Vma>, p: nat)
    ensures FindVma(vmas, p).Some? ==> FindVma(vmas, p).value in vmas
  {
    if vmas != [] && p >= vmas[0].end { FoundIn(vmas[1..], p); }
  }

  lemma {:induction false} VmaIs(mm: Mm, p: nat, v: Vma)
    requires InVma(mm, p, v)
    ensures VmaAt(mm, p) == Some(v)
  {
    FindsVma(mm.vmas, p, v);
  }

  /** A page outside all vmas has the entry 0. */
  lemma {:induction false} OutsideEntry(mm: Mm, showPfn: bool, p: nat)
    requires WellFormed(mm) && forall v :: v in mm.vmas ==> !(v.start <= p < v.end)
    ensures PmeAt(mm, showPfn, p) == 0
  {
    FoundIn(mm.vmas, p);
    FindVmaEnd(mm.vmas, p, p);
  }

  /** A page without a mapping: only the soft-dirty bit of its vma. */
  lemma {:induction false} UnmappedEntry(mm: Mm, showPfn: bool, p: nat, v: Vma)
    requires InVma(mm, p, v) && (mm.at(p) == Absent || mm.at(p) == Mapped(NoPte))
    ensures PmeAt(mm, showPfn, p) == if v.softDirty then 0x80_0000_0000_0000 else 0
  {
    VmaIs(mm, p, v);
  }

  /** A resident page: present, its frame if frames are shown, and what its struct page says. */
  lemma {:induction false} ResidentEntry(mm: Mm, showPfn: bool, p: nat, v: Vma, pfn: nat, dirty: bool,
                                         page: Option<Page>)
    requires InVma(mm, p, v) && mm.at(p) == Mapped(PresentPte(pfn, dirty, page))
    ensures var e := PmeAt(mm, showPfn, p);
      && e < 0x1_0000_0000_0000_0000 && Bit63(e) && !Bit62(e) && Low(e, if showPfn then pfn else 0)
      && (Bit55(e) <==> dirty || v.softDirty)
      && (Bit61(e) <==> page.Some? && !page.value.anon) && (Bit56(e) <==> page.Some? && page.value.mapcount == 1)
  {
    VmaIs(mm, p, v);
    PmeReadsBack(if showPfn then pfn else 0,
                 WithPage(Nothing.(softDirty := dirty || v.softDirty, present := true), page));
  }

  /** A swapped page: type and offset of its place, whether or not frames are shown. */
  lemma {:induction false} SwappedEntry(mm: Mm, showPfn: bool, p: nat, v: Vma, t: nat, offset: nat, dirty: bool,
                                        page: Option<Page>)
    requires InVma(mm, p, v) && mm.at(p) == Mapped(SwapPte(t, offset, dirty, page))
    ensures var e := PmeAt(mm, showPfn, p);
      && e < 0x1_0000_0000_0000_0000 && !Bit63(e) && Bit62(e) && Low(e, t + 32 * offset)
      && (Bit55(e) <==> dirty || v.softDirty)
      && (Bit61(e) <==> page.Some? && !page.value.anon) && (Bit56(e) <==> page.Some? && page.value.mapcount == 1)
  {
    VmaIs(mm, p, v);
    PmeReadsBack(t + 32 * offset, WithPage(Nothing.(softDirty := dirty || v.softDirty, swap := true), page));
  }

  /** A page of a transparent huge page: the frame behind that of its first page, of 512. */
  lemma {:induction false} HugeEntry(mm: Mm, showPfn: bool, p: nat, v: Vma, pmd: Large)
    requires InVma(mm, p, v) && mm.at(p) == Thp(pmd)
    ensures var e := PmeAt(mm, showPfn, p);
      && e < 0x1_0000_0000_0000_0000 && (Bit63(e) <==> pmd.present) && !Bit62(e) && !Bit61(e)
      && Low(e, if showPfn && pmd.present then pmd.pfn + p % 512 else 0)
      && (Bit55(e) <==> v.softDirty || pmd.softDirty) && (Bit56(e) <==> pmd.present && pmd.page.mapcount == 1)
  {
    VmaIs(mm, p, v);
    LargeBits(showPfn, ThpFlags(v, pmd), pmd, p % 512);
  }

  lemma {:induction false} HugetlbIs(mm: Mm, showPfn: bool, p: nat, v: Vma, huge: Large, n: nat)
    requires InVma(mm, p, v) && mm.at(p) == Hugetlb(huge, n) && n > 0
    ensures PmeAt(mm, showPfn, p) == LargeEntry(showPfn, HugetlbFlags(v, huge), huge, p % n)
  {
    VmaIs(mm, p, v);
  }

  /** Page k of a hugetlb page of n pages. */
  lemma {:induction false} HugetlbEntry(mm: Mm, showPfn: bool, p: nat, v: Vma, huge: Large, n: nat, k: nat)
    requires InVma(mm, p, v) && mm.at(p) == Hugetlb(huge, n) && n > 0 && k == p % n
    ensures HugetlbSays(PmeAt(mm, showPfn, p), showPfn, v, huge, k)
  {
    HugetlbIs(mm, showPfn, p, v, huge, n);
    HugetlbBits(showPfn, v, huge, k);
  }

  /** Present, frame, soft-dirty, file and mapped-once of page k of a hugetlb page. */
  predicate HugetlbSays(e: nat, showPfn: bool, v: Vma, huge: Large, k: nat) {
    && e < 0x1_0000_0000_0000_0000 && (Bit63(e) <==> huge.present) && !Bit62(e)
    && Low(e, if showPfn && huge.present then huge.pfn + k else 0)
    && (Bit55(e) <==> v.softDirty) && (Bit61(e) <==> huge.present && !huge.page.anon)
    && (Bit56(e) <==> huge.present && huge.page.mapcount == 1)
  }

  lemma {:induction false} HugetlbBits(showPfn: bool, v: Vma, huge: Large, k: nat)
    ensures HugetlbSays(LargeEntry(showPfn, HugetlbFlags(v, huge), huge, k), showPfn, v, huge, k)
  {
    LargeBits(showPfn, HugetlbFlags(v, huge), huge, k);
  }

  lemma {:induction false} LargeBits(showPfn: bool, f: Flags, l: Large, k: nat)
    requires !f.present && !f.swap
    ensures var e := LargeEntry(showPfn, f, l, k);
      && e < 0x1_0000_0000_0000_0000 && (Bit63(e) <==> l.present) && !Bit62(e)
      && Low(e, if showPfn && l.present then l.pfn + k else 0)
      && (Bit61(e) <==> f.file) && (Bit56(e) <==> f.exclusive) && (Bit55(e) <==> f.softDirty)
  {
    PmeReadsBack(if showPfn then l.pfn + k else 0, f.(present := true));
    PmeReadsBack(0, f);
  }

  lemma {:induction false} MiddleBits(frame: nat, f: Flags)
    ensures MakePme(frame, f) / 0x200_0000_0000_0000 % 16 == 0
  {
    var e, low, h := MakePme(frame, f), frame % 0x80_0000_0000_0000, HighPart(f);
    assert e == h * 0x80_0000_0000_0000 + low;
    HighBits(e, h, low, 0x80_0000_0000_0000, 4);
    var upper := Bit(f.file, 1) + Bit(f.swap, 2) + Bit(f.present, 4);
    assert h == 64 * upper + Bit(f.softDirty, 1) + Bit(f.exclusive, 2);
    assert h / 4 == 16 * upper;
  }

  /** Bits 57 to 60 are clear in every entry. */
  lemma {:induction false} NoOtherBits(mm: Mm, showPfn: bool, p: nat) returns (frame: nat, f: Flags)
    ensures PmeAt(mm, showPfn, p) == MakePme(frame, f) && PmeAt(mm, showPfn, p) / 0x200_0000_0000_0000 % 16 == 0
  {
    frame, f := 0, Nothing;
    if VmaAt(mm, p).Some? {
      frame, f := AnyEntry(showPfn, VmaAt(mm, p).value, mm.at(p), p);
    }
    MiddleBits(frame, f);
  }

  lemma {:induction false} AnyEntry(showPfn: bool, v: Vma, x: Mapping, p: nat) returns (frame: nat, f: Flags)
    ensures MakePme(frame, f)
            == match x
               case Absent => MakePme(0, Soft(v))
               case Mapped(pte) => PteEntry(showPfn, v, pte)
               case Thp(pmd) => LargeEntry(showPfn, ThpFlags(v, pmd), pmd, p % PAGES_PER_PMD)
               case Hugetlb(huge, n) =>
                 LargeEntry(showPfn, HugetlbFlags(v, huge), huge, if n == 0 then 0 else p % n)
  {
    match x
    case Absent => return 0, Soft(v);
    case Mapped(NoPte) => return 0, Soft(v);
    case Mapped(PresentPte(pfn, dirty, page)) =>
      return if showPfn then pfn else 0, WithPage(Nothing.(softDirty := dirty || v.softDirty, present := true), page);
    case Mapped(SwapPte(t, offset, dirty, page)) =>
      return t + 32 * offset, WithPage(Nothing.(softDirty := dirty || v.softDirty, swap := true), page);
    case Thp(pmd) => frame, f := LargeIs(showPfn, ThpFlags(v, pmd), pmd, p % PAGES_PER_PMD);
    case Hugetlb(huge, n) => frame, f := LargeIs(showPfn, HugetlbFlags(v, huge), huge, if n == 0 then 0 else p % n);
  }

  lemma {:induction false} LargeIs(showPfn: bool, flags: Flags, l: Large, k: nat) returns (frame: nat, f: Flags)
    ensures LargeEntry(showPfn, flags, l, k) == MakePme(frame, f)
  {
    if l.present { return if showPfn then l.pfn + k else 0, flags.(present := true); }
    return 0, flags;
  }
}
