/**
 * From the headers the crashed kernel left to the exported file: parse_crash_elf64_headers,
 * and what a reader of the file finds in it.
 */
module VmcoreExport {
  import opened Wrappers
  import opened Oldmem
  import opened Seqs
  import opened Elf
  import ElfNotes
  import opened VmcoreNotes
  import opened VmcoreHeaders
  import VmcoreMerge
  import opened VmcoreLoad
  import opened VmcoreFile
  import VmcoreDevice

  // ---------- the exported parts ----------

  // h is the original headers: the ELF header and n program headers.

  function Trimmed(m: OldMem, h: seq<byte>, n: nat): (t: seq<Phdr>)
    requires At(n) <= |h|
    ensures |t| == n
  {
    TrimAll(m, Table(h, n))
  }

  /** The table between merging and relocation, if there is a PT_NOTE header. */
  function MergedHeaders(m: OldMem, h: seq<byte>, n: nat): seq<Phdr>
    requires At(n) <= |h| && 1 <= NoteCount(Trimmed(m, h, n), n) <= n
  {
    var t := Trimmed(m, h, n);
    var nr := NoteCount(t, n);
    [MergedNote(n - nr + 1, NoteBytes(t, n))] + t[nr..]
  }

  /** x in whole pages. */
  function Padded(x: seq<byte>): (r: seq<byte>)
    ensures |r| == RoundUp(|x|)
  {
    x + Zeros(RoundUp(|x|) - |x|)
  }

  /**
   * The three parts of the file, for the merged table mt, the notes x and the original header
   * bytes h: rewritten headers, padded notes, and the listed memory.
   */
  ghost predicate Parts(h: seq<byte>, mt: seq<Phdr>, x: seq<byte>, headers: seq<byte>, notes: seq<byte>,
                        list: seq<Chunk>) {
    var k := |mt|; var off := RoundUp(At(k)) + RoundUp(|x|);
    && EHDR <= |h| && |headers| == RoundUp(At(k))
    && Table(headers, k) == Relocate(mt, off)
    && GetPhnum(headers) == k
    && headers[..PHNUM] == h[..PHNUM] && headers[PHNUM + 2..EHDR] == h[PHNUM + 2..EHDR]
    && headers[At(k)..] == Zeros(|headers| - At(k))
    && notes == Padded(x)
    && list == WithOffsets(Loads(mt, k), off)
  }

  lemma {:induction false} PartsOffsets(h: seq<byte>, mt: seq<Phdr>, x: seq<byte>, headers: seq<byte>,
                                        notes: seq<byte>, list: seq<Chunk>)
    requires Parts(h, mt, x, headers, notes, list)
    ensures Offsets(list, |headers| + |notes|)
  {
    OffsetsSet(Loads(mt, |mt|), |headers| + |notes|);
  }

  ghost predicate Built(m: OldMem, h: seq<byte>, n: nat, headers: seq<byte>, notes: seq<byte>, list: seq<Chunk>) {
    && At(n) <= |h| && 1 <= NoteCount(Trimmed(m, h, n), n) <= n
    && Parts(h, MergedHeaders(m, h, n), Concat(m, Trimmed(m, h, n), n), headers, notes, list)
  }

  // ---------- what a reader finds ----------

  lemma {:induction false} HeaderInFile(m: OldMem, headers: seq<byte>, notes: seq<byte>, list: seq<Chunk>, k: nat,
                                        i: nat)
    requires i < k && At(k) <= |headers|
    ensures var file := Image(m, headers, notes, list);
      At(i + 1) <= |file| && GetPhdr(file, i) == Table(headers, k)[i] && GetPhnum(file) == GetPhnum(headers)
  {
    var rest := notes + ChunkBytes(m, list);
    assert Image(m, headers, notes, list) == headers + rest;
    assert At(i + 1) <= At(k);
    SliceLeft(headers, rest, At(i), At(i + 1));
    SliceLeft(headers, rest, PHNUM, PHNUM + 2);
  }

  lemma {:induction false} NotesInFile(m: OldMem, headers: seq<byte>, x: seq<byte>, pad: seq<byte>, list: seq<Chunk>)
    ensures Image(m, headers, x + pad, list)[|headers|..|headers| + |x|] == x
  {
    var rest := pad + ChunkBytes(m, list);
    assert Image(m, headers, x + pad, list) == headers + (x + rest);
    SliceRight(headers, x + rest, |headers|, |headers| + |x|);
    SliceLeft(x, rest, 0, |x|);
    assert x[0..|x|] == x;
  }

  lemma {:induction false} MemoryInFile(m: OldMem, headers: seq<byte>, notes: seq<byte>, list: seq<Chunk>, c: nat,
                                        d: nat, len: nat)
    requires Offsets(list, |headers| + |notes|) && c < |list| && d + len <= list[c].size
    ensures var q := list[c].offset + d; var file := Image(m, headers, notes, list);
      q + len <= |file| && file[q..q + len] == OldBytes(m, list[c].paddr + d, len)
  {
    var front := headers + notes;
    OffsetAt(list, |front|, c);
    ChunkSlice(m, list, c, d, len);
    var q := list[c].offset + d;
    SliceRight(front, ChunkBytes(m, list), q, q + len);
  }

  lemma {:induction false} LoadInFile(m: OldMem, headers: seq<byte>, notes: seq<byte>, list: seq<Chunk>,
                                      mt: seq<Phdr>, off: nat, i: nat)
    requires off == |headers| + |notes| && list == WithOffsets(Loads(mt, |mt|), off)
    requires i < |mt| && mt[i].ptype == PT_LOAD
    ensures var q := Relocated(mt, off, i).offset; var file := Image(m, headers, notes, list);
      q + mt[i].memsz <= |file| && file[q..q + mt[i].memsz] == OldBytes(m, mt[i].offset, mt[i].memsz)
  {
    OffsetsAgree(mt, off, i);
    OffsetsSet(Loads(mt, |mt|), off);
    var c, p := |Loads(mt, i)|, mt[i];
    MemoryInFile(m, headers, notes, list, c, p.offset - list[c].paddr, p.memsz);
  }

  /**
   * Header i of the file is p with only p_offset changed, and p_memsz bytes of the file from
   * there are the old memory at the p_offset of p.
   */
  ghost predicate LoadAt(m: OldMem, file: seq<byte>, p: Phdr, i: nat) {
    && At(i + 1) <= |file|
    && var q := GetPhdr(file, i);
    && q == p.(offset := q.offset)
    && q.offset + p.memsz <= |file|
    && file[q.offset..q.offset + p.memsz] == OldBytes(m, p.offset, p.memsz)
  }

  lemma {:induction false} LoadInParts(m: OldMem, h: seq<byte>, mt: seq<Phdr>, x: seq<byte>, headers: seq<byte>,
                                       notes: seq<byte>, list: seq<Chunk>, i: nat)
    requires Parts(h, mt, x, headers, notes, list) && i < |mt| && mt[i].ptype == PT_LOAD
    ensures LoadAt(m, Image(m, headers, notes, list), mt[i], i)
  {
    HeaderInFile(m, headers, notes, list, |mt|, i);
    LoadInFile(m, headers, notes, list, mt, |headers| + |notes|, i);
  }

  /** End to end, memory: PT_LOAD header i of the merged table is exported with its old memory. */
  lemma {:induction false} LoadEndToEnd(m: OldMem, h: seq<byte>, n: nat, headers: seq<byte>, notes: seq<byte>,
                                        list: seq<Chunk>, i: nat)
    requires Built(m, h, n, headers, notes, list) && i < |MergedHeaders(m, h, n)|
    requires MergedHeaders(m, h, n)[i].ptype == PT_LOAD
    ensures LoadAt(m, Image(m, headers, notes, list), MergedHeaders(m, h, n)[i], i)
  {
    LoadInParts(m, h, MergedHeaders(m, h, n), Concat(m, Trimmed(m, h, n), n), headers, notes, list, i);
  }

  /** Exported headers of any other type are those of the merged table, unchanged. */
  lemma {:induction false} OtherHeaders(m: OldMem, h: seq<byte>, n: nat, headers: seq<byte>, notes: seq<byte>,
                                        list: seq<Chunk>, i: nat)
    requires Built(m, h, n, headers, notes, list) && i < |MergedHeaders(m, h, n)|
    requires MergedHeaders(m, h, n)[i].ptype != PT_LOAD
    ensures var file := Image(m, headers, notes, list);
      At(i + 1) <= |file| && GetPhdr(file, i) == MergedHeaders(m, h, n)[i]
      && GetPhnum(file) == |MergedHeaders(m, h, n)|
  {
    HeaderInFile(m, headers, notes, list, |MergedHeaders(m, h, n)|, i);
  }

  lemma {:induction false} FirstMerged(m: OldMem, h: seq<byte>, n: nat)
    requires At(n) <= |h| && 1 <= NoteCount(Trimmed(m, h, n), n) <= n
    ensures var mt := MergedHeaders(m, h, n);
      mt != [] && mt[0] == MergedNote(|mt|, |Concat(m, Trimmed(m, h, n), n)|)
  {
  }

  lemma {:induction false} NotesInParts(m: OldMem, h: seq<byte>, mt: seq<Phdr>, x: seq<byte>, headers: seq<byte>,
                                        notes: seq<byte>, list: seq<Chunk>)
    requires Parts(h, mt, x, headers, notes, list) && mt != [] && mt[0] == MergedNote(|mt|, |x|)
    ensures var file := Image(m, headers, notes, list);
      && At(1) <= |file| && GetPhdr(file, 0) == mt[0]
      && mt[0].offset + |x| <= |file| && file[mt[0].offset..mt[0].offset + |x|] == x
  {
    HeaderInFile(m, headers, notes, list, |mt|, 0);
    NotesInFile(m, headers, x, Zeros(RoundUp(|x|) - |x|), list);
  }

  /**
   * End to end, notes: the first exported header is the one PT_NOTE header; the file holds at
   * its p_offset the notes of all original segments, whole and in order.
   */
  lemma {:induction false} NotesEndToEnd(m: OldMem, h: seq<byte>, n: nat, headers: seq<byte>, notes: seq<byte>,
                                         list: seq<Chunk>)
    requires Built(m, h, n, headers, notes, list) && Terminated(m, Table(h, n))
    ensures var file, t := Image(m, headers, notes, list), Trimmed(m, h, n);
      && At(1) <= |file|
      && var q := GetPhdr(file, 0);
      && q.ptype == PT_NOTE && q.memsz == q.filesz == NoteBytes(t, n)
      && q.offset + q.memsz <= |file|
      && file[q.offset..q.offset + q.memsz] == Concat(m, t, n)
      && ElfNotes.ParseNotes(file[q.offset..q.offset + q.memsz]) == Some(AllNotes(m, t, n))
  {
    FirstMerged(m, h, n);
    NotesInParts(m, h, MergedHeaders(m, h, n), Concat(m, Trimmed(m, h, n), n), headers, notes, list);
    MergeKeepsNotes(m, Table(h, n), n);
  }

  /** The first header of the file is a note header for sz bytes, and `piece` is in them from a on. */
  ghost predicate NotesAt(file: seq<byte>, sz: nat, a: nat, piece: seq<byte>) {
    && At(1) <= |file|
    && var q := GetPhdr(file, 0);
    && q == Phdr(PT_NOTE, 0, q.offset, 0, 0, sz, sz, 0)
    && a + |piece| <= sz && q.offset + sz <= |file|
    && file[q.offset + a..q.offset + a + |piece|] == piece
  }

  /** The notes of one original PT_NOTE segment in the file: behind those of the segments before it. */
  lemma {:induction false} SegmentInFile(m: OldMem, h: seq<byte>, n: nat, headers: seq<byte>, notes: seq<byte>,
                                         list: seq<Chunk>, i: nat)
    requires Built(m, h, n, headers, notes, list) && i < n && Trimmed(m, h, n)[i].ptype == PT_NOTE
    ensures var t := Trimmed(m, h, n);
      NotesAt(Image(m, headers, notes, list), NoteBytes(t, n), NoteBytes(t, i), OldBytes(m, t[i].offset, t[i].memsz))
  {
    var t := Trimmed(m, h, n);
    var x, a, piece := Concat(m, t, n), NoteBytes(t, i), OldBytes(m, t[i].offset, t[i].memsz);
    FirstMerged(m, h, n);
    SegmentAt(m, t, n, i);
    PieceInParts(m, h, MergedHeaders(m, h, n), x, |x|, headers, notes, list, a, piece);
  }

  lemma {:induction false} PieceInParts(m: OldMem, h: seq<byte>, mt: seq<Phdr>, x: seq<byte>, sz: nat,
                                        headers: seq<byte>, notes: seq<byte>, list: seq<Chunk>, a: nat,
                                        piece: seq<byte>)
    requires Parts(h, mt, x, headers, notes, list) && mt != [] && mt[0] == MergedNote(|mt|, |x|) && sz == |x|
    requires a + |piece| <= |x| && x[a..a + |piece|] == piece
    ensures NotesAt(Image(m, headers, notes, list), sz, a, piece)
  {
    NotesInParts(m, h, mt, x, headers, notes, list);
    SliceOfSlice(Image(m, headers, notes, list), mt[0].offset, mt[0].offset + |x|, a, a + |piece|);
  }

  lemma {:induction false} TrimKeepsKinds(m: OldMem, t: seq<Phdr>, n: nat)
    requires n <= |t|
    ensures NoteCount(TrimAll(m, t), n) == NoteCount(t, n) <= n
    ensures Others(TrimAll(m, t), n) == Others(t, n)
  {
    if n > 0 {
      TrimKeepsKinds(m, t, n - 1);
      assert TrimAll(m, t)[n - 1] == Trim(m, t[n - 1]);
    }
  }

  /** What is kept of a table whose number of PT_NOTE headers and other headers is known. */
  lemma {:induction false} TrimmedOthers(m: OldMem, h: seq<byte>, n: nat)
    requires At(n) <= |h|
    ensures var t := Trimmed(m, h, n); var others := Others(Table(h, n), n);
      && NoteCount(t, n) <= n && |others| == n - NoteCount(t, n)
      && (t[NoteCount(t, n)..] == others <==> NotesLead(Table(h, n)))
  {
    var t0, t := Table(h, n), Trimmed(m, h, n);
    TrimKeepsKinds(m, t0, n);
    OthersAreOther(t0, n);
    DropIsOthers(t);
    forall i | 0 <= i < n ensures t[i].ptype == t0[i].ptype { assert t[i] == Trim(m, t0[i]); }
    assert NotesLead(t) <==> NotesLead(t0);
  }

  /** Without a PT_NOTE header every header is another one, and none of them is the merged note. */
  lemma {:induction false} NoNotes(m: OldMem, h: seq<byte>, n: nat)
    requires At(n) <= |h| && NoteCount(Trimmed(m, h, n), n) == 0
    ensures Others(Table(h, n), n) == Table(h, n) == Trimmed(m, h, n)
    ensures forall i :: 0 <= i < n ==> Table(h, n)[i].ptype != PT_NOTE
  {
    var t, t0 := Trimmed(m, h, n), Table(h, n);
    TrimKeepsKinds(m, t0, n);
    NoteCountFrom(t0, 0, n);
    LeadingOthers(t0, 0, n);
    forall i | 0 <= i < n ensures t[i] == t0[i] { assert t[i] == Trim(m, t0[i]); }
  }

  // b is the memory from the header buffer on when the sizes of the notes have been trimmed.
  ghost predicate TrimmedBuffer(m: OldMem, h: seq<byte>, n: nat, b: seq<byte>) {
    && 0 < n < U16 && At(n) <= |h| && At(n) <= |b| && Table(b, n) == Trimmed(m, h, n)
    && var nr := NoteCount(Trimmed(m, h, n), n);
    && nr <= n && At(n - nr + 1) <= |b| && NoteBytes(Trimmed(m, h, n), n) < U64
  }

  /** The table that the code's memcpy and memmove leave; without a PT_NOTE header it is one longer. */
  function WrittenTable(m: OldMem, h: seq<byte>, n: nat, b: seq<byte>): seq<Phdr>
    requires TrimmedBuffer(m, h, n, b)
  {
    var t := Trimmed(m, h, n);
    var nr := NoteCount(t, n);
    Table(VmcoreMerge.AfterMove(b, n, nr, NoteBytes(t, n)), n - nr + 1)
  }

  /** If there is a PT_NOTE header, the code's writes leave the merged table. */
  lemma {:induction false} WrittenIsMerged(m: OldMem, h: seq<byte>, n: nat, b: seq<byte>)
    requires TrimmedBuffer(m, h, n, b) && 1 <= NoteCount(Trimmed(m, h, n), n)
    ensures WrittenTable(m, h, n, b) == MergedHeaders(m, h, n)
  {
    var t := Trimmed(m, h, n);
    VmcoreMerge.AfterMoveTable(b, n, NoteCount(t, n), NoteBytes(t, n));
  }

  lemma {:induction false} LostFirst(b: seq<byte>, n: nat, nr: nat, sz: nat, t: seq<Phdr>)
    requires nr == 0 < n < U16 && At(n) <= |b| && At(n - nr + 1) <= |b| && sz < U64
    requires Table(b, n) == t && t[0].ptype != PT_NOTE
    ensures var note, w := MergedNote(n + 1, sz), Table(VmcoreMerge.AfterMove(b, n, nr, sz), n - nr + 1);
      w == [note, note] + t[1..] && w[1] != t[0]
  {
    VmcoreMerge.AfterMoveTable(b, n, 0, sz);
  }

  /**
   * Without a PT_NOTE header the writes put the merged note at index 1 as well: header 0 is lost,
   * the headers behind it stay.
   */
  lemma {:induction false} FirstHeaderLost(m: OldMem, h: seq<byte>, n: nat, b: seq<byte>)
    requires TrimmedBuffer(m, h, n, b) && NoteCount(Trimmed(m, h, n), n) == 0
    ensures var note := MergedNote(n + 1, NoteBytes(Trimmed(m, h, n), n));
      WrittenTable(m, h, n, b) == [note, note] + Table(h, n)[1..]
    ensures WrittenTable(m, h, n, b)[1] != Table(h, n)[0]
  {
    var t := Trimmed(m, h, n);
    NoNotes(m, h, n);
    LostFirst(b, n, NoteCount(t, n), NoteBytes(t, n), Table(h, n));
  }

  /**
   * The code's writes leave one PT_NOTE header followed by every other original header, unchanged
   * and in order, if and only if there is a PT_NOTE header and the PT_NOTE headers lead the
   * original table.
   */
  lemma {:induction false} MergedExactly(m: OldMem, h: seq<byte>, n: nat, b: seq<byte>)
    requires TrimmedBuffer(m, h, n, b)
    ensures var sz := NoteBytes(Trimmed(m, h, n), n); var others := Others(Table(h, n), n);
      WrittenTable(m, h, n, b) == [MergedNote(|others| + 1, sz)] + others
      <==> 1 <= NoteCount(Table(h, n), n) && NotesLead(Table(h, n))
  {
    var t := Trimmed(m, h, n);
    var sz, others := NoteBytes(t, n), Others(Table(h, n), n);
    TrimKeepsKinds(m, Table(h, n), n);
    TrimmedOthers(m, h, n);
    assert ([MergedNote(|others| + 1, sz)] + others)[1..] == others;
    if NoteCount(t, n) == 0 {
      NoNotes(m, h, n);
      FirstHeaderLost(m, h, n, b);
      assert WrittenTable(m, h, n, b)[1] != others[0];
    } else {
      WrittenIsMerged(m, h, n, b);
      assert MergedHeaders(m, h, n)[1..] == t[NoteCount(t, n)..];
    }
  }

  lemma {:induction false} OneNote(load: Phdr, note: Phdr)
    requires load.ptype == PT_LOAD && note.ptype == PT_NOTE
    ensures NoteCount([load, note], 2) == 1
  {
    assert NoteCount([load, note], 0) == 0;
    assert NoteCount([load, note], 1) == 0;
  }

  /** Headers with a PT_NOTE behind a PT_LOAD: the merged table has no PT_LOAD header left. */
  lemma {:induction false} NoteAfterLoad(m: OldMem, h: seq<byte>, load: Phdr, note: Phdr)
    requires At(2) <= |h| && Table(h, 2) == [load, note] && load.ptype == PT_LOAD && note.ptype == PT_NOTE
    ensures NoteCount(Trimmed(m, h, 2), 2) == 1
    ensures forall i :: 0 <= i < |MergedHeaders(m, h, 2)| ==> MergedHeaders(m, h, 2)[i].ptype != PT_LOAD
  {
    OneNote(load, note);
    TrimKeepsKinds(m, Table(h, 2), 2);
    assert Trimmed(m, h, 2)[1..] == [Trim(m, note)];
  }

  /** If the PT_NOTE headers lead, header j of another type is header j - nr + 1 of the merged table. */
  lemma {:induction false} KeptAt(m: OldMem, h: seq<byte>, n: nat, j: nat)
    requires At(n) <= |h| && NotesLead(Table(h, n)) && j < n && Table(h, n)[j].ptype != PT_NOTE
    requires 1 <= NoteCount(Table(h, n), n)
    ensures NoteCount(Trimmed(m, h, n), n) == NoteCount(Table(h, n), n) <= j
    ensures MergedHeaders(m, h, n)[j - NoteCount(Table(h, n), n) + 1] == Table(h, n)[j]
  {
    var t0, t := Table(h, n), Trimmed(m, h, n);
    TrimKeepsKinds(m, t0, n);
    assert t[j] == Trim(m, t0[j]) == t0[j];
    BehindNote(MergedNote(n - NoteCount(t, n) + 1, NoteBytes(t, n)), t, NoteCount(t, n), j);
  }

  lemma {:induction false} BehindNote(note: Phdr, t: seq<Phdr>, nr: nat, j: nat)
    requires nr <= j < |t|
    ensures ([note] + t[nr..])[j - nr + 1] == t[j]
  {
  }

  /**
   * End to end for the original headers: if the PT_NOTE headers lead, every original PT_LOAD
   * header is exported with only p_offset changed, and the file holds its old memory there.
   */
  lemma {:induction false} EveryLoad(m: OldMem, h: seq<byte>, n: nat, headers: seq<byte>, notes: seq<byte>,
                                     list: seq<Chunk>, j: nat)
    requires Built(m, h, n, headers, notes, list) && NotesLead(Table(h, n))
    requires j < n && Table(h, n)[j].ptype == PT_LOAD
    ensures var nr := NoteCount(Table(h, n), n);
      nr <= j && LoadAt(m, Image(m, headers, notes, list), Table(h, n)[j], j - nr + 1)
  {
    TrimKeepsKinds(m, Table(h, n), n);
    KeptAt(m, h, n, j);
    LoadEndToEnd(m, h, n, headers, notes, list, j - NoteCount(Table(h, n), n) + 1);
  }

  // ---------- parse_crash_elf64_headers ----------

  const ET_CORE: nat := 4
  const EINVAL: int := 22

  /** The basic verification of the ELF header. */
  predicate Sane(e: seq<byte>)
    requires |e| == EHDR
  {
    && e[..4] == [0x7f as byte, 0x45, 0x4c, 0x46]
    && FromLE(e[16..18]) == ET_CORE
    && e[4] == 2 && e[6] == 1 && FromLE(e[20..24]) == 1
    && FromLE(e[52..54]) == EHDR && FromLE(e[54..56]) == PHDR
    && GetPhnum(e) != 0
  }

  /** What makes an ELF header sane, byte by byte. */
  lemma {:induction false} SaneIs(e: seq<byte>)
    requires |e| == EHDR
    ensures Sane(e) <==>
      && e[0] == 0x7f && e[1] == 0x45 && e[2] == 0x4c && e[3] == 0x46 && e[4] == 2 && e[6] == 1
      && e[16] == 4 && e[17] == 0
      && e[20] == 1 && e[21] == 0 && e[22] == 0 && e[23] == 0
      && e[52] == 64 && e[53] == 0 && e[54] == 56 && e[55] == 0
      && (e[56] != 0 || e[57] != 0)
  {
    FromLEIs(e[16..18]);
    FromLEIs(e[20..24]);
    FromLEIs(e[52..54]);
    FromLEIs(e[54..56]);
    FromLEIs(e[PHNUM..PHNUM + 2]);
    assert e[..4] == [e[0], e[1], e[2], e[3]];
  }

  /** The headers the first kernel left at addr. */
  function Original(m: OldMem, addr: nat): seq<byte> {
    OldBytes(m, addr, At(GetPhnum(OldBytes(m, addr, EHDR))))
  }

  // What the code relies on: a PT_NOTE header, notes that end inside their segments, and
  // sizes that stay within 64 bits.
  ghost predicate Usable(m: OldMem, addr: nat) {
    var n, h := GetPhnum(OldBytes(m, addr, EHDR)), Original(m, addr);
    && WellFormed(m, Table(h, n))
    && 1 <= NoteCount(Trimmed(m, h, n), n) <= n
    && Within64(m, h, n)
  }

  lemma {:induction false} OriginalStart(m: OldMem, addr: nat)
    ensures |Original(m, addr)| >= EHDR && Original(m, addr)[..EHDR] == OldBytes(m, addr, EHDR)
    ensures GetPhnum(Original(m, addr)) == GetPhnum(OldBytes(m, addr, EHDR)) < U16
  {
    var e := OldBytes(m, addr, EHDR);
    var n := GetPhnum(e);
    OldBytesSplit(m, addr, At(n), EHDR);
    SliceLeft(e, OldBytes(m, addr + EHDR, At(n) - EHDR), PHNUM, PHNUM + 2);
    Widths();
    LEBound(e[PHNUM..PHNUM + 2]);
  }

  /** The header buffer after reading: the original headers and zeros up to the page end. */
  lemma {:induction false} BufferTable(h: seq<byte>, n: nat, len: nat)
    requires |h| == At(n) <= len
    ensures Table(h + Zeros(len - At(n)), n) == Table(h, n)
  {
    var b := h + Zeros(len - At(n));
    forall j: nat | j < n ensures GetPhdr(b, j) == GetPhdr(h, j) {
      assert At(j + 1) <= At(n);
      SliceLeft(h, Zeros(len - At(n)), At(j), At(j + 1));
    }
  }

  // The steps of the code, as relations between the buffer's successive contents.

  /** From the original headers h over b1 (sizes trimmed) to b2 (notes merged). */
  ghost predicate MergeStep(h: seq<byte>, n: nat, nr: nat, sz: nat, b1: seq<byte>, b2: seq<byte>) {
    && |h| == At(n) && OnlyTable(h + Zeros(RoundUp(At(n)) - At(n)), b1, n)
    && 1 <= nr <= n && b2 == VmcoreMerge.MergedBytes(b1, n, nr, sz)
  }

  /** b holds table mt behind the ELF header of h with a new e_phnum, and zeros after it. */
  ghost predicate Rewritten(h: seq<byte>, n: nat, mt: seq<Phdr>, b: seq<byte>) {
    && EHDR <= |h| && |mt| <= n && At(|mt|) <= At(n) && |b| == RoundUp(At(n))
    && b[..PHNUM] == h[..PHNUM] && b[PHNUM + 2..EHDR] == h[PHNUM + 2..EHDR]
    && GetPhnum(b) == |mt| && Table(b, |mt|) == mt
    && b[At(|mt|)..] == Zeros(|b| - At(|mt|))
  }

  /** From b2 with merged table mt to b3 and the list. */
  ghost predicate Loaded(mt: seq<Phdr>, off: nat, b2: seq<byte>, b3: seq<byte>, list: seq<Chunk>) {
    && OnlyTable(b2, b3, |mt|) && Table(b3, |mt|) == Relocate(mt, off)
    && list == WithOffsets(Loads(mt, |mt|), off)
  }

  lemma {:induction false} MergedHeader(h: seq<byte>, n: nat, nr: nat, sz: nat, b1: seq<byte>, b2: seq<byte>)
    requires MergeStep(h, n, nr, sz, b1, b2)
    ensures b2[..PHNUM] == h[..PHNUM] && b2[PHNUM + 2..EHDR] == h[PHNUM + 2..EHDR]
  {
    VmcoreMerge.MergedParts(b1, n, nr, sz);
    var head := VmcoreMerge.MergedHead(b1, n - nr + 1);
    SameEhdr(b1, h + Zeros(RoundUp(At(n)) - At(n)));
    assert b2[..PHNUM] == head[..PHNUM] && b2[PHNUM + 2..EHDR] == head[PHNUM + 2..EHDR];
  }

  lemma {:induction false} MergedPadding(h: seq<byte>, n: nat, nr: nat, sz: nat, b1: seq<byte>, b2: seq<byte>)
    requires MergeStep(h, n, nr, sz, b1, b2)
    ensures At(n - nr + 1) <= |b2| == RoundUp(At(n)) && b2[At(n - nr + 1)..] == Zeros(|b2| - At(n - nr + 1))
  {
    VmcoreMerge.MergedParts(b1, n, nr, sz);
    assert b1[At(n)..] == Zeros(RoundUp(At(n)) - At(n));
    assert b2[At(n - nr + 1)..] == Zeros((nr - 1) * PHDR) + Zeros(RoundUp(At(n)) - At(n));
  }

  lemma {:induction false} MergeRewrites(h: seq<byte>, n: nat, nr: nat, sz: nat, b1: seq<byte>, b2: seq<byte>)
    requires MergeStep(h, n, nr, sz, b1, b2) && n < U16 && sz < U64
    ensures Rewritten(h, n, [MergedNote(n - nr + 1, sz)] + Table(b1, n)[nr..], b2)
  {
    VmcoreMerge.MergedTable(b1, n, nr, sz);
    MergedHeader(h, n, nr, sz, b1, b2);
    MergedPadding(h, n, nr, sz, b1, b2);
  }

  lemma {:induction false} HeadersTable(b: seq<byte>, headers: seq<byte>, k: nat)
    requires At(k) <= |headers| <= |b| && headers == b[..|headers|]
    ensures Table(headers, k) == Table(b, k) && GetPhnum(headers) == GetPhnum(b)
  {
    forall j: nat | j < k ensures GetPhdr(headers, j) == GetPhdr(b, j) {
      assert At(j + 1) <= At(k);
      TakeSlice(b, |headers|, At(j), At(j + 1));
    }
    TakeSlice(b, |headers|, PHNUM, PHNUM + 2);
  }

  lemma {:induction false} StepsBuild(h: seq<byte>, n: nat, mt: seq<Phdr>, x: seq<byte>, b2: seq<byte>, b3: seq<byte>,
                                      notes: seq<byte>, list: seq<Chunk>, off: nat)
    requires Rewritten(h, n, mt, b2) && notes == Padded(x) && off == RoundUp(At(|mt|)) + RoundUp(|x|)
    requires Loaded(mt, off, b2, b3, list)
    ensures RoundUp(At(|mt|)) <= |b3| && Parts(h, mt, x, b3[..RoundUp(At(|mt|))], notes, list)
  {
    RoundUpMonotone(At(|mt|), At(n));
    var headers := b3[..RoundUp(At(|mt|))];
    HeadersTable(b3, headers, |mt|);
    TakeSlice(b3, |headers|, 0, EHDR);
    assert headers[..EHDR] == headers[0..EHDR] == b3[..EHDR];
    SameEhdr(headers, b2);
    ZeroTail(b3, At(|mt|), |headers|);
  }

  lemma {:induction false} ZeroTail(b: seq<byte>, i: nat, j: nat)
    requires i <= j <= |b| && b[i..] == Zeros(|b| - i)
    ensures b[..j][i..] == Zeros(j - i)
  {
    assert b[..j][i..] == b[i..][..j - i];
  }

  /** Two buffers with the same ELF header. */
  lemma {:induction false} SameEhdr(a: seq<byte>, b: seq<byte>)
    requires EHDR <= |a| && EHDR <= |b| && a[..EHDR] == b[..EHDR]
    ensures a[..PHNUM] == b[..PHNUM] && a[PHNUM + 2..EHDR] == b[PHNUM + 2..EHDR] && GetPhnum(a) == GetPhnum(b)
  {
    TakeSlice(a, EHDR, 0, PHNUM);
    TakeSlice(b, EHDR, 0, PHNUM);
    TakeSlice(a, EHDR, PHNUM + 2, EHDR);
    TakeSlice(b, EHDR, PHNUM + 2, EHDR);
    TakeSlice(a, EHDR, PHNUM, PHNUM + 2);
    TakeSlice(b, EHDR, PHNUM, PHNUM + 2);
    assert a[..PHNUM] == a[0..PHNUM] && b[..PHNUM] == b[0..PHNUM];
  }

  /** The notes part: a zeroed buffer of whole pages with the segments copied in. */
  method CopyAllNotes(m: OldMem, buf: array<byte>, n: nat, sz: nat, ghost t: seq<Phdr>)
    returns (rc: int, notes: array<byte>)
    requires At(n) <= buf.Length && t == Table(buf[..], n) && sz == NoteBytes(t, n)
    ensures fresh(notes) && notes.Length == RoundUp(sz)
    ensures rc >= 0 <==> NotesReadable(m, t)
    ensures rc >= 0 ==> notes[..] == Padded(Concat(m, t, n))
  {
    notes := new byte[RoundUp(sz)](_ => 0);
    ghost var was := notes[..];
    rc := CopyNotes(m, buf, n, notes);
    if rc >= 0 {
      assert Splice(was, 0, Concat(m, t, n)) == Padded(Concat(m, t, n));
    }
  }

  // The sizes of the file stay within 64 bits.
  ghost predicate Within64(m: OldMem, h: seq<byte>, n: nat)
    requires At(n) <= |h| && 1 <= NoteCount(Trimmed(m, h, n), n) <= n
  {
    var x, mt := Concat(m, Trimmed(m, h, n), n), MergedHeaders(m, h, n);
    RoundUp(At(n)) + RoundUp(|x|) + LoadSize(mt, |mt|) + PAGE_SIZE <= U64
  }

  lemma {:induction false} TrimReadable(m: OldMem, t: seq<Phdr>)
    requires NotesReadable(m, t)
    ensures NotesReadable(m, TrimAll(m, t))
  {
    var u := TrimAll(m, t);
    forall p | p in u && p.ptype == PT_NOTE ensures Readable(m, p.offset, p.memsz) {
      var i :| 0 <= i < |u| && u[i] == p;
      assert t[i] in t && u[i] == Trim(m, t[i]);
    }
  }

  /** The merged table mt for trimmed table t, with notes x. */
  ghost predicate IsMerged(n: nat, nr: nat, t: seq<Phdr>, x: seq<byte>, mt: seq<Phdr>) {
    && 1 <= nr <= n < U16 && |t| == n && |x| < U64 && mt == [MergedNote(n - nr + 1, |x|)] + t[nr..]
    && RoundUp(At(n)) + RoundUp(|x|) + LoadSize(mt, |mt|) + PAGE_SIZE <= U64
  }

  /** merge_note_headers_elf64, on a buffer that holds the original headers. */
  method MergeNoteHeaders(m: OldMem, buf: array<byte>, n: nat, ghost h: seq<byte>,
                          ghost t: seq<Phdr>, ghost mt: seq<Phdr>)
    returns (rc: int, nr: nat, notes: array<byte>)
    requires |h| == At(n) && buf[..] == h + Zeros(RoundUp(At(n)) - At(n))
    requires WellFormed(m, Table(h, n)) && t == TrimAll(m, Table(h, n))
    requires IsMerged(n, NoteCount(t, n), t, Concat(m, t, n), mt)
    modifies buf
    ensures fresh(notes)
    ensures rc >= 0 <==> NotesReadable(m, Table(h, n))
    ensures rc >= 0 ==> nr == NoteCount(t, n) && Rewritten(h, n, mt, buf[..]) && notes[..] == Padded(Concat(m, t, n))
  {
    BufferTable(h, n, RoundUp(At(n)));
    notes := new byte[0];
    nr := 0;
    rc := UpdateNoteHeaderSize(m, buf, n);
    if rc < 0 { return; }
    ghost var b1 := buf[..];
    var sz;
    nr, sz := GetNoteNumberAndSize(buf, n);
    rc, notes := CopyAllNotes(m, buf, n, sz, Table(b1, n));
    TrimReadable(m, Table(h, n));
    VmcoreMerge.MergeHeaders(buf, n, nr, sz);
    MergeRewrites(h, n, nr, sz, b1, buf[..]);
  }

  /** The PT_LOAD part of the rewriting, with the notes behind the k headers. */
  method Relocation(buf: array<byte>, k: nat, notesSz: nat, ghost b2: seq<byte>, ghost mt: seq<Phdr>,
                    ghost off: nat)
    returns (elfsz: nat, list: seq<Chunk>)
    requires buf[..] == b2 && At(k) <= |b2| && k == |mt| && Table(b2, k) == mt
    requires off == RoundUp(At(k)) + notesSz && off + LoadSize(mt, k) + PAGE_SIZE <= U64
    modifies buf
    ensures elfsz == RoundUp(At(k)) && Loaded(mt, off, b2, buf[..], list)
  {
    elfsz := RoundUp(At(k));
    list := ProcessPtLoad(buf, k, elfsz, notesSz, off);
    list := SetListOffsets(list, elfsz, notesSz, off);
  }

  lemma {:induction false} RelocationFits(h: seq<byte>, n: nat, mt: seq<Phdr>, b2: seq<byte>, k: nat, elfsz: nat)
    requires Rewritten(h, n, mt, b2) && k == |mt| && elfsz == RoundUp(At(k))
    ensures At(k) <= elfsz <= RoundUp(At(n)) == |b2| && Table(b2, k) == mt
  {
    RoundUpMonotone(At(k), At(n));
  }

  lemma {:induction false} RelocationDone(h: seq<byte>, n: nat, mt: seq<Phdr>, x: seq<byte>, b2: seq<byte>,
                                          b3: seq<byte>, list: seq<Chunk>, k: nat, elfsz: nat, off: nat)
    requires Rewritten(h, n, mt, b2) && k == |mt| && elfsz == RoundUp(At(k)) && off == elfsz + RoundUp(|x|)
    requires Loaded(mt, off, b2, b3, list)
    ensures elfsz <= |b3| && Parts(h, mt, x, b3[..elfsz], Padded(x), list)
  {
    StepsBuild(h, n, mt, x, b2, b3, Padded(x), list, off);
  }

  /** The header rewriting as a whole: t is the trimmed table and mt the merged one. */
  method RewriteHeaders(m: OldMem, buf: array<byte>, n: nat, ghost h: seq<byte>, ghost t: seq<Phdr>,
                        ghost mt: seq<Phdr>)
    returns (rc: int, elfsz: nat, notes: array<byte>, list: seq<Chunk>)
    requires |h| == At(n) && n < U16 && buf[..] == h + Zeros(RoundUp(At(n)) - At(n))
    requires WellFormed(m, Table(h, n)) && t == TrimAll(m, Table(h, n))
    requires IsMerged(n, NoteCount(t, n), t, Concat(m, t, n), mt)
    modifies buf
    ensures fresh(notes)
    ensures rc >= 0 <==> NotesReadable(m, Table(h, n))
    ensures rc >= 0 ==> elfsz <= buf.Length && notes[..] == Padded(Concat(m, t, n))
    ensures rc >= 0 ==> Parts(h, mt, Concat(m, t, n), buf[..][..elfsz], Padded(Concat(m, t, n)), list)
  {
    var nr;
    elfsz, list := 0, [];
    rc, nr, notes := MergeNoteHeaders(m, buf, n, h, t, mt);
    if rc < 0 { return; }
    ghost var x := Concat(m, t, n);
    assert notes[..] == Padded(x);
    ghost var b2 := buf[..];
    assert notes.Length == RoundUp(|x|);
    ghost var off := RoundUp(At(n - nr + 1)) + notes.Length;
    RelocationFits(h, n, mt, b2, n - nr + 1, RoundUp(At(n - nr + 1)));
    elfsz, list := Relocation(buf, n - nr + 1, notes.Length, b2, mt, off);
    RelocationDone(h, n, mt, x, b2, buf[..], list, n - nr + 1, elfsz, off);
    assert notes[..] == Padded(x);
  }

  lemma {:induction false} HeaderBuffer(m: OldMem, addr: nat, was: seq<byte>, now: seq<byte>)
    requires was == Zeros(RoundUp(|Original(m, addr)|)) && Moved(m, was, now, 0, addr, |Original(m, addr)|)
    ensures now == Original(m, addr) + Zeros(RoundUp(|Original(m, addr)|) - |Original(m, addr)|)
  {
  }

  /** The ELF header, read and verified. */
  method ReadEhdr(m: OldMem, addr: nat) returns (rc: int, n: nat)
    ensures rc >= 0 <==> Readable(m, addr, EHDR) && Sane(OldBytes(m, addr, EHDR))
    ensures rc >= 0 ==> n == GetPhnum(OldBytes(m, addr, EHDR))
  {
    var ehdr := new byte[EHDR](_ => 0);
    var pos;
    n := 0;
    rc, pos := ReadFromOldmem(m, ehdr, 0, EHDR, addr);
    if rc < 0 { return; }
    assert ehdr[..] == OldBytes(m, addr, EHDR);
    if !Sane(ehdr[..]) { return -EINVAL, 0; }
    n := GetPhnum(ehdr[..]);
  }

  /** The ELF headers can be read and verified. */
  ghost predicate HeadersOk(m: OldMem, addr: nat) {
    && Readable(m, addr, EHDR) && Sane(OldBytes(m, addr, EHDR))
    && Readable(m, addr, |Original(m, addr)|)
  }

  /** The ELF header and the program headers, in a zeroed buffer of whole pages. */
  method ReadHeaders(m: OldMem, addr: nat) returns (rc: int, n: nat, buf: array<byte>)
    ensures fresh(buf)
    ensures rc >= 0 <==> HeadersOk(m, addr)
    ensures rc >= 0 ==> n == GetPhnum(OldBytes(m, addr, EHDR)) < U16 && |Original(m, addr)| == At(n)
    ensures rc >= 0 ==> buf[..] == Original(m, addr) + Zeros(RoundUp(|Original(m, addr)|) - |Original(m, addr)|)
  {
    var pos;
    buf := new byte[0];
    rc, n := ReadEhdr(m, addr);
    if rc < 0 { return; }
    OriginalStart(m, addr);
    buf := new byte[RoundUp(At(n))](_ => 0);
    ghost var was := buf[..];
    rc, pos := ReadFromOldmem(m, buf, 0, At(n), addr);
    if rc < 0 { return; }
    assert was == Zeros(RoundUp(At(n)));
    HeaderBuffer(m, addr, was, buf[..]);
  }

  /** The size computation, and the device over the finished parts. */
  method MakeDevice(m: OldMem, buf: array<byte>, elfsz: nat, notes: array<byte>, list: seq<Chunk>,
                    ghost h: seq<byte>, ghost mt: seq<Phdr>, ghost x: seq<byte>)
    returns (vm: VmcoreDevice.Vmcore)
    requires elfsz <= buf.Length && Parts(h, mt, x, buf[..][..elfsz], notes[..], list)
    ensures vm.Valid() && vm.mem == m && vm.elfcorebuf == buf && vm.elfnotesBuf == notes
    ensures Parts(h, mt, x, vm.elfcorebuf[..vm.elfcorebufSz], vm.elfnotesBuf[..vm.elfnotesSz], vm.list)
  {
    PartsOffsets(h, mt, x, buf[..][..elfsz], notes[..], list);
    assert |buf[..][..elfsz]| == elfsz;
    var size := GetVmcoreSize(elfsz, notes.Length, list);
    vm := new VmcoreDevice.Vmcore(m, buf, elfsz, notes, notes.Length, list, size);
    assert buf[..elfsz] == buf[..][..elfsz] && notes[..notes.Length] == notes[..];
  }

  ghost predicate Exported(m: OldMem, addr: nat, vm: VmcoreDevice.Vmcore)
    requires vm.Valid()
    reads vm.elfcorebuf, vm.elfnotesBuf
  {
    vm.mem == m
    && Built(m, Original(m, addr), GetPhnum(OldBytes(m, addr, EHDR)),
             vm.elfcorebuf[..vm.elfcorebufSz], vm.elfnotesBuf[..vm.elfnotesSz], vm.list)
  }

  /**
   * parse_crash_elf64_headers and the size computation: the file exists exactly when the ELF
   * header is sane and the headers and notes can be read, and it consists of the built parts.
   */
  method ParseCrashElf64Headers(m: OldMem, addr: nat) returns (rc: int, vm: VmcoreDevice.Vmcore?)
    requires Sane(OldBytes(m, addr, EHDR)) ==> Usable(m, addr)
    ensures rc == 0 <==> vm != null
    ensures rc == 0 <==> HeadersOk(m, addr)
                         && NotesReadable(m, Table(Original(m, addr), GetPhnum(OldBytes(m, addr, EHDR))))
    ensures vm != null ==> vm.Valid() && Exported(m, addr, vm)
  {
    vm := null;
    var n, buf, elfsz, notes, list;
    rc, n, buf := ReadHeaders(m, addr);
    if rc < 0 { return; }
    ghost var h := Original(m, addr);
    rc, elfsz, notes, list := RewriteHeaders(m, buf, n, h, Trimmed(m, h, n), MergedHeaders(m, h, n));
    if rc < 0 { return; }
    vm := MakeDevice(m, buf, elfsz, notes, list, h, MergedHeaders(m, h, n), Concat(m, Trimmed(m, h, n), n));
    rc := 0;
  }
}
