/**
 * Rewriting the header buffer in place: the loops of update_note_header_size_elf64,
 * get_note_number_and_size_elf64 and copy_notes_elf64.
 */
module VmcoreHeaders {
  import opened Wrappers
  import opened Oldmem
  import Seqs
  import opened Elf
  import ElfNotes
  import opened VmcoreNotes

  // A rewrite of program headers leaves the ELF header and what follows the table alone.
  ghost predicate OnlyTable(was: seq<byte>, now: seq<byte>, n: nat) {
    At(n) <= |was| && |now| == |was| && now[..EHDR] == was[..EHDR] && now[At(n)..] == was[At(n)..]
  }

  /** Exactly the given field of program header i has changed. */
  ghost predicate FieldSet(was: seq<byte>, now: seq<byte>, n: nat, i: nat, field: nat, v: nat) {
    && OnlyTable(was, now, n) && i < n
    && var t := Table(was, n);
       Table(now, n) == t[i := if field == 8 then t[i].(offset := v) else t[i].(memsz := v)]
  }

  lemma {:induction false} FieldSplice(was: seq<byte>, n: nat, i: nat, field: nat, v: nat)
    requires At(n) <= |was| && i < n && v < U64 && (field == 8 || field == 40)
    ensures At(i) + field + 8 <= |was| && At(i + 1) <= At(n)
    ensures FieldSet(was, Splice(was, At(i) + field, ToLE(v, 8)), n, i, field, v)
  {
    assert At(i + 1) <= At(n);
    TableSet(was, n, i, field, ToLE(v, 8));
    DecodeSplice(was[At(i)..At(i + 1)], v);
    var now := Splice(was, At(i) + field, ToLE(v, 8));
    SpliceSlice(was, At(i) + field, ToLE(v, 8), 0, EHDR);
    SpliceSlice(was, At(i) + field, ToLE(v, 8), At(n), |was|);
    assert now[..EHDR] == now[0..EHDR] && was[..EHDR] == was[0..EHDR];
    assert now[At(n)..] == now[At(n)..|was|] && was[At(n)..] == was[At(n)..|was|];
  }

  /** Stores a 64-bit field of program header i: p_offset at 8, p_memsz at 40. */
  method SetField(buf: array<byte>, n: nat, i: nat, field: nat, v: nat)
    requires At(n) <= buf.Length && i < n && v < U64 && (field == 8 || field == 40)
    modifies buf
    ensures FieldSet(old(buf[..]), buf[..], n, i, field, v)
  {
    FieldSplice(buf[..], n, i, field, v);
    CopyTo(buf, At(i) + field, ToLE(v, 8));
  }

  method ReadPhdr(buf: array<byte>, n: nat, i: nat, ghost b: seq<byte>) returns (p: Phdr)
    requires At(n) <= buf.Length && i < n && buf[..] == b
    ensures p == Table(b, n)[i] && Fits(p)
  {
    assert At(i + 1) <= At(n);
    assert buf[At(i)..At(i + 1)] == b[At(i)..At(i + 1)];
    p := Decode(buf[At(i)..At(i + 1)]);
    DecodeFits(buf[At(i)..At(i + 1)]);
  }

  // ---------- real sizes ----------

  // The assumption on the first kernel: notes end inside their segment.
  ghost predicate WellFormed(m: OldMem, t: seq<Phdr>) {
    forall i :: 0 <= i < |t| && t[i].ptype == PT_NOTE && Readable(m, t[i].offset, t[i].memsz)
      ==> ElfNotes.Walk(Segment(m, t[i]), 0).Some?
  }

  lemma {:induction false} BadNote(m: OldMem, t: seq<Phdr>, i: nat)
    requires i < |t| && t[i].ptype == PT_NOTE && !Readable(m, t[i].offset, t[i].memsz)
    ensures !NotesReadable(m, t)
  {
    assert t[i] in t;
  }

  lemma {:induction false} GoodNotes(m: OldMem, t: seq<Phdr>)
    requires forall k :: 0 <= k < |t| && t[k].ptype == PT_NOTE ==> Readable(m, t[k].offset, t[k].memsz)
    ensures NotesReadable(m, t)
  {
    forall p | p in t && p.ptype == PT_NOTE ensures Readable(m, p.offset, p.memsz) {
      var k :| 0 <= k < |t| && t[k] == p;
    }
  }

  /** The first i headers have their real sizes. */
  ghost predicate TrimmedTo(m: OldMem, was: seq<byte>, now: seq<byte>, n: nat, i: nat) {
    && i <= n && OnlyTable(was, now, n)
    && Table(now, n) == TrimAll(m, Table(was, n))[..i] + Table(was, n)[i..]
    && forall k :: 0 <= k < i && Table(was, n)[k].ptype == PT_NOTE
         ==> Readable(m, Table(was, n)[k].offset, Table(was, n)[k].memsz)
  }

  /** The notes of one segment, read into a buffer of their own and measured. */
  method MeasureNotes(m: OldMem, p: Phdr) returns (rc: int, realSz: nat)
    requires Readable(m, p.offset, p.memsz) ==> ElfNotes.Walk(Segment(m, p), 0).Some?
    ensures rc >= 0 <==> Readable(m, p.offset, p.memsz)
    ensures rc >= 0 ==> ElfNotes.Walk(Segment(m, p), 0) == Some(realSz)
  {
    var section := new byte[p.memsz];
    ghost var was := section[..];
    var ret, pos := ReadFromOldmem(m, section, 0, p.memsz, p.offset);
    if ret < 0 { return ret, 0; }
    assert section[..] == OldBytes(m, p.offset, p.memsz);
    realSz := ElfNotes.RealSize(section);
    rc := 0;
  }

  lemma {:induction false} TrimNext(m: OldMem, was: seq<byte>, before: seq<byte>, now: seq<byte>, n: nat, i: nat)
    requires i < n && TrimmedTo(m, was, before, n, i) && OnlyTable(before, now, n)
    requires var p := Table(was, n)[i]; p.ptype == PT_NOTE ==> Readable(m, p.offset, p.memsz)
    requires Table(now, n) == Table(before, n)[i := Trim(m, Table(was, n)[i])]
    ensures TrimmedTo(m, was, now, n, i + 1)
  {
    Seqs.PrefixNext(Table(was, n), TrimAll(m, Table(was, n)), i);
  }

  /** The turn of update_note_header_size_elf64 for header i. */
  method TrimHeader(m: OldMem, buf: array<byte>, n: nat, i: nat, ghost was: seq<byte>) returns (rc: int)
    requires buf.Length == |was| && i < n && TrimmedTo(m, was, buf[..], n, i) && WellFormed(m, Table(was, n))
    modifies buf
    ensures rc >= 0 ==> TrimmedTo(m, was, buf[..], n, i + 1)
    ensures rc < 0 ==> !NotesReadable(m, Table(was, n))
  {
    ghost var before := buf[..];
    var p := ReadPhdr(buf, n, i, before);
    assert p == Table(was, n)[i];
    if p.ptype != PT_NOTE {
      assert Table(before, n)[i := p] == Table(before, n);
      TrimNext(m, was, before, before, n, i);
      return 0;
    }
    var realSz;
    rc, realSz := MeasureNotes(m, p);
    if rc < 0 {
      BadNote(m, Table(was, n), i);
      return;
    }
    SetField(buf, n, i, 40, realSz);
    TrimNext(m, was, before, buf[..], n, i);
  }

  /** update_note_header_size_elf64. */
  method UpdateNoteHeaderSize(m: OldMem, buf: array<byte>, n: nat) returns (rc: int)
    requires At(n) <= buf.Length && WellFormed(m, Table(buf[..], n))
    modifies buf
    ensures rc >= 0 <==> NotesReadable(m, Table(old(buf[..]), n))
    ensures rc >= 0 ==> OnlyTable(old(buf[..]), buf[..], n)
                        && Table(buf[..], n) == TrimAll(m, Table(old(buf[..]), n))
  {
    ghost var was := buf[..];
    var i := 0;
    while i < n
      invariant i <= n && TrimmedTo(m, was, buf[..], n, i)
    {
      rc := TrimHeader(m, buf, n, i, was);
      if rc < 0 { return; }
      i := i + 1;
    }
    GoodNotes(m, Table(was, n));
    rc := 0;
  }

  // ---------- count and copy ----------

  /** get_note_number_and_size_elf64. */
  method GetNoteNumberAndSize(buf: array<byte>, n: nat) returns (nr: nat, sz: nat)
    requires At(n) <= buf.Length
    ensures nr == NoteCount(Table(buf[..], n), n) && sz == NoteBytes(Table(buf[..], n), n)
  {
    ghost var b := buf[..];
    ghost var t := Table(b, n);
    var i := 0;
    nr, sz := 0, 0;
    while i < n
      invariant i <= n
      invariant nr == NoteCount(t, i) && sz == NoteBytes(t, i)
    {
      nr, sz := CountHeader(buf, n, i, nr, sz, b, t);
      i := i + 1;
    }
  }

  /** The turn of get_note_number_and_size_elf64 for header i. */
  method CountHeader(buf: array<byte>, n: nat, i: nat, nr0: nat, sz0: nat, ghost b: seq<byte>, ghost t: seq<Phdr>)
    returns (nr: nat, sz: nat)
    requires At(n) <= buf.Length && i < n && buf[..] == b && t == Table(b, n)
    requires nr0 == NoteCount(t, i) && sz0 == NoteBytes(t, i)
    ensures nr == NoteCount(t, i + 1) && sz == NoteBytes(t, i + 1)
  {
    var p := ReadPhdr(buf, n, i, b);
    return if p.ptype == PT_NOTE then nr0 + 1 else nr0, if p.ptype == PT_NOTE then sz0 + p.memsz else sz0;
  }

  lemma {:induction false} NoteBytesMonotone(t: seq<Phdr>, i: nat, n: nat)
    requires i <= n <= |t|
    ensures NoteBytes(t, i) <= NoteBytes(t, n)
  {
    if i < n { NoteBytesMonotone(t, i, n - 1); }
  }

  /** The first i segments have been copied to the front of the notes buffer. */
  ghost predicate CopiedTo(m: OldMem, t: seq<Phdr>, was: seq<byte>, now: seq<byte>, i: nat, at: nat) {
    && i <= |t| && at == NoteBytes(t, i) <= NoteBytes(t, |t|) <= |was|
    && now == Splice(was, 0, Concat(m, t, i))
    && forall k :: 0 <= k < i && t[k].ptype == PT_NOTE ==> Readable(m, t[k].offset, t[k].memsz)
  }

  lemma {:induction false} SpliceMore(b: seq<byte>, x: seq<byte>, y: seq<byte>)
    requires |x| + |y| <= |b|
    ensures Splice(Splice(b, 0, x), |x|, y) == Splice(b, 0, x + y)
  {
  }

  lemma {:induction false} CopyNext(m: OldMem, t: seq<Phdr>, was: seq<byte>, before: seq<byte>, now: seq<byte>,
                                    i: nat, at: nat)
    requires CopiedTo(m, t, was, before, i, at) && i < |t|
    requires if t[i].ptype == PT_NOTE
             then at + t[i].memsz <= |before| && Moved(m, before, now, at, t[i].offset, t[i].memsz)
             else now == before
    ensures CopiedTo(m, t, was, now, i + 1, NoteBytes(t, i + 1))
  {
    NoteBytesMonotone(t, i + 1, |t|);
    if t[i].ptype == PT_NOTE { SpliceMore(was, Concat(m, t, i), Segment(m, t[i])); }
  }

  lemma {:induction false} CopyStart(m: OldMem, t: seq<Phdr>, was: seq<byte>)
    requires NoteBytes(t, |t|) <= |was|
    ensures CopiedTo(m, t, was, was, 0, 0)
  {
    NoteBytesMonotone(t, 0, |t|);
    assert was == Splice(was, 0, []);
  }

  lemma {:induction false} CopyEnd(m: OldMem, t: seq<Phdr>, was: seq<byte>, now: seq<byte>, at: nat)
    requires CopiedTo(m, t, was, now, |t|, at)
    ensures NotesReadable(m, t) && now == Splice(was, 0, Concat(m, t, |t|))
  {
    GoodNotes(m, t);
  }

  /** The turn of copy_notes_elf64 for header i. */
  method CopySegment(m: OldMem, buf: array<byte>, n: nat, notes: array<byte>, i: nat, at0: nat,
                     ghost b: seq<byte>, ghost t: seq<Phdr>, ghost was: seq<byte>)
    returns (rc: int, at: nat)
    requires At(n) <= buf.Length && buf != notes && i < n && buf[..] == b && t == Table(b, n)
    requires CopiedTo(m, t, was, notes[..], i, at0) && |was| == notes.Length
    modifies notes
    ensures rc >= 0 ==> CopiedTo(m, t, was, notes[..], i + 1, at)
    ensures rc < 0 ==> !NotesReadable(m, t)
  {
    var p := ReadPhdr(buf, n, i, b);
    ghost var before := notes[..];
    NoteBytesMonotone(t, i + 1, n);
    at := at0;
    if p.ptype == PT_NOTE {
      var ret, pos := ReadFromOldmem(m, notes, at, p.memsz, p.offset);
      if ret < 0 {
        BadNote(m, t, i);
        return ret, at;
      }
      at := at + p.memsz;
    }
    CopyNext(m, t, was, before, notes[..], i, at0);
    rc := 0;
  }

  /** copy_notes_elf64: the segments one after the other at the front of the buffer. */
  method CopyNotes(m: OldMem, buf: array<byte>, n: nat, notes: array<byte>) returns (rc: int)
    requires At(n) <= buf.Length && buf != notes
    requires NoteBytes(Table(buf[..], n), n) <= notes.Length
    modifies notes
    ensures rc >= 0 <==> NotesReadable(m, Table(buf[..], n))
    ensures rc >= 0 ==> notes[..] == Splice(old(notes[..]), 0, Concat(m, Table(buf[..], n), n))
  {
    rc := CopySegments(m, buf, n, notes, buf[..], Table(buf[..], n), notes[..]);
  }

  method CopySegments(m: OldMem, buf: array<byte>, n: nat, notes: array<byte>,
                      ghost b: seq<byte>, ghost t: seq<Phdr>, ghost was: seq<byte>)
    returns (rc: int)
    requires At(n) <= buf.Length && buf != notes && buf[..] == b && t == Table(b, n)
    requires notes[..] == was && NoteBytes(t, n) <= notes.Length
    modifies notes
    ensures rc >= 0 <==> NotesReadable(m, t)
    ensures rc >= 0 ==> notes[..] == Splice(was, 0, Concat(m, t, n))
  {
    var i: nat, at: nat := 0, 0;
    CopyStart(m, t, was);
    while i < n
      invariant i <= n && CopiedTo(m, t, was, notes[..], i, at)
      invariant buf[..] == b
    {
      rc, at := CopySegment(m, buf, n, notes, i, at, b, t, was);
      if rc < 0 { return; }
      i := i + 1;
    }
    CopyEnd(m, t, was, notes[..], at);
    rc := 0;
  }
}
