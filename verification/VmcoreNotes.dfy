/**
 * Merging the PT_NOTE headers: update_note_header_size_elf64, get_note_number_and_size_elf64,
 * copy_notes_elf64 and merge_note_headers_elf64.
 */
module VmcoreNotes {
  import opened Wrappers
  import opened Oldmem
  import Seqs
  import opened Elf
  import opened ElfNotes

  // ---------- specification ----------

  function Segment(m: OldMem, p: Phdr): seq<byte> {
    OldBytes(m, p.offset, p.memsz)
  }

  // The notes of every readable PT_NOTE segment end inside it.
  ghost predicate Terminated(m: OldMem, t: seq<Phdr>) {
    forall p :: p in t && p.ptype == PT_NOTE ==> Walk(Segment(m, p), 0).Some?
  }

  ghost predicate NotesReadable(m: OldMem, t: seq<Phdr>) {
    forall p :: p in t && p.ptype == PT_NOTE ==> Readable(m, p.offset, p.memsz)
  }

  /** A header with the real size of its notes. */
  function Trim(m: OldMem, p: Phdr): Phdr {
    if p.ptype != PT_NOTE then p
    else match Walk(Segment(m, p), 0)
         case None => p
         case Some(sz) => p.(memsz := sz)
  }

  function TrimAll(m: OldMem, t: seq<Phdr>): (r: seq<Phdr>)
    ensures |r| == |t|
  {
    seq(|t|, i requires 0 <= i < |t| => Trim(m, t[i]))
  }

  // The following four look at the first n headers of t.

  function NoteCount(t: seq<Phdr>, n: nat): nat
    requires n <= |t|
  {
    if n == 0 then 0 else NoteCount(t, n - 1) + (if t[n - 1].ptype == PT_NOTE then 1 else 0)
  }

  function NoteBytes(t: seq<Phdr>, n: nat): nat
    requires n <= |t|
  {
    if n == 0 then 0 else NoteBytes(t, n - 1) + (if t[n - 1].ptype == PT_NOTE then t[n - 1].memsz else 0)
  }

  /** The note segments one after the other. */
  function Concat(m: OldMem, t: seq<Phdr>, n: nat): (r: seq<byte>)
    requires n <= |t|
    ensures |r| == NoteBytes(t, n)
  {
    if n == 0 then []
    else if t[n - 1].ptype == PT_NOTE then Concat(m, t, n - 1) + Segment(m, t[n - 1])
    else Concat(m, t, n - 1)
  }

  /** The headers that are not PT_NOTE, in order. */
  function Others(t: seq<Phdr>, n: nat): seq<Phdr>
    requires n <= |t|
  {
    if n == 0 then []
    else if t[n - 1].ptype == PT_NOTE then Others(t, n - 1)
    else Others(t, n - 1) + [t[n - 1]]
  }

  /** All notes of all PT_NOTE segments, in order. */
  function AllNotes(m: OldMem, t: seq<Phdr>, n: nat): seq<seq<byte>>
    requires n <= |t|
  {
    if n == 0 then []
    else if t[n - 1].ptype == PT_NOTE && ParseNotes(Segment(m, t[n - 1])).Some? then
      AllNotes(m, t, n - 1) + ParseNotes(Segment(m, t[n - 1])).value
    else AllNotes(m, t, n - 1)
  }

  /** The merged header for notes of the given size in a table that keeps n headers. */
  function MergedNote(n: nat, size: nat): Phdr {
    Phdr(PT_NOTE, 0, RoundUp(At(n)), 0, 0, size, size, 0)
  }

  // ---------- trimming ----------

  lemma {:induction false} TrimParses(m: OldMem, p: Phdr)
    requires p.ptype == PT_NOTE && Walk(Segment(m, p), 0).Some?
    ensures var q := Trim(m, p);
      q == p.(memsz := q.memsz) && q.memsz <= p.memsz
      && Segment(m, q) == Segment(m, p)[..q.memsz] && ParseNotes(Segment(m, q)).Some?
  {
    var b, q := Segment(m, p), Trim(m, p);
    WalkParses(b, 0);
    OldBytesSplit(m, p.offset, p.memsz, q.memsz);
    assert b[..q.memsz] == b[0..q.memsz];
  }

  /** The notes of the merged segment are the notes of the trimmed segments, in order. */
  lemma {:induction false} MergeKeepsNotes(m: OldMem, t: seq<Phdr>, n: nat)
    requires Terminated(m, t) && n <= |t|
    ensures ParseNotes(Concat(m, TrimAll(m, t), n)) == Some(AllNotes(m, TrimAll(m, t), n))
  {
    if n > 0 {
      var u := TrimAll(m, t);
      MergeKeepsNotes(m, t, n - 1);
      assert t[n - 1] in t && u[n - 1] == Trim(m, t[n - 1]);
      if t[n - 1].ptype == PT_NOTE {
        TrimParses(m, t[n - 1]);
        var x, y := Concat(m, u, n - 1), Segment(m, u[n - 1]);
        ParseConcat(x, y);
        NextNotes(m, u, n, x, y, AllNotes(m, u, n - 1), ParseNotes(y).value);
      }
    }
  }

  lemma {:induction false} NextNotes(m: OldMem, u: seq<Phdr>, n: nat, x: seq<byte>, y: seq<byte>,
                                     notes: seq<seq<byte>>, more: seq<seq<byte>>)
    requires 0 < n <= |u| && u[n - 1].ptype == PT_NOTE && x == Concat(m, u, n - 1) && y == Segment(m, u[n - 1])
    requires notes == AllNotes(m, u, n - 1) && ParseNotes(y) == Some(more)
    ensures Concat(m, u, n) == x + y && AllNotes(m, u, n) == notes + more
  {
  }

  /** Where in the merged segment the notes of PT_NOTE header i are: behind those of the headers before it. */
  lemma {:induction false} SegmentAt(m: OldMem, t: seq<Phdr>, n: nat, i: nat)
    requires i < n <= |t| && t[i].ptype == PT_NOTE
    ensures var q := NoteBytes(t, i);
      q + t[i].memsz <= |Concat(m, t, n)| && Concat(m, t, n)[q..q + t[i].memsz] == OldBytes(m, t[i].offset, t[i].memsz)
  {
    var q := NoteBytes(t, i);
    if i == n - 1 {
      assert Concat(m, t, n)[q..q + t[i].memsz] == Segment(m, t[i]);
    } else {
      SegmentAt(m, t, n - 1, i);
      var front := Concat(m, t, n - 1);
      assert Concat(m, t, n)[..|front|] == front;
      Seqs.TakeSlice(Concat(m, t, n), |front|, q, q + t[i].memsz);
    }
  }

  // ---------- the order of the headers ----------

  /** The PT_NOTE headers come first. */
  predicate NotesLead(t: seq<Phdr>) {
    forall i :: 0 <= i < NoteCount(t, |t|) && i < |t| ==> t[i].ptype == PT_NOTE
  }

  lemma {:induction false} NoteCountBound(t: seq<Phdr>, n: nat)
    requires n <= |t|
    ensures NoteCount(t, n) <= n
    ensures NoteCount(t, n) == n ==> forall i :: 0 <= i < n ==> t[i].ptype == PT_NOTE
  {
    if n > 0 { NoteCountBound(t, n - 1); }
  }

  lemma {:induction false} NoteCountFrom(t: seq<Phdr>, k: nat, n: nat)
    requires k <= n <= |t|
    ensures NoteCount(t, k) <= NoteCount(t, n)
    ensures (forall i :: k <= i < n ==> t[i].ptype != PT_NOTE) <==> NoteCount(t, n) == NoteCount(t, k)
  {
    if k < n { NoteCountFrom(t, k, n - 1); }
  }

  lemma {:induction false} OthersAreOther(t: seq<Phdr>, n: nat)
    requires n <= |t|
    ensures |Others(t, n)| == n - NoteCount(t, n)
    ensures forall i :: 0 <= i < |Others(t, n)| ==> Others(t, n)[i].ptype != PT_NOTE
  {
    if n > 0 { OthersAreOther(t, n - 1); }
  }

  lemma {:induction false} LeadingOthers(t: seq<Phdr>, k: nat, n: nat)
    requires k <= n <= |t|
    requires forall i :: 0 <= i < k ==> t[i].ptype == PT_NOTE
    requires forall i :: k <= i < n ==> t[i].ptype != PT_NOTE
    ensures Others(t, n) == t[k..n] && NoteCount(t, n) == k
  {
    if k < n {
      LeadingOthers(t, k, n - 1);
      assert t[k..n] == t[k..n - 1] + [t[n - 1]];
    } else if n > 0 {
      LeadingOthers(t, k - 1, n - 1);
    }
  }

  /**
   * Dropping as many headers as there are PT_NOTE headers keeps exactly the other headers,
   * in order, if and only if the PT_NOTE headers lead the table.
   */
  lemma {:induction false} DropIsOthers(t: seq<Phdr>)
    ensures NoteCount(t, |t|) <= |t|
    ensures t[NoteCount(t, |t|)..] == Others(t, |t|) <==> NotesLead(t)
  {
    var n, nr := |t|, NoteCount(t, |t|);
    NoteCountBound(t, n);
    NoteCountBound(t, nr);
    NoteCountFrom(t, nr, n);
    if t[nr..] == Others(t, n) {
      OthersAreOther(t, n);
      forall i | nr <= i < n ensures t[i].ptype != PT_NOTE { assert t[i] == t[nr..][i - nr]; }
    }
    if NotesLead(t) {
      LeadingOthers(t, nr, nr);
      LeadingOthers(t, nr, n);
    }
  }
}
