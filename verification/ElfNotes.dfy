/**
 * Note segments (System V gABI, chapter 5, "Note Section"): a run of notes, each a header
 * of three words followed by a name and a descriptor padded to words.
 */
module ElfNotes {
  import opened Wrappers
  import opened Oldmem
  import Seqs
  import opened Elf

  const NHDR: nat := 12

  function Pad4(x: nat): nat { (x + 3) / 4 * 4 }

  function NameSize(b: seq<byte>, at: nat): nat
    requires at + 4 <= |b|
  {
    FromLE(b[at..at + 4])
  }

  function NoteSize(b: seq<byte>, at: nat): (r: nat)
    requires at + 8 <= |b|
    ensures r >= NHDR
  {
    NHDR + Pad4(NameSize(b, at)) + Pad4(FromLE(b[at + 4..at + 8]))
  }

  /**
   * The real size of the notes in a segment, walking from at: up to an empty name or up to
   * the first note that does not fit.  None when the walk leaves the segment.
   */
  function Walk(b: seq<byte>, at: nat): (r: Option<nat>)
    ensures r.Some? ==> at <= r.value <= |b|
    decreases |b| - at
  {
    if at + 4 > |b| then None
    else if NameSize(b, at) == 0 then Some(at)
    else if at + 8 > |b| then None
    else if at + NoteSize(b, at) > |b| then Some(at)
    else Walk(b, at + NoteSize(b, at))
  }

  /** The notes of a segment that they fill exactly. */
  function ParseNotes(b: seq<byte>): Option<seq<seq<byte>>> {
    if b == [] then Some([])
    else if !StartsWithNote(b) then None
    else match ParseNotes(b[NoteSize(b, 0)..])
         case None => None
         case Some(rest) => Some([b[..NoteSize(b, 0)]] + rest)
  }

  predicate StartsWithNote(b: seq<byte>) {
    |b| >= NHDR && NameSize(b, 0) != 0 && NoteSize(b, 0) <= |b|
  }

  /**
   * A note of which the first two words are name and desc takes twelve bytes, and the least numbers
   * of whole words that hold name bytes and desc bytes.
   */
  lemma {:induction false} NoteExtent(b: seq<byte>, at: nat, name: nat, desc: nat, n: nat, d: nat)
    requires at + 8 <= |b| && name < U32 && desc < U32
    requires forall i :: 0 <= i < 4 ==> b[at + i] as int == name / Pow256(i) % 256
    requires forall i :: 0 <= i < 4 ==> b[at + 4 + i] as int == desc / Pow256(i) % 256
    requires 4 * n - 4 < name <= 4 * n && 4 * d - 4 < desc <= 4 * d
    ensures NameSize(b, at) == name && NoteSize(b, at) == 12 + 4 * n + 4 * d
  {
    WordIs(b[at..at + 4], name);
    WordIs(b[at + 4..at + 8], desc);
    Pad4Is(name, n);
    Pad4Is(desc, d);
  }

  lemma {:induction false} Pad4Is(x: nat, n: nat)
    requires 4 * n - 4 < x <= 4 * n
    ensures Pad4(x) == 4 * n
  {
  }

  lemma {:induction false} WordIs(w: seq<byte>, x: nat)
    requires |w| == 4 && x < U32 && forall i :: 0 <= i < 4 ==> w[i] as int == x / Pow256(i) % 256
    ensures FromLE(w) == x
  {
    forall i: nat | i < 4 ensures w[i] == ToLE(x, 4)[i] { ToLEAt(x, 4, i); }
    assert w == ToLE(x, 4);
    Widths();
    LEInverse(x, 4);
  }

  /** Notes one behind the other. */
  function Flatten(notes: seq<seq<byte>>): seq<byte> {
    if notes == [] then [] else notes[0] + Flatten(notes[1..])
  }

  /** One note with a name, and nothing else. */
  predicate WholeNote(x: seq<byte>) {
    |x| >= NHDR && NameSize(x, 0) != 0 && |x| == NoteSize(x, 0)
  }

  /** Parsing gives the one way in which the bytes are whole notes, if there is one. */
  lemma {:induction false} ParseIs(b: seq<byte>, notes: seq<seq<byte>>)
    ensures ParseNotes(b) == Some(notes)
            <==> Flatten(notes) == b && forall i :: 0 <= i < |notes| ==> WholeNote(notes[i])
  {
    if ParseNotes(b) == Some(notes) { ParsedWhole(b, notes); }
    if Flatten(notes) == b && forall i :: 0 <= i < |notes| ==> WholeNote(notes[i]) { WholeParsed(b, notes); }
  }

  lemma {:induction false} ParsedWhole(b: seq<byte>, notes: seq<seq<byte>>)
    requires ParseNotes(b) == Some(notes)
    ensures Flatten(notes) == b && forall i :: 0 <= i < |notes| ==> WholeNote(notes[i])
  {
    if b != [] {
      var sz := NoteSize(b, 0);
      ParsedWhole(b[sz..], notes[1..]);
      assert b[..sz] == b[0..sz];
      SizesShift(b, 0, b[..sz]);
      assert notes[0] == b[..sz] && b == b[..sz] + b[sz..];
      forall i | 0 <= i < |notes| ensures WholeNote(notes[i]) { if i > 0 { assert notes[i] == notes[1..][i - 1]; } }
    }
  }

  lemma {:induction false} WholeParsed(b: seq<byte>, notes: seq<seq<byte>>)
    requires Flatten(notes) == b && forall i :: 0 <= i < |notes| ==> WholeNote(notes[i])
    ensures ParseNotes(b) == Some(notes)
    decreases |notes|
  {
    if notes != [] {
      var x, rest := notes[0], Flatten(notes[1..]);
      forall i | 0 <= i < |notes[1..]| ensures WholeNote(notes[1..][i]) { assert notes[1..][i] == notes[i + 1]; }
      WholeParsed(rest, notes[1..]);
      assert x == (x + rest)[0..|x|];
      SizesShift(b, 0, x);
      assert b[..|x|] == x && b[|x|..] == rest;
      assert notes == [x] + notes[1..];
    }
  }

  /** Parsing depends only on the bytes of the note itself. */
  lemma {:induction false} SizesShift(b: seq<byte>, at: nat, c: seq<byte>)
    requires at <= |b| && |c| >= 8 && at + |c| <= |b| && c == b[at..at + |c|]
    ensures NameSize(c, 0) == NameSize(b, at) && NoteSize(c, 0) == NoteSize(b, at)
  {
    Seqs.SliceOfSlice(b, at, at + |c|, 0, 4);
    Seqs.SliceOfSlice(b, at, at + |c|, 4, 8);
  }

  /** What the walk keeps is a sequence of whole notes. */
  lemma {:induction false} WalkParses(b: seq<byte>, at: nat)
    requires Walk(b, at).Some?
    ensures ParseNotes(b[at..Walk(b, at).value]).Some?
    decreases |b| - at
  {
    var r := Walk(b, at).value;
    if at + 8 <= |b| && NameSize(b, at) != 0 && at + NoteSize(b, at) <= |b| {
      var sz := NoteSize(b, at);
      WalkParses(b, at + sz);
      ParseMore(b, at, r, sz);
    }
  }

  lemma {:induction false} ParseMore(b: seq<byte>, at: nat, r: nat, sz: nat)
    requires at + 8 <= |b| && at + sz <= r <= |b| && NameSize(b, at) != 0 && sz == NoteSize(b, at)
    requires ParseNotes(b[at + sz..r]).Some?
    ensures ParseNotes(b[at..r]).Some?
  {
    SizesShift(b, at, b[at..r]);
    Seqs.SliceOfSlice(b, at, r, sz, r - at);
    assert b[at..r][sz..] == b[at..r][sz..r - at];
  }

  /** And it stops only at an empty name or at a note that runs past the segment. */
  lemma {:induction false} WalkMaximal(b: seq<byte>, at: nat)
    requires Walk(b, at).Some?
    ensures var r := Walk(b, at).value;
      r + 4 <= |b| && (NameSize(b, r) == 0 || (r + 8 <= |b| && r + NoteSize(b, r) > |b|))
    decreases |b| - at
  {
    if at + 8 <= |b| && NameSize(b, at) != 0 && at + NoteSize(b, at) <= |b| {
      WalkMaximal(b, at + NoteSize(b, at));
    }
  }

  lemma {:induction false} FirstNote(x: seq<byte>, y: seq<byte>)
    requires StartsWithNote(x)
    ensures StartsWithNote(x + y) && NoteSize(x + y, 0) == NoteSize(x, 0)
    ensures var sz := NoteSize(x, 0); (x + y)[..sz] == x[..sz] && (x + y)[sz..] == x[sz..] + y
  {
    assert x == (x + y)[0..|x|];
    SizesShift(x + y, 0, x);
  }

  /** The notes of two segments put together are the notes of the first and then of the second. */
  lemma {:induction false} ParseConcat(x: seq<byte>, y: seq<byte>)
    requires ParseNotes(x).Some? && ParseNotes(y).Some?
    ensures ParseNotes(x + y) == Some(ParseNotes(x).value + ParseNotes(y).value)
  {
    if x == [] {
      assert x + y == y;
      assert ParseNotes(x).value + ParseNotes(y).value == ParseNotes(y).value;
    } else {
      FirstNote(x, y);
      var sz := NoteSize(x, 0);
      ParseConcat(x[sz..], y);
      Seqs.Associative([x[..sz]], ParseNotes(x[sz..]).value, ParseNotes(y).value);
    }
  }

  /** One turn of the loop, at a note with a name. */
  lemma {:induction false} WalkTurn(b: seq<byte>, end: Option<nat>, at: nat)
    requires Walking(b, end, at) && NameSize(b, at) != 0
    ensures at + 8 <= |b|
    ensures var next := at + NoteSize(b, at); if next > |b| then end == Some(at) else Walking(b, end, next)
  {
  }

  lemma {:induction false} WalkEnd(b: seq<byte>, end: Option<nat>, at: nat)
    requires Walking(b, end, at) && NameSize(b, at) == 0
    ensures end == Some(at)
  {
  }

  /** The walk that ends at `end` has come to `at`. */
  predicate Walking(b: seq<byte>, end: Option<nat>, at: nat) {
    end.Some? && end == Walk(b, at) && at + 4 <= |b|
  }

  /** The loop of update_note_header_size_elf64 over one segment. */
  method RealSize(section: array<byte>) returns (realSz: nat)
    requires Walk(section[..], 0).Some?
    ensures Some(realSz) == Walk(section[..], 0)
  {
    var maxSz := section.Length;
    ghost var b := section[..];
    realSz := 0;
    ghost var end := Walk(b, 0);
    while WordAt(section, realSz, b) != 0
      invariant Walking(b, end, realSz)
      decreases maxSz - realSz
    {
      WalkTurn(b, end, realSz);
      var sz := SizeAt(section, realSz, b);
      if realSz + sz > maxSz { return; }
      realSz := realSz + sz;
    }
    WalkEnd(b, end, realSz);
  }

  /** The size of the note at offset `at`: its header, and its name and descriptor in whole words. */
  method SizeAt(section: array<byte>, at: nat, ghost b: seq<byte>) returns (sz: nat)
    requires at + 8 <= section.Length && section[..] == b
    ensures sz == NoteSize(b, at)
  {
    var namesz, descsz := WordAt(section, at, b), WordAt(section, at + 4, b);
    return NHDR + Pad4(namesz) + Pad4(descsz);
  }

  /** The word at offset `at` of a buffer that holds b. */
  function WordAt(section: array<byte>, at: nat, ghost b: seq<byte>): (r: nat)
    requires at + 4 <= section.Length && section[..] == b
    reads section
    ensures r == FromLE(b[at..at + 4])
  {
    assert section[at..at + 4] == b[at..at + 4];
    FromLE(section[at..at + 4])
  }
}
