/**
 * ELF-64 headers as bytes: the header of 64 bytes followed by program headers of 56 bytes
 * each (System V gABI, chapter 5, "Program Header"), little-endian.
 */
module Elf {
  import opened Oldmem
  import Seqs

  const EHDR: nat := 64
  const PHDR: nat := 56
  const PHNUM: nat := 56
  const PT_LOAD: nat := 1
  const PT_NOTE: nat := 4

  // ---------- numbers ----------

  function Pow256(k: nat): (r: nat)
    ensures r >= 1
  {
    if k == 0 then 1 else 256 * Pow256(k - 1)
  }

  function FromLE(b: seq<byte>): nat {
    if b == [] then 0 else b[0] as int + 256 * FromLE(b[1..])
  }

  function ToLE(n: nat, k: nat): (r: seq<byte>)
    ensures |r| == k
  {
    if k == 0 then [] else [(n % 256) as byte] + ToLE(n / 256, k - 1)
  }

  /** A stored field reads back as what was stored, if it fits the field. */
  lemma {:induction false} LEInverse(n: nat, k: nat)
    requires n < Pow256(k)
    ensures FromLE(ToLE(n, k)) == n
  {
    if k > 0 {
      LEInverse(n / 256, k - 1);
      assert ToLE(n, k)[1..] == ToLE(n / 256, k - 1);
    }
  }

  lemma {:induction false} LEBound(b: seq<byte>)
    ensures FromLE(b) < Pow256(|b|)
  {
    if b != [] { LEBound(b[1..]); }
  }

  /** What is stored for n: byte i is the i-th digit of n to the base 256, the lowest first. */
  lemma {:induction false} ToLEAt(n: nat, k: nat, i: nat)
    requires i < k
    ensures ToLE(n, k)[i] as int == n / Pow256(i) % 256
  {
    if i > 0 {
      ToLEAt(n / 256, k - 1, i - 1);
      assert ToLE(n, k)[1..] == ToLE(n / 256, k - 1);
      DivTwice(n, Pow256(i - 1));
    }
  }

  lemma {:induction false} DivTwice(n: nat, b: nat)
    requires b > 0
    ensures n / (256 * b) == n / 256 / b
  {
    var m := n / 256;
    var q := m / b;
    assert m == q * b + m % b;
    Factor(0, b, q);
    assert q * (256 * b) == 256 * (q * b) by { assert q * (256 * b) == 256 * b * q; }
    QuotientIs(n, q, 256 * b);
  }

  lemma {:induction false} QuotientIs(n: nat, q: nat, d: nat)
    requires d > 0 && q * d <= n < q * d + d
    ensures n / d == q
  {
    var e := n / d - q;
    assert e * d == n - n % d - q * d;
    Multiple(e, d);
  }

  lemma {:induction false} Multiple(e: int, d: nat)
    ensures e >= 1 ==> e * d >= d
    ensures e <= -1 ==> e * d + d <= 0
  {
  }

  /** What is read from two, four or eight bytes. */
  lemma {:induction false} FromLEIs(b: seq<byte>)
    ensures |b| == 1 ==> FromLE(b) == b[0] as int
    ensures |b| == 2 ==> FromLE(b) == b[0] as int + 0x100 * b[1] as int
    ensures |b| == 4 ==>
      FromLE(b) == b[0] as int + 0x100 * b[1] as int + 0x1_0000 * b[2] as int + 0x100_0000 * b[3] as int
    ensures |b| == 8 ==> FromLE(b) == FromLE(b[..4]) + 0x1_0000_0000 * FromLE(b[4..])
  {
    if |b| == 1 || |b| == 2 || |b| == 4 { FromLESplit(b, |b| / 2); }
    if |b| == 2 { OneByte(b[..1]); OneByte(b[1..]); }
    if |b| == 4 {
      FromLEIs(b[..2]);
      FromLEIs(b[2..]);
    }
    if |b| == 1 { OneByte(b); }
    if |b| == 8 { FromLESplit(b, 4); }
    Widths();
  }

  lemma {:induction false} OneByte(b: seq<byte>)
    requires |b| == 1
    ensures FromLE(b) == b[0] as int
  {
    assert b[1..] == [];
  }

  lemma {:induction false} FromLESplit(b: seq<byte>, k: nat)
    requires k <= |b|
    ensures FromLE(b) == FromLE(b[..k]) + Pow256(k) * FromLE(b[k..])
  {
    if k == 0 {
      assert b[0..] == b;
    } else {
      FromLESplit(b[1..], k - 1);
      var c := b[1..];
      assert b[..k][1..] == c[..k - 1] && b[k..] == c[k - 1..];
      Factor(FromLE(c[..k - 1]), Pow256(k - 1), FromLE(b[k..]));
    }
  }

  lemma {:induction false} Factor(x: nat, w: nat, y: nat)
    ensures 256 * (x + w * y) == 256 * x + 256 * w * y
  {
    assert 256 * w * y == 256 * (w * y);
  }

  /** A stored number is determined by its value: writing back what was read changes nothing. */
  lemma {:induction false} BytesBack(b: seq<byte>)
    ensures ToLE(FromLE(b), |b|) == b
  {
    if b != [] {
      BytesBack(b[1..]);
      NextDigit(b[0], FromLE(b[1..]), |b| - 1);
      assert b == [b[0]] + b[1..];
    }
  }

  lemma {:induction false} NextDigit(d: byte, x: nat, k: nat)
    ensures ToLE(d as int + 256 * x, k + 1) == [d] + ToLE(x, k)
  {
    var n := d as int + 256 * x;
    assert n % 256 == d as int && n / 256 == x;
  }

  const U16: nat := 0x1_0000
  const U32: nat := 0x1_0000_0000
  const U64: nat := 0x1_0000_0000_0000_0000

  lemma {:induction false} Widths()
    ensures Pow256(2) == U16 && Pow256(4) == U32 && Pow256(8) == U64
  {
    assert Pow256(3) == 256 * Pow256(2);
    assert Pow256(5) == 256 * Pow256(4);
    assert Pow256(7) == 256 * (256 * Pow256(5));
  }

  // ---------- program headers ----------

  datatype Phdr = Phdr(ptype: nat, flags: nat, offset: nat, vaddr: nat, paddr: nat, filesz: nat, memsz: nat, align: nat)

  predicate Fits(p: Phdr) {
    p.ptype < U32 && p.flags < U32 && p.offset < U64 && p.vaddr < U64 && p.paddr < U64
    && p.filesz < U64 && p.memsz < U64 && p.align < U64
  }

  function Encode(p: Phdr): (r: seq<byte>)
    ensures |r| == PHDR
  {
    ToLE(p.ptype, 4) + ToLE(p.flags, 4) + ToLE(p.offset, 8) + ToLE(p.vaddr, 8)
    + ToLE(p.paddr, 8) + ToLE(p.filesz, 8) + ToLE(p.memsz, 8) + ToLE(p.align, 8)
  }

  function Decode(b: seq<byte>): Phdr
    requires |b| == PHDR
  {
    Phdr(FromLE(b[..4]), FromLE(b[4..8]), FromLE(b[8..16]), FromLE(b[16..24]),
         FromLE(b[24..32]), FromLE(b[32..40]), FromLE(b[40..48]), FromLE(b[48..56]))
  }

  lemma {:induction false} EncodeSlices(p: Phdr)
    ensures var b := Encode(p);
      && b[..4] == ToLE(p.ptype, 4) && b[4..8] == ToLE(p.flags, 4) && b[8..16] == ToLE(p.offset, 8)
      && b[16..24] == ToLE(p.vaddr, 8) && b[24..32] == ToLE(p.paddr, 8) && b[32..40] == ToLE(p.filesz, 8)
      && b[40..48] == ToLE(p.memsz, 8) && b[48..56] == ToLE(p.align, 8)
  {
    var front := ToLE(p.ptype, 4) + ToLE(p.flags, 4) + ToLE(p.offset, 8) + ToLE(p.vaddr, 8);
    var back := ToLE(p.paddr, 8) + ToLE(p.filesz, 8) + ToLE(p.memsz, 8) + ToLE(p.align, 8);
    assert Encode(p) == front + back;
    forall i, j | 0 <= i <= j <= 24 ensures (front + back)[i..j] == front[i..j] { Seqs.SliceLeft(front, back, i, j); }
    forall i, j | 24 <= i <= j <= 56 ensures (front + back)[i..j] == back[i - 24..j - 24] {
      Seqs.SliceRight(front, back, i, j);
    }
    assert front[..4] == ToLE(p.ptype, 4) && front[4..8] == ToLE(p.flags, 4);
    assert front[8..16] == ToLE(p.offset, 8) && front[16..24] == ToLE(p.vaddr, 8);
    assert back[..8] == ToLE(p.paddr, 8) && back[8..16] == ToLE(p.filesz, 8);
    assert back[16..24] == ToLE(p.memsz, 8) && back[24..32] == ToLE(p.align, 8);
  }

  lemma {:induction false} DecodeEncode(p: Phdr)
    requires Fits(p)
    ensures Decode(Encode(p)) == p
  {
    Widths();
    EncodeSlices(p);
    LEInverse(p.ptype, 4);
    LEInverse(p.flags, 4);
    LEInverse(p.offset, 8);
    LEInverse(p.vaddr, 8);
    LEInverse(p.paddr, 8);
    LEInverse(p.filesz, 8);
    LEInverse(p.memsz, 8);
    LEInverse(p.align, 8);
  }

  /** Any 56 bytes are the encoding of the header they decode to. */
  lemma {:induction false} EncodeDecode(b: seq<byte>)
    requires |b| == PHDR
    ensures Encode(Decode(b)) == b
  {
    BytesBack(b[..4]);
    BytesBack(b[4..8]);
    BytesBack(b[8..16]);
    BytesBack(b[16..24]);
    BytesBack(b[24..32]);
    BytesBack(b[32..40]);
    BytesBack(b[40..48]);
    BytesBack(b[48..56]);
    EncodeSlices(Decode(b));
    SameFields(Encode(Decode(b)), b);
  }

  lemma {:induction false} SameFields(a: seq<byte>, b: seq<byte>)
    requires |a| == |b| == PHDR
    requires a[..4] == b[..4] && a[4..8] == b[4..8] && a[8..16] == b[8..16] && a[16..24] == b[16..24]
    requires a[24..32] == b[24..32] && a[32..40] == b[32..40] && a[40..48] == b[40..48] && a[48..56] == b[48..56]
    ensures a == b
  {
    var c := a[..4] + a[4..8] + a[8..16] + a[16..24] + a[24..32] + a[32..40] + a[40..48] + a[48..56];
    assert a == c && b == c;
  }

  /** The layout of a program header: where byte i of each field is. */
  lemma {:induction false} FieldBytes(p: Phdr, i: nat)
    ensures i < 4 ==> Encode(p)[i] as int == p.ptype / Pow256(i) % 256
    ensures i < 4 ==> Encode(p)[4 + i] as int == p.flags / Pow256(i) % 256
    ensures i < 8 ==> Encode(p)[8 + i] as int == p.offset / Pow256(i) % 256
    ensures i < 8 ==> Encode(p)[16 + i] as int == p.vaddr / Pow256(i) % 256
    ensures i < 8 ==> Encode(p)[24 + i] as int == p.paddr / Pow256(i) % 256
    ensures i < 8 ==> Encode(p)[32 + i] as int == p.filesz / Pow256(i) % 256
    ensures i < 8 ==> Encode(p)[40 + i] as int == p.memsz / Pow256(i) % 256
    ensures i < 8 ==> Encode(p)[48 + i] as int == p.align / Pow256(i) % 256
  {
    var b := Encode(p);
    EncodeSlices(p);
    if i < 4 {
      assert b[i] == b[..4][i] && b[4 + i] == b[4..8][i];
      ToLEAt(p.ptype, 4, i);
      ToLEAt(p.flags, 4, i);
    }
    if i < 8 {
      assert b[8 + i] == b[8..16][i] && b[16 + i] == b[16..24][i] && b[24 + i] == b[24..32][i];
      assert b[32 + i] == b[32..40][i] && b[40 + i] == b[40..48][i] && b[48 + i] == b[48..56][i];
      ToLEAt(p.offset, 8, i);
      ToLEAt(p.vaddr, 8, i);
      ToLEAt(p.paddr, 8, i);
      ToLEAt(p.filesz, 8, i);
      ToLEAt(p.memsz, 8, i);
      ToLEAt(p.align, 8, i);
    }
  }

  lemma {:induction false} DecodeFits(b: seq<byte>)
    requires |b| == PHDR
    ensures Fits(Decode(b))
  {
    Widths();
    LEBound(b[..4]);
    LEBound(b[4..8]);
    LEBound(b[8..16]);
    LEBound(b[16..24]);
    LEBound(b[24..32]);
    LEBound(b[32..40]);
    LEBound(b[40..48]);
    LEBound(b[48..56]);
  }

  /** Where program header i starts. */
  function At(i: nat): nat { EHDR + i * PHDR }

  function GetPhdr(b: seq<byte>, i: nat): Phdr
    requires At(i + 1) <= |b|
  {
    Decode(b[At(i)..At(i + 1)])
  }

  function GetPhnum(b: seq<byte>): nat
    requires |b| >= EHDR
  {
    FromLE(b[PHNUM..PHNUM + 2])
  }

  /** The first n program headers of a buffer. */
  function Table(b: seq<byte>, n: nat): (r: seq<Phdr>)
    requires At(n) <= |b|
    ensures |r| == n
  {
    seq(n, i requires 0 <= i < n => assert At(i + 1) <= At(n); GetPhdr(b, i))
  }

  /** Where the code looks in a header buffer: e_phnum at 56, and the type of header i at 64 + 56 * i. */
  lemma {:induction false} InBuffer(b: seq<byte>, i: nat)
    requires 64 + 56 * (i + 1) <= |b|
    ensures GetPhnum(b) == b[56] as int + 256 * b[57] as int
    ensures At(i + 1) <= |b| && var at := 64 + 56 * i; GetPhdr(b, i) == Decode(b[at..at + 56])
    ensures var at := 64 + 56 * i;
      && (GetPhdr(b, i).ptype == PT_LOAD <==> b[at..at + 4] == [1, 0, 0, 0])
      && (GetPhdr(b, i).ptype == PT_NOTE <==> b[at..at + 4] == [4, 0, 0, 0])
  {
    FromLEIs(b[PHNUM..PHNUM + 2]);
    var at := 64 + 56 * i;
    var p := b[at..at + 56];
    assert p[..4] == b[at..at + 4];
    FromLEIs(p[..4]);
  }

  // ---------- field writes ----------

  lemma {:induction false} SpliceSlice(b: seq<byte>, off: nat, x: seq<byte>, i: nat, j: nat)
    requires off + |x| <= |b| && i <= j <= |b|
    ensures j <= off || off + |x| <= i ==> Splice(b, off, x)[i..j] == b[i..j]
    ensures i == off && j == off + |x| ==> Splice(b, off, x)[i..j] == x
    ensures i <= off && off + |x| <= j ==> Splice(b, off, x)[i..j] == Splice(b[i..j], off - i, x)
  {
    var c := Splice(b, off, x);
    if j <= off || off + |x| <= i { assert c[i..j] == b[i..j]; }
    if i <= off && off + |x| <= j { assert c[i..j] == Splice(b[i..j], off - i, x); }
  }

  lemma {:induction false} PhdrSplice(b: seq<byte>, j: nat, off: nat, x: seq<byte>)
    requires At(j + 1) <= |b| && off + |x| <= |b|
    requires off + |x| <= At(j) || At(j + 1) <= off
    ensures GetPhdr(Splice(b, off, x), j) == GetPhdr(b, j)
  {
    SpliceSlice(b, off, x, At(j), At(j + 1));
  }

  /** A write inside program header i changes only that header. */
  lemma {:induction false} TableSet(b: seq<byte>, n: nat, i: nat, off: nat, x: seq<byte>)
    requires At(n) <= |b| && i < n && off + |x| <= PHDR
    ensures At(i) + off + |x| <= |b| && At(i + 1) <= |b|
    ensures Table(Splice(b, At(i) + off, x), n) == Table(b, n)[i := Decode(Splice(b[At(i)..At(i + 1)], off, x))]
  {
    assert At(i + 1) <= At(n);
    var c := Splice(b, At(i) + off, x);
    SpliceSlice(b, At(i) + off, x, At(i), At(i + 1));
    forall j: nat | j < n && j != i ensures GetPhdr(c, j) == GetPhdr(b, j) {
      assert At(j + 1) <= At(i) || At(i + 1) <= At(j);
      PhdrSplice(b, j, At(i) + off, x);
    }
  }

  /** Overwriting one field of an encoded header changes that field only. */
  lemma {:induction false} DecodeSplice(b: seq<byte>, v: nat)
    requires |b| == PHDR && v < U64
    ensures Decode(Splice(b, 8, ToLE(v, 8))) == Decode(b).(offset := v)
    ensures Decode(Splice(b, 40, ToLE(v, 8))) == Decode(b).(memsz := v)
  {
    Widths();
    LEInverse(v, 8);
    var x := ToLE(v, 8);
    SpliceFields(b, 8, x);
    SpliceFields(b, 40, x);
  }

  lemma {:induction false} SpliceFields(b: seq<byte>, off: nat, x: seq<byte>)
    requires |b| == PHDR && |x| == 8 && (off == 8 || off == 40)
    ensures var c := Splice(b, off, x);
      && c[..4] == b[..4] && c[4..8] == b[4..8] && c[8..16] == (if off == 8 then x else b[8..16])
      && c[16..24] == b[16..24] && c[24..32] == b[24..32] && c[32..40] == b[32..40]
      && c[40..48] == (if off == 40 then x else b[40..48]) && c[48..56] == b[48..56]
  {
    SpliceSlice(b, off, x, 0, 4);
    SpliceSlice(b, off, x, 4, 8);
    SpliceSlice(b, off, x, 8, 16);
    SpliceSlice(b, off, x, 16, 24);
    SpliceSlice(b, off, x, 24, 32);
    SpliceSlice(b, off, x, 32, 40);
    SpliceSlice(b, off, x, 40, 48);
    SpliceSlice(b, off, x, 48, 56);
  }
}
