/** Facts about slices of concatenated sequences, and about reading a file piece by piece. */
module Seqs {
  lemma SliceLeft<T>(a: seq<T>, b: seq<T>, i: nat, j: nat)
    requires i <= j <= |a|
    ensures (a + b)[i..j] == a[i..j]
  {
  }

  lemma SliceRight<T>(a: seq<T>, b: seq<T>, i: nat, j: nat)
    requires |a| <= i <= j <= |a| + |b|
    ensures (a + b)[i..j] == b[i - |a|..j - |a|]
  {
  }

  lemma SliceJoin<T>(a: seq<T>, i: nat, j: nat, k: nat)
    requires i <= j <= k <= |a|
    ensures a[i..j] + a[j..k] == a[i..k]
  {
  }

  lemma SliceOfSlice<T>(a: seq<T>, i: nat, j: nat, k: nat, l: nat)
    requires i <= j <= |a| && k <= l <= j - i
    ensures a[i..j][k..l] == a[i + k..i + l]
  {
    var inner, whole := a[i..j][k..l], a[i + k..i + l];
    forall x | 0 <= x < |inner| ensures inner[x] == whole[x] { assert inner[x] == a[i..j][k + x]; }
  }

  lemma TakeSlice<T>(a: seq<T>, n: nat, i: nat, j: nat)
    requires i <= j <= n <= |a|
    ensures a[..n][i..j] == a[i..j]
  {
    forall x | 0 <= x < j - i ensures a[..n][i..j][x] == a[i..j][x] { assert a[..n][i + x] == a[i + x]; }
  }

  lemma Associative<T>(a: seq<T>, b: seq<T>, c: seq<T>)
    ensures (a + b) + c == a + (b + c)
  {
  }

  lemma Regroup<T>(a: seq<T>, b: seq<T>, c: seq<T>, d: seq<T>, e: seq<T>)
    ensures (a + b + c) + d + e == a + (b + (c + (d + e)))
  {
  }

  /** u up to i and t from there on, with element i of u put in. */
  lemma PrefixNext<T>(t: seq<T>, u: seq<T>, i: nat)
    requires i < |t| == |u|
    ensures (u[..i] + t[i..])[i := u[i]] == u[..i + 1] + t[i + 1..]
  {
  }

  function Min(a: nat, b: nat): nat { if a < b then a else b }

  /** The bytes a read of n at position p is to deliver. */
  function Slice<T>(image: seq<T>, p: nat, n: nat): (r: seq<T>)
    ensures |r| <= n
  {
    if p >= |image| then [] else image[p..Min(p + n, |image|)]
  }

  /** A slice is as long as asked for and as there is, and has the bytes from its position on. */
  lemma {:induction false} SliceAt<T>(image: seq<T>, p: nat, n: nat, i: nat)
    ensures |Slice(image, p, n)| == if p + n <= |image| then n else if p < |image| then |image| - p else 0
    ensures i < |Slice(image, p, n)| ==> p + i < |image| && Slice(image, p, n)[i] == image[p + i]
  {
  }

  // ---------- reads ----------

  lemma {:induction false} SliceIs<T>(image: seq<T>, p: nat, n: nat, q: nat)
    requires p <= |image| && q == Min(p + n, |image|)
    ensures Slice(image, p, n) == image[p..q]
  {
  }

  /** Reading n bytes and then k bytes gives what one read of n + k bytes gives. */
  lemma {:induction false} SliceSplit<T>(image: seq<T>, p: nat, n: nat, k: nat)
    ensures var first := Slice(image, p, n); first + Slice(image, p + |first|, k) == Slice(image, p, n + k)
  {
    if p < |image| {
      var q, e := Min(p + n, |image|), Min(p + n + k, |image|);
      SliceIs(image, p, n, q);
      assert p + |Slice(image, p, n)| == q;
      SliceIs(image, q, k, e);
      SliceIs(image, p, n + k, e);
      SliceJoin(image, p, q, e);
    }
  }

  function Sum(sizes: seq<nat>): nat {
    if sizes == [] then 0 else sizes[0] + Sum(sizes[1..])
  }

  /** What a sequence of reads of the given sizes delivers, each at the position the last one left. */
  function Reads<T>(image: seq<T>, p: nat, sizes: seq<nat>): seq<T>
    decreases sizes
  {
    if sizes == [] then []
    else
      var first := Slice(image, p, sizes[0]);
      first + Reads(image, p + |first|, sizes[1..])
  }

  lemma {:induction false} FirstRead<T>(image: seq<T>, p: nat, n: nat, k: nat, first: seq<T>, next: nat, rest: seq<T>)
    requires first == Slice(image, p, n) && next == p + |first| && rest == Slice(image, next, k)
    ensures first + rest == Slice(image, p, n + k)
  {
    SliceSplit(image, p, n, k);
  }

  lemma {:induction false} NextRead<T>(image: seq<T>, p: nat, sizes: seq<nat>, first: seq<T>, next: nat, rest: seq<T>)
    requires sizes != [] && first == Slice(image, p, sizes[0]) && next == p + |first|
    requires rest == Reads(image, next, sizes[1..])
    ensures Reads(image, p, sizes) == first + rest
  {
  }

  /** Any split of a read into smaller ones delivers the same bytes. */
  lemma {:induction false} ReadsConcatenate<T>(image: seq<T>, p: nat, sizes: seq<nat>)
    ensures Reads(image, p, sizes) == Slice(image, p, Sum(sizes))
    decreases sizes
  {
    if sizes != [] {
      var first := Slice(image, p, sizes[0]);
      var next := p + |first|;
      var rest := Reads(image, next, sizes[1..]);
      ReadsConcatenate(image, next, sizes[1..]);
      NextRead(image, p, sizes, first, next, rest);
      FirstRead(image, p, sizes[0], Sum(sizes[1..]), first, next, rest);
    }
  }
}
