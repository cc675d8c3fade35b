/**
 * Path strings of the sysctl registry (HamielecKarol/cw05/proc/proc_sysctl.c): directory
 * names are joined with '/' in a shared buffer and split again when a table is registered.
 */
module SysctlPath {
  import opened Wrappers
  import Seqs

  const PATH_MAX: nat := 4096

  type Path = seq<string>

  /** A component name, as a C string. */
  predicate ValidName(name: string) {
    name != "" && '/' !in name && '\0' !in name
  }

  predicate ValidPath(p: Path) {
    forall i :: 0 <= i < |p| ==> ValidName(p[i])
  }

  // ---------- splitting ----------

  /** Index of the first c in s from position i on, or |s|. */
  function Find(s: string, c: char, i: nat): (k: nat)
    requires i <= |s|
    ensures i <= k <= |s| && (k < |s| ==> s[k] == c)
    decreases |s| - i
  {
    if i == |s| || s[i] == c then i else Find(s, c, i + 1)
  }

  /** The non-empty components of s. */
  function Split(s: string): Path
    decreases |s|
  {
    var k := Find(s, '/', 0);
    var rest := if k < |s| then Split(s[k + 1..]) else [];
    if k == 0 then rest else [s[..k]] + rest
  }

  /** The names of p, each followed by a slash. */
  function Text(p: Path): string {
    if p == [] then "" else Text(p[..|p| - 1]) + p[|p| - 1] + "/"
  }

  lemma {:induction false} FindIn(s: string, i: nat, k: nat)
    requires i <= k < |s| && s[k] == '/' && forall j :: i <= j < k ==> s[j] != '/'
    ensures Find(s, '/', i) == k
    decreases k - i
  {
    if i < k { FindIn(s, i + 1, k); }
  }

  lemma {:induction false} FindSuffix(s: string, c: char, i: nat, m: nat)
    requires i <= m <= |s|
    ensures Find(s, c, m) == i + Find(s[i..], c, m - i)
    decreases |s| - m
  {
    if m < |s| && s[m] != c { FindSuffix(s, c, i, m + 1); }
  }

  /** The component that starts at i and ends at k, and the rest. */
  lemma {:induction false} SplitNext(s: string, i: nat, k: nat, rest: Path)
    requires i <= |s| && k == Find(s, '/', i) && rest == if k < |s| then Split(s[k + 1..]) else []
    ensures Split(s[i..]) == if k == i then rest else [s[i..k]] + rest
  {
    FindSuffix(s, '/', i, i);
    SuffixParts(s, i, k);
    SplitIs(s[i..], k - i, s[i..k], rest);
  }

  lemma {:induction false} SuffixParts(s: string, i: nat, k: nat)
    requires i <= k <= |s|
    ensures s[i..][..k - i] == s[i..k] && (k < |s| ==> s[i..][k - i + 1..] == s[k + 1..])
  {
  }

  lemma {:induction false} SplitIs(t: string, k: nat, name: string, rest: Path)
    requires k == Find(t, '/', 0) && name == t[..k] && rest == if k < |t| then Split(t[k + 1..]) else []
    ensures Split(t) == if k == 0 then rest else [name] + rest
  {
  }

  lemma {:induction false} SplitFirst(name: string, rest: string)
    requires ValidName(name)
    ensures Split(name + "/" + rest) == [name] + Split(rest)
  {
    var s := name + "/" + rest;
    FindIn(s, 0, |name|);
    assert s[..|name|] == name && s[|name| + 1..] == rest;
  }

  lemma {:induction false} TextFirst(p: Path)
    requires p != []
    ensures Text(p) == p[0] + "/" + Text(p[1..])
  {
    if |p| > 1 {
      var front, rest := p[..|p| - 1], p[1..];
      TextFirst(front);
      assert front[1..] == rest[..|rest| - 1] && front[0] == p[0] && rest[|rest| - 1] == p[|p| - 1];
      Seqs.Associative(p[0] + "/" + Text(front[1..]), p[|p| - 1], "/");
      Seqs.Associative(p[0] + "/", Text(front[1..]), p[|p| - 1] + "/");
      Seqs.Associative(Text(front[1..]), p[|p| - 1], "/");
    } else {
      assert p[1..] == [] && p[..0] == [];
    }
  }

  /** Splitting the built path gives back the component names. */
  lemma {:induction false} SplitText(p: Path)
    requires ValidPath(p)
    ensures Split(Text(p)) == p
  {
    if p != [] {
      TextFirst(p);
      SplitFirst(p[0], Text(p[1..]));
      SplitText(p[1..]);
    }
  }

  lemma {:induction false} TextAppend(p: Path, name: string)
    ensures Text(p + [name]) == Text(p) + name + "/"
  {
    assert (p + [name])[..|p|] == p;
  }

  // ---------- the shared buffer ----------

  /** The C string in a buffer. */
  function CString(b: seq<char>): string {
    b[..Find(b, '\0', 0)]
  }

  /** The buffer holds the text of path p and its terminator, at pos. */
  ghost predicate Holds(b: seq<char>, pos: nat, p: Path) {
    pos < |b| && pos == |Text(p)| && b[..pos] == Text(p) && b[pos] == '\0'
  }

  lemma {:induction false} NoNul(p: Path)
    requires ValidPath(p)
    ensures '\0' !in Text(p)
  {
    if p != [] {
      NoNul(p[..|p| - 1]);
      assert ValidName(p[|p| - 1]);
    }
  }

  lemma {:induction false} FindEnd(b: seq<char>, i: nat, pos: nat)
    requires i <= pos < |b| && b[pos] == '\0' && forall j :: i <= j < pos ==> b[j] != '\0'
    ensures Find(b, '\0', i) == pos
    decreases pos - i
  {
    if i < pos { FindEnd(b, i + 1, pos); }
  }

  lemma {:induction false} HeldString(b: seq<char>, pos: nat, p: Path)
    requires Holds(b, pos, p) && ValidPath(p)
    ensures CString(b) == Text(p)
  {
    NoNul(p);
    forall j | 0 <= j < pos ensures b[j] != '\0' { assert b[j] == Text(p)[j]; }
    FindEnd(b, 0, pos);
  }

  /** What append_path requires of the lengths. */
  predicate Fits(pos: nat, name: string) {
    pos + |name| + 2 < PATH_MAX
  }

  /** append_path: None, with the buffer unchanged, exactly when the name does not fit. */
  method AppendPath(buf: array<char>, pos: nat, name: string, ghost p: Path) returns (next: Option<nat>)
    requires buf.Length == PATH_MAX && Holds(buf[..], pos, p)
    modifies buf
    ensures next.Some? <==> Fits(pos, name)
    ensures next.None? ==> buf[..] == old(buf[..])
    ensures next.Some? ==> next.value == pos + |name| + 1 && Holds(buf[..], next.value, p + [name])
    ensures buf[..pos] == old(buf[..pos])
  {
    var namelen := |name|;
    if pos + namelen + 2 >= PATH_MAX { return None; }
    ghost var was := buf[..];
    var i := 0;
    while i < namelen
      invariant i <= namelen && buf[..pos] == was[..pos] && buf[pos..pos + i] == name[..i]
    {
      buf[pos + i] := name[i];
      i := i + 1;
    }
    buf[pos + namelen] := '/';
    buf[pos + namelen + 1] := '\0';
    TextAppend(p, name);
    assert buf[..pos + namelen + 1] == buf[..pos] + buf[pos..pos + namelen] + ['/'];
    return Some(pos + namelen + 1);
  }

  /** The assignment that gives the buffer back its shorter path. */
  method Cut(buf: array<char>, pos: nat, ghost p: Path)
    requires pos < buf.Length && buf[..pos] == Text(p)
    modifies buf
    ensures Holds(buf[..], pos, p) && buf[..pos] == old(buf[..pos])
  {
    buf[pos] := '\0';
    assert buf[..][..pos] == buf[..pos];
  }
}
