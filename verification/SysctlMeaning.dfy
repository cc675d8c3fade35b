/**
 * What registering a nested table comes to, entry by entry: which names are registered where,
 * and which paths have to fit into the buffer.
 */
module SysctlMeaning {
  import opened SysctlPath
  import opened SysctlTree
  import opened SysctlTable
  import opened SysctlRegister

  // ---------- what a nested table has where ----------

  /** Table c is at path q below table t. */
  ghost predicate HasTable(t: Table, q: Path, c: Table)
    decreases |q|
  {
    if q == [] then c == t else exists i: nat :: InDir(t, i, q, c)
  }

  ghost predicate InDir(t: Table, i: nat, q: Path, c: Table)
    requires q != []
    decreases |q|, 0
  {
    i < |t| && t[i].Dir? && t[i].name == q[0] && HasTable(t[i].child, q[1..], c)
  }

  predicate FileAt(t: Table, i: nat, name: string) {
    i < |t| && t[i] == File(name)
  }

  /** A file with the name is at path q below table t. */
  ghost predicate HasFile(t: Table, q: Path, name: string) {
    exists c: Table, i: nat :: HasTable(t, q, c) && FileAt(c, i, name)
  }

  /** A table of its own is registered for c: it has a file, or it has no directory. */
  ghost predicate Registers(c: Table) {
    (exists i :: 0 <= i < |c| && c[i].File?) || (forall i :: 0 <= i < |c| ==> c[i].File?)
  }

  // ---------- the names in one table ----------

  /** How often a file with the name is among the first n entries. */
  function Times(c: Table, n: nat, name: string): nat
    requires n <= |c|
  {
    if n == 0 then 0 else Times(c, n - 1, name) + if c[n - 1] == File(name) then 1 else 0
  }

  /** The names registered for one table are those of its files, as often as they are there. */
  lemma {:induction false} FilesTimes(c: Table, n: nat, name: string)
    requires n <= |c|
    ensures multiset(Files(c, n))[name] == Times(c, n, name)
  {
    if n > 0 { FilesTimes(c, n - 1, name); }
  }

  lemma {:induction false} FilesHave(c: Table, n: nat, name: string)
    requires n <= |c|
    ensures name in Files(c, n) <==> exists i :: 0 <= i < n && FileAt(c, i, name)
  {
    if n > 0 {
      FilesHave(c, n - 1, name);
      if c[n - 1] == File(name) { assert FileAt(c, n - 1, name); }
    }
  }

  lemma {:induction false} KindsIn(c: Table, n: nat)
    requires n <= |c|
    ensures Files(c, n) != [] <==> exists i :: 0 <= i < n && c[i].File?
    ensures AnyDir(c, n) <==> exists i :: 0 <= i < n && c[i].Dir?
  {
    if n > 0 { KindsIn(c, n - 1); }
  }

  lemma {:induction false} OwnIs(p: Path, c: Table)
    ensures Own(p, c) == if Registers(c) then [Leaf(p, Files(c, |c|))] else []
  {
    KindsIn(c, |c|);
  }

  // ---------- the tables that are registered ----------

  /** A leaf is one that table c at path q below t gives rise to. */
  ghost predicate LeafOf(p: Path, t: Table, q: Path, c: Table, leaf: Leaf) {
    HasTable(t, q, c) && Registers(c) && leaf == Leaf(p + q, Files(c, |c|))
  }

  /** Each registered table comes from a table that is nested in t. */
  lemma {:induction false} FlatFrom(p: Path, t: Table, leaf: Leaf) returns (q: Path, c: Table)
    requires leaf in Flat(p, t)
    ensures LeafOf(p, t, q, c, leaf)
    decreases t, |t| + 1
  {
    OwnIs(p, t);
    if leaf in Own(p, t) {
      assert p + [] == p;
      return [], t;
    }
    q, c := DirsFrom(p, t, |t|, leaf);
  }

  lemma {:induction false} DirsFrom(p: Path, t: Table, n: nat, leaf: Leaf) returns (q: Path, c: Table)
    requires n <= |t| && leaf in FlatDirs(p, t, n)
    ensures LeafOf(p, t, q, c, leaf)
    decreases t, n
  {
    if leaf in FlatDirs(p, t, n - 1) {
      q, c := DirsFrom(p, t, n - 1, leaf);
    } else {
      var name := t[n - 1].name;
      var r;
      r, c := FlatFrom(p + [name], t[n - 1].child, leaf);
      q := [name] + r;
      assert q[1..] == r && p + [name] + r == p + q;
      assert InDir(t, n - 1, q, c);
    }
  }

  /** And each table nested in t that registers anything is registered. */
  lemma {:induction false} FlatHas(p: Path, t: Table, q: Path, c: Table)
    requires HasTable(t, q, c) && Registers(c)
    ensures Leaf(p + q, Files(c, |c|)) in Flat(p, t)
    decreases |q|
  {
    if q == [] {
      OwnIs(p, t);
      assert p + [] == p;
    } else {
      var i: nat :| InDir(t, i, q, c);
      FlatHas(p + [q[0]], t[i].child, q[1..], c);
      assert p + [q[0]] + q[1..] == p + q;
      DirsHave(p, t, i, |t|, Leaf(p + q, Files(c, |c|)));
    }
  }

  lemma {:induction false} DirsHave(p: Path, t: Table, i: nat, n: nat, leaf: Leaf)
    requires i < n <= |t| && t[i].Dir? && leaf in Flat(p + [t[i].name], t[i].child)
    ensures leaf in FlatDirs(p, t, n)
    decreases n
  {
    if i < n - 1 { DirsHave(p, t, i, n - 1, leaf); }
  }

  /** What is registered is what the nested tables that register anything give rise to. */
  lemma {:induction false} FlatIs(p: Path, t: Table, leaf: Leaf)
    ensures leaf in Flat(p, t) <==> exists q, c :: LeafOf(p, t, q, c, leaf)
  {
    if leaf in Flat(p, t) { var q, c := FlatFrom(p, t, leaf); }
    if q, c :| LeafOf(p, t, q, c, leaf) { FlatHas(p, t, q, c); }
  }

  /** A file name is registered for a path if and only if the nested table has the file there. */
  lemma {:induction false} FileRegistered(p: Path, t: Table, q: Path, name: string)
    ensures (exists leaf :: leaf in Flat(p, t) && leaf.dir == p + q && name in leaf.files) <==> HasFile(t, q, name)
  {
    if leaf :| leaf in Flat(p, t) && leaf.dir == p + q && name in leaf.files {
      var r, c := FlatFrom(p, t, leaf);
      assert (p + r)[|p|..] == r && (p + q)[|p|..] == q;
      FilesHave(c, |c|, name);
    }
    if HasFile(t, q, name) {
      var c: Table, i: nat :| HasTable(t, q, c) && FileAt(c, i, name);
      assert c[i].File?;
      FilesHave(c, |c|, name);
      FlatHas(p, t, q, c);
    }
  }

  // ---------- the tables that are there afterwards ----------

  /** Each of the list is registered under its identity, none of them was used, the rest is as before. */
  lemma {:induction false} GrownIs(before: map<nat, Leaf>, after: map<nat, Leaf>, ids: seq<nat>, list: seq<Leaf>,
                                   k: nat)
    requires Grown(before, after, ids, list)
    ensures k !in ids ==> (k in after <==> k in before) && (k in before ==> after[k] == before[k])
    ensures forall i :: 0 <= i < |ids| && ids[i] == k ==> k !in before && k in after && after[k] == list[i]
    ensures forall i, j :: 0 <= i < j < |ids| && ids[i] == k ==> ids[j] != k
    decreases |ids|
  {
    if ids != [] {
      var next, ids', list' := before[ids[0] := list[0]], ids[1..], list[1..];
      GrownIs(next, after, ids', list', k);
      GrownIs(next, after, ids', list', ids[0]);
      forall i | 0 <= i < |ids| && ids[i] == k ensures k !in before && k in after && after[k] == list[i] {
        if i > 0 { assert ids'[i - 1] == k && list'[i - 1] == list[i]; }
      }
      forall i, j | 0 <= i < j < |ids| && ids[i] == k ensures ids[j] != k {
        assert ids'[j - 1] == ids[j];
        if i > 0 { assert ids'[i - 1] == k; }
      }
    }
  }

  // ---------- the paths that have to fit ----------

  /** The text of the path, with its final slash, leaves room for a terminator and one character more. */
  predicate Short(pos: nat, q: Path) {
    pos + |Text(q)| + 1 < 4096
  }

  /** A directory is at path q below t. */
  ghost predicate HasDir(t: Table, q: Path) {
    q != [] && exists c :: HasTable(t, q, c)
  }

  lemma {:induction false} TextTail(name: string, q: Path)
    ensures |Text([name] + q)| == |name| + 1 + |Text(q)|
  {
    TextFirst([name] + q);
    assert ([name] + q)[1..] == q;
  }

  /** A table fits if and only if the path of each directory in it does. */
  lemma {:induction false} FitsIs(pos: nat, t: Table)
    ensures FitsAll(pos, t, |t|) <==> forall q :: HasDir(t, q) ==> Short(pos, q)
  {
    if FitsAll(pos, t, |t|) {
      forall q | HasDir(t, q) ensures Short(pos, q) {
        var c: Table :| HasTable(t, q, c);
        FitsShort(pos, t, q, c);
      }
    }
    if forall q :: HasDir(t, q) ==> Short(pos, q) { ShortFits(pos, t, |t|); }
  }

  lemma {:induction false} FitsShort(pos: nat, t: Table, q: Path, c: Table)
    requires FitsAll(pos, t, |t|) && q != [] && HasTable(t, q, c)
    ensures Short(pos, q)
    decreases |q|
  {
    var i: nat :| InDir(t, i, q, c);
    FitsPrefix(pos, t, i + 1, |t|);
    var name, rest := q[0], q[1..];
    TextTail(name, rest);
    assert [name] + rest == q;
    if rest == [] {
      assert Text([]) == "";
    } else {
      FitsShort(pos + |name| + 1, t[i].child, rest, c);
    }
  }

  lemma {:induction false} ShortFits(pos: nat, t: Table, n: nat)
    requires n <= |t| && forall q :: HasDir(t, q) ==> Short(pos, q)
    ensures FitsAll(pos, t, n)
    decreases t, n
  {
    if n > 0 {
      ShortFits(pos, t, n - 1);
      if t[n - 1].Dir? {
        var name, child := t[n - 1].name, t[n - 1].child;
        assert [name][1..] == [];
        assert InDir(t, n - 1, [name], child);
        assert HasTable(t, [name], child) && HasDir(t, [name]);
        TextTail(name, []);
        assert [name] + [] == [name] && Text([]) == "";
        forall r | HasDir(child, r) ensures Short(pos + |name| + 1, r) { BelowChild(pos, t, n - 1, r); }
        ShortFits(pos + |name| + 1, child, |child|);
      }
    }
  }

  lemma {:induction false} BelowChild(pos: nat, t: Table, i: nat, r: Path)
    requires i < |t| && t[i].Dir? && HasDir(t[i].child, r) && forall q :: HasDir(t, q) ==> Short(pos, q)
    ensures Short(pos + |t[i].name| + 1, r)
  {
    var c: Table :| HasTable(t[i].child, r, c);
    var q := [t[i].name] + r;
    assert q[1..] == r;
    assert InDir(t, i, q, c);
    assert HasTable(t, q, c) && HasDir(t, q);
    TextTail(t[i].name, r);
  }

  lemma {:induction false} TextJoin(p: Path, q: Path)
    ensures |Text(p + q)| == |Text(p)| + |Text(q)|
  {
    if q == [] {
      assert p + q == p && Text(q) == "";
    } else {
      var front := q[..|q| - 1];
      TextJoin(p, front);
      assert (p + q)[..|p + q| - 1] == p + front;
    }
  }

  lemma {:induction false} PathShort(path: Path, n: nat)
    requires n <= |path|
    ensures PathFits(path, n) <==> forall k :: 1 <= k <= n ==> Short(0, path[..k])
  {
    if n > 0 {
      PathShort(path, n - 1);
      assert path[..n][..n - 1] == path[..n - 1];
    }
  }

  /**
   * A registration succeeds if and only if the text of the given path, of each front part of it
   * and of each directory below it is short enough.
   */
  lemma {:induction false} AllFitsIs(path: Path, t: Table)
    ensures AllFits(path, t)
            <==> (forall k :: 1 <= k <= |path| ==> Short(0, path[..k]))
                 && (forall q :: HasDir(t, q) ==> Short(0, path + q))
  {
    PathShort(path, |path|);
    FitsIs(|Text(path)|, t);
    forall q ensures Short(0, path + q) <==> Short(|Text(path)|, q) { TextJoin(path, q); }
  }
}
