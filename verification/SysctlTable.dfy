/**
 * Nested sysctl tables: count_subheaders, register_leaf_sysctl_tables,
 * __register_sysctl_paths and unregister_sysctl_table.
 */
module SysctlTable {
  import Seqs
  import opened SysctlPath
  import opened SysctlTree

  // A table entry: a file, or a directory with a table of its own.
  datatype Entry = File(name: string) | Dir(name: string, child: seq<Entry>)

  type Table = seq<Entry>

  ghost predicate ValidTable(t: Table) {
    forall i :: 0 <= i < |t| ==> ValidName(t[i].name) && (t[i].Dir? ==> ValidTable(t[i].child))
  }

  // ---------- what a nested table stands for ----------

  // The following look at the first n entries.

  function Files(t: Table, n: nat): seq<string>
    requires n <= |t|
  {
    if n == 0 then [] else if t[n - 1].File? then Files(t, n - 1) + [t[n - 1].name] else Files(t, n - 1)
  }

  predicate AnyDir(t: Table, n: nat)
    requires n <= |t|
  {
    n > 0 && (t[n - 1].Dir? || AnyDir(t, n - 1))
  }

  /** The tables to register for t at path p: its own files first, then those of its directories. */
  function Flat(p: Path, t: Table): seq<Leaf>
    decreases t, |t| + 1
  {
    Own(p, t) + FlatDirs(p, t, |t|)
  }

  /** A table is registered for t itself unless it holds directories only. */
  function Own(p: Path, t: Table): seq<Leaf> {
    if Files(t, |t|) != [] || !AnyDir(t, |t|) then [Leaf(p, Files(t, |t|))] else []
  }

  function FlatDirs(p: Path, t: Table, n: nat): seq<Leaf>
    requires n <= |t|
    decreases t, n
  {
    if n == 0 then []
    else if t[n - 1].Dir? then FlatDirs(p, t, n - 1) + Flat(p + [t[n - 1].name], t[n - 1].child)
    else FlatDirs(p, t, n - 1)
  }

  function Count(t: Table): nat
    decreases t, |t| + 1
  {
    if t == [] then 1 else CountDirs(t, |t|) + if Files(t, |t|) != [] then 1 else 0
  }

  function CountDirs(t: Table, n: nat): nat
    requires n <= |t|
    decreases t, n
  {
    if n == 0 then 0
    else if t[n - 1].Dir? then CountDirs(t, n - 1) + Count(t[n - 1].child)
    else CountDirs(t, n - 1)
  }

  lemma {:induction false} NothingElse(t: Table, n: nat)
    requires n <= |t| && !AnyDir(t, n)
    ensures |Files(t, n)| == n && CountDirs(t, n) == 0
  {
    if n > 0 { NothingElse(t, n - 1); }
  }

  /** count_subheaders counts exactly the tables that will be registered. */
  lemma {:induction false} CountIsFlat(p: Path, t: Table)
    ensures |Flat(p, t)| == Count(t) >= 1
    decreases t, |t| + 1
  {
    CountDirsIsFlat(p, t, |t|);
    if !AnyDir(t, |t|) { NothingElse(t, |t|); }
  }

  lemma {:induction false} CountDirsIsFlat(p: Path, t: Table, n: nat)
    requires n <= |t|
    ensures |FlatDirs(p, t, n)| == CountDirs(t, n)
    ensures AnyDir(t, n) ==> CountDirs(t, n) >= 1
    decreases t, n
  {
    if n > 0 {
      CountDirsIsFlat(p, t, n - 1);
      if t[n - 1].Dir? { CountIsFlat(p + [t[n - 1].name], t[n - 1].child); }
    }
  }

  /** One entry that is a directory. */
  predicate Single(t: Table) { |t| == 1 && t[0].Dir? }

  lemma {:induction false} ManyDirs(t: Table, n: nat)
    requires n <= |t|
    ensures |Files(t, n)| + CountDirs(t, n) >= n
    ensures AnyDir(t, n) ==> CountDirs(t, n) >= 1
    decreases n
  {
    if n > 0 {
      ManyDirs(t, n - 1);
      if t[n - 1].Dir? { CountIsFlat([], t[n - 1].child); }
    }
  }

  /** Once the single-child descent has stopped, a count of one means that no directory is left. */
  lemma {:induction false} OneMeansFiles(p: Path, t: Table)
    requires Count(t) == 1 && !Single(t)
    ensures !AnyDir(t, |t|) && Flat(p, t) == [Leaf(p, Files(t, |t|))]
  {
    ManyDirs(t, |t|);
    CountIsFlat(p, t);
  }

  /** The descent changes nothing in what is registered. */
  lemma {:induction false} DescentKeeps(p: Path, t: Table)
    requires Single(t)
    ensures Flat(p, t) == Flat(p + [t[0].name], t[0].child) && Count(t) == Count(t[0].child)
  {
    assert Files(t, 1) == Files(t, 0) == [];
    assert FlatDirs(p, t, 1) == FlatDirs(p, t, 0) + Flat(p + [t[0].name], t[0].child);
    assert CountDirs(t, 1) == CountDirs(t, 0) + Count(t[0].child);
  }

  /** All paths below position pos of the buffer fit into it. */
  predicate FitsAll(pos: nat, t: Table, n: nat)
    requires n <= |t|
    decreases t, n
  {
    n == 0 || (FitsAll(pos, t, n - 1)
               && (t[n - 1].Dir? ==>
                     Fits(pos, t[n - 1].name)
                     && FitsAll(pos + |t[n - 1].name| + 1, t[n - 1].child, |t[n - 1].child|)))
  }

  lemma {:induction false} FitsPrefix(pos: nat, t: Table, i: nat, n: nat)
    requires i <= n <= |t| && FitsAll(pos, t, n)
    ensures FitsAll(pos, t, i)
    decreases n
  {
    if i < n { FitsPrefix(pos, t, i, n - 1); }
  }

  /** count_subheaders. */
  method CountSubheaders(t: Table) returns (n: nat)
    ensures n == Count(t)
    decreases t
  {
    if t == [] { return 1; }
    var hasFiles := 0;
    n := 0;
    var i := 0;
    while i < |t|
      invariant i <= |t| && n == CountDirs(t, i) && hasFiles == if Files(t, i) != [] then 1 else 0
    {
      if t[i].Dir? {
        var sub := CountSubheaders(t[i].child);
        n := n + sub;
      } else {
        hasFiles := 1;
      }
      i := i + 1;
    }
    n := n + hasFiles;
  }

  // ---------- sets of registered tables ----------

  /** tables with list registered under the given identities. */
  function Added(tables: map<nat, Leaf>, ids: seq<nat>, list: seq<Leaf>): map<nat, Leaf>
    requires |ids| == |list|
    decreases |ids|
  {
    if ids == [] then tables
    else Added(tables[ids[0] := list[0]], ids[1..], list[1..])
  }

  ghost predicate FreshIds(tables: map<nat, Leaf>, ids: seq<nat>, list: seq<Leaf>)
    requires |ids| == |list|
    decreases |ids|
  {
    ids == [] || (ids[0] !in tables && FreshIds(tables[ids[0] := list[0]], ids[1..], list[1..]))
  }

  /** after is before plus list, registered under new identities. */
  ghost predicate Grown(before: map<nat, Leaf>, after: map<nat, Leaf>, ids: seq<nat>, list: seq<Leaf>) {
    |ids| == |list| && FreshIds(before, ids, list) && after == Added(before, ids, list)
  }

  lemma {:induction false} GrownTwice(a: map<nat, Leaf>, b: map<nat, Leaf>, c: map<nat, Leaf>,
                                      ids: seq<nat>, list: seq<Leaf>, ids2: seq<nat>, list2: seq<Leaf>)
    requires Grown(a, b, ids, list) && Grown(b, c, ids2, list2)
    ensures Grown(a, c, ids + ids2, list + list2)
    decreases |ids|
  {
    if ids == [] {
      assert ids + ids2 == ids2 && list + list2 == list2;
    } else {
      GrownTwice(a[ids[0] := list[0]], b, c, ids[1..], list[1..], ids2, list2);
      assert (ids + ids2)[1..] == ids[1..] + ids2 && (list + list2)[1..] == list[1..] + list2;
    }
  }

  /** tables without the given identities. */
  function Without(tables: map<nat, Leaf>, ids: seq<nat>): map<nat, Leaf> {
    if ids == [] then tables else Without(tables, ids[1..]) - {ids[0]}
  }

  lemma {:induction false} AddedKeeps(tables: map<nat, Leaf>, ids: seq<nat>, list: seq<Leaf>, k: nat)
    requires |ids| == |list| && FreshIds(tables, ids, list)
    ensures k in tables ==> k !in ids && k in Added(tables, ids, list)
    ensures k in ids ==> k in Added(tables, ids, list)
    decreases |ids|
  {
    if ids != [] {
      AddedKeeps(tables[ids[0] := list[0]], ids[1..], list[1..], k);
      AddedKeeps(tables[ids[0] := list[0]], ids[1..], list[1..], ids[0]);
    }
  }

  /** Taking away what was added gives back the tables from before. */
  lemma {:induction false} GrownBack(before: map<nat, Leaf>, after: map<nat, Leaf>, ids: seq<nat>, list: seq<Leaf>)
    requires Grown(before, after, ids, list)
    ensures Without(after, ids) == before
    decreases |ids|
  {
    if ids != [] {
      GrownBack(before[ids[0] := list[0]], after, ids[1..], list[1..]);
      assert before[ids[0] := list[0]] - {ids[0]} == before;
    }
  }

  /** The identities are distinct and registered. */
  ghost predicate Live(tables: map<nat, Leaf>, ids: seq<nat>) {
    ids == [] || (Live(tables, ids[1..]) && ids[0] in Without(tables, ids[1..]))
  }

  lemma {:induction false} GrownLive(before: map<nat, Leaf>, after: map<nat, Leaf>, ids: seq<nat>, list: seq<Leaf>)
    requires Grown(before, after, ids, list)
    ensures Live(after, ids)
    decreases |ids|
  {
    if ids != [] {
      GrownLive(before[ids[0] := list[0]], after, ids[1..], list[1..]);
      GrownBack(before[ids[0] := list[0]], after, ids[1..], list[1..]);
    }
  }

  // ---------- headers ----------

  // A registration: the table it was made from, and either one registered table or sub-headers.
  datatype Header = Header(arg: Table, id: nat, subs: seq<Header>)

  function Ids(hs: seq<Header>): (r: seq<nat>)
    ensures |r| == |hs|
  {
    if hs == [] then [] else [hs[0].id] + Ids(hs[1..])
  }

  /** Each is for one registered table. */
  ghost predicate Ones(hs: seq<Header>) {
    forall i :: 0 <= i < |hs| ==> Count(hs[i].arg) == 1
  }

  lemma {:induction false} IdsAppend(a: seq<Header>, b: seq<Header>)
    ensures Ids(a + b) == Ids(a) + Ids(b)
  {
    if a == [] {
      assert a + b == b && Ids(a) + Ids(b) == Ids(b);
    } else {
      var c := a + b;
      assert c[0] == a[0] && c[1..] == a[1..] + b;
      IdsAppend(a[1..], b);
      Seqs.Associative([a[0].id], Ids(a[1..]), Ids(b));
    }
  }

  // The registered tables before and after, the sub-headers made in between, and what they stand for.
  datatype Walk = Walk(before: map<nat, Leaf>, after: map<nat, Leaf>, subs: seq<Header>, done: seq<Leaf>)

  /** The sub-headers stand for what has been registered. */
  ghost predicate Stored(w: Walk) {
    match w case Walk(before, after, subs, done) => Ones(subs) && Grown(before, after, Ids(subs), done)
  }

  lemma {:induction false} StoredTwice(a: map<nat, Leaf>, b: map<nat, Leaf>, c: map<nat, Leaf>, subs: seq<Header>,
                                       list: seq<Leaf>, subs2: seq<Header>, list2: seq<Leaf>)
    requires Stored(Walk(a, b, subs, list)) && Stored(Walk(b, c, subs2, list2))
    ensures Stored(Walk(a, c, subs + subs2, list + list2))
  {
    IdsAppend(subs, subs2);
    GrownTwice(a, b, c, Ids(subs), list, Ids(subs2), list2);
  }

  lemma {:induction false} StoredOne(before: map<nat, Leaf>, h: Header, leaf: Leaf)
    requires Count(h.arg) == 1 && h.id !in before
    ensures Stored(Walk(before, before[h.id := leaf], [h], [leaf]))
  {
    assert Ids([h]) == [h.id] + Ids([]);
    assert [h.id][1..] == [] && [leaf][1..] == [];
    assert Added(before[h.id := leaf], [], []) == before[h.id := leaf];
  }

  // ---------- registration ----------

  /** The copy of a mixed table with its files only. */
  function OnlyFiles(t: Table, n: nat): Table
    requires n <= |t|
  {
    if n == 0 then [] else if t[n - 1].File? then OnlyFiles(t, n - 1) + [t[n - 1]] else OnlyFiles(t, n - 1)
  }

  lemma {:induction false} FilesPrefix(a: Table, e: Entry, n: nat)
    requires n <= |a|
    ensures Files(a + [e], n) == Files(a, n) && AnyDir(a + [e], n) == AnyDir(a, n)
  {
    if n > 0 { FilesPrefix(a, e, n - 1); }
  }

  lemma {:induction false} OnlyFilesFiles(t: Table, n: nat)
    requires n <= |t|
    ensures var f := OnlyFiles(t, n); Files(f, |f|) == Files(t, n) && !AnyDir(f, |f|)
  {
    if n > 0 {
      OnlyFilesFiles(t, n - 1);
      var f := OnlyFiles(t, n - 1);
      if t[n - 1].File? { FilesPrefix(f, t[n - 1], |f|); }
    }
  }

  lemma {:induction false} FilesCountOne(t: Table)
    requires !AnyDir(t, |t|)
    ensures Count(t) == 1
  {
    NothingElse(t, |t|);
  }

  method CopyFiles(t: Table) returns (files: Table)
    ensures files == OnlyFiles(t, |t|)
  {
    files := [];
    var i := 0;
    while i < |t|
      invariant i <= |t| && files == OnlyFiles(t, i)
    {
      if t[i].File? { files := files + [t[i]]; }
      i := i + 1;
    }
  }

  method CountKinds(t: Table) returns (nrFiles: nat, nrDirs: nat)
    ensures (nrFiles > 0 <==> Files(t, |t|) != []) && (nrDirs > 0 <==> AnyDir(t, |t|))
  {
    nrFiles, nrDirs := 0, 0;
    var i := 0;
    while i < |t|
      invariant i <= |t| && (nrFiles > 0 <==> Files(t, i) != []) && (nrDirs > 0 <==> AnyDir(t, i))
    {
      if t[i].Dir? { nrDirs := nrDirs + 1; } else { nrFiles := nrFiles + 1; }
      i := i + 1;
    }
  }

  /** The first half of register_leaf_sysctl_tables: the table's own files. */
  method RegisterOwn(reg: Registry, path: string, subheaders: array<Header>, at: nat, t: Table, ghost p: Path)
    returns (cursor: nat)
    requires reg.Valid() && Split(path) == p && at + Count(t) <= subheaders.Length
    modifies reg, subheaders
    ensures reg.Valid() && reg.held == old(reg.held) && subheaders[..at] == old(subheaders[..at])
    ensures cursor == at + |Own(p, t)| <= subheaders.Length
    ensures Stored(Walk(old(reg.leaves), reg.leaves, subheaders[at..cursor], Own(p, t)))
  {
    var nrFiles, nrDirs := CountKinds(t);
    var files, arg := t, [];
    CountIsFlat(p, t);
    if nrFiles > 0 && nrDirs > 0 {
      files := CopyFiles(t);
      arg := files;
      OnlyFilesFiles(t, |t|);
    }
    if nrFiles > 0 || nrDirs == 0 {
      var id := reg.RegisterTable(path, Files(files, |files|));
      FilesCountOne(arg);
      subheaders[at] := Header(arg, id, []);
      StoredOne(old(reg.leaves), Header(arg, id, []), Leaf(p, Files(t, |t|)));
      assert subheaders[at..at + 1] == [Header(arg, id, [])];
      return at + 1;
    }
    assert subheaders[at..at] == [];
    return at;
  }
}
