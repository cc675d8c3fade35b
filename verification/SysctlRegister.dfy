/**
 * Registering and unregistering nested sysctl tables: the recursion over the shared path
 * buffer and the array of sub-headers.
 */
module SysctlRegister {
  import opened Wrappers
  import Seqs
  import opened SysctlPath
  import opened SysctlTree
  import opened SysctlTable

  const ENAMETOOLONG: int := 36

  lemma {:induction false} FlatPrefix(p: Path, t: Table, i: nat, n: nat)
    requires i <= n <= |t|
    ensures FlatDirs(p, t, i) <= FlatDirs(p, t, n) && CountDirs(t, i) <= CountDirs(t, n)
    decreases n
  {
    if i < n { FlatPrefix(p, t, i, n - 1); }
  }

  lemma {:induction false} RoomForChild(t: Table, i: nat)
    requires i < |t| && t[i].Dir?
    ensures |Own([], t)| + CountDirs(t, i) + Count(t[i].child) <= Count(t)
  {
    FlatPrefix([], t, i + 1, |t|);
    CountIsFlat([], t);
    CountDirsIsFlat([], t, |t|);
  }

  lemma {:induction false} DonePrefix(p: Path, t: Table, i: nat, more: seq<Leaf>)
    requires i < |t| && t[i].Dir? && more <= Flat(p + [t[i].name], t[i].child)
    ensures Own(p, t) + FlatDirs(p, t, i) + more <= Flat(p, t)
  {
    var sub := Flat(p + [t[i].name], t[i].child);
    FlatPrefix(p, t, i + 1, |t|);
    assert FlatDirs(p, t, i) + more <= FlatDirs(p, t, i + 1) by {
      assert sub == more + sub[|more|..];
    }
  }

  /** The turn of the recursion for one directory entry. */
  method RegisterChild(reg: Registry, buf: array<char>, pos: nat, subheaders: array<Header>, at: nat,
                       name: string, child: Table, ghost p: Path)
    returns (err: int, cursor: nat, ghost subs: seq<Header>, ghost done: seq<Leaf>)
    requires reg.Valid() && buf.Length == PATH_MAX && Holds(buf[..], pos, p) && ValidPath(p)
    requires ValidName(name) && ValidTable(child) && at + Count(child) <= subheaders.Length
    modifies reg, buf, subheaders
    ensures reg.Valid() && reg.held == old(reg.held) && Holds(buf[..], pos, p)
    ensures err == 0 <==> Fits(pos, name) && FitsAll(pos + |name| + 1, child, |child|)
    ensures at <= cursor <= at + Count(child) && subheaders[..at] == old(subheaders[..at])
    ensures subheaders[at..cursor] == subs && Stored(Walk(old(reg.leaves), reg.leaves, subs, done))
    ensures done <= Flat(p + [name], child) && (err == 0 ==> done == Flat(p + [name], child))
    decreases child, 2
  {
    var next := AppendPath(buf, pos, name, p);
    if next.None? {
      assert subheaders[at..at] == [];
      return -ENAMETOOLONG, at, [], [];
    }
    ghost var text := buf[..pos];
    err, cursor, subs, done := RegisterLeafTables(reg, buf, next.value, subheaders, at, child, p + [name]);
    TextAppend(p, name);
    assert buf[..pos] == buf[..][..next.value][..pos] == Text(p);
    Cut(buf, pos, p);
  }

  /** The own files and the first i entries of t are registered; subs are their headers. */
  ghost predicate Walked(w: Walk, p: Path, t: Table, pos: nat, i: nat) {
    match w
    case Walk(before, after, subs, done) =>
      && i <= |t| && done == Own(p, t) + FlatDirs(p, t, i) && FitsAll(pos, t, i)
      && |subs| == |Own(p, t)| + CountDirs(t, i)
      && Stored(w)
  }

  lemma {:induction false} WalkedFile(before: map<nat, Leaf>, after: map<nat, Leaf>, subs: seq<Header>, done: seq<Leaf>,
                                      p: Path, t: Table, pos: nat, i: nat)
    requires Walked(Walk(before, after, subs, done), p, t, pos, i) && i < |t| && t[i].File?
    ensures Walked(Walk(before, after, subs, done), p, t, pos, i + 1)
  {
  }

  lemma {:induction false} FlatNext(p: Path, t: Table, i: nat, more: seq<Leaf>)
    requires i < |t| && t[i].Dir? && more == Flat(p + [t[i].name], t[i].child)
    ensures Own(p, t) + FlatDirs(p, t, i) + more == Own(p, t) + FlatDirs(p, t, i + 1)
    ensures CountDirs(t, i + 1) == CountDirs(t, i) + |more|
  {
    Seqs.Associative(Own(p, t), FlatDirs(p, t, i), more);
    CountIsFlat(p + [t[i].name], t[i].child);
  }

  lemma {:induction false} WalkedDir(before: map<nat, Leaf>, mid: map<nat, Leaf>, after: map<nat, Leaf>,
                                     subs: seq<Header>, done: seq<Leaf>, subs2: seq<Header>, more: seq<Leaf>,
                                     p: Path, t: Table, pos: nat, i: nat)
    requires Walked(Walk(before, mid, subs, done), p, t, pos, i) && i < |t| && t[i].Dir?
    requires Stored(Walk(mid, after, subs2, more)) && more <= Flat(p + [t[i].name], t[i].child)
    ensures Stored(Walk(before, after, subs + subs2, done + more)) && done + more <= Flat(p, t)
    ensures FitsAll(pos, t, i + 1) && more == Flat(p + [t[i].name], t[i].child)
            ==> Walked(Walk(before, after, subs + subs2, done + more), p, t, pos, i + 1)
  {
    StoredTwice(before, mid, after, subs, done, subs2, more);
    DonePrefix(p, t, i, more);
    if more == Flat(p + [t[i].name], t[i].child) { FlatNext(p, t, i, more); }
  }

  lemma {:induction false} PartSize(p: Path, t: Table, before: map<nat, Leaf>, after: map<nat, Leaf>,
                                    subs: seq<Header>, done: seq<Leaf>)
    requires Stored(Walk(before, after, subs, done)) && done <= Flat(p, t)
    ensures |subs| <= Count(t)
  {
    CountIsFlat(p, t);
  }

  /** The first half of register_leaf_sysctl_tables. */
  method StartTable(reg: Registry, buf: array<char>, pos: nat, subheaders: array<Header>, at: nat, t: Table,
                    ghost p: Path)
    returns (cursor: nat, ghost subs: seq<Header>, ghost done: seq<Leaf>)
    requires reg.Valid() && Holds(buf[..], pos, p) && ValidPath(p) && at + Count(t) <= subheaders.Length
    modifies reg, subheaders
    ensures reg.Valid() && reg.held == old(reg.held) && subheaders[..at] == old(subheaders[..at])
    ensures at <= cursor <= subheaders.Length && subheaders[at..cursor] == subs
    ensures Walked(Walk(old(reg.leaves), reg.leaves, subs, done), p, t, pos, 0)
  {
    HeldString(buf[..], pos, p);
    SplitText(p);
    cursor := RegisterOwn(reg, CString(buf[..]), subheaders, at, t, p);
    subs, done := subheaders[at..cursor], Own(p, t);
    assert done + FlatDirs(p, t, 0) == done;
  }

  lemma {:induction false} JoinSlices(a: array<Header>, front: seq<Header>, at: nat, mid: nat, end: nat,
                                      x: seq<Header>, y: seq<Header>)
    requires at <= mid <= end <= a.Length && front == a[..mid] && front[at..] == x && a[mid..end] == y
    ensures a[..at] == front[..at] && a[at..end] == x + y
  {
  }

  /** RegisterChild behind the sub-headers subs0 that are already there from `at` on. */
  method RegisterBehind(reg: Registry, buf: array<char>, pos: nat, subheaders: array<Header>, at: nat, cursor0: nat,
                        name: string, child: Table, ghost p: Path, ghost subs0: seq<Header>)
    returns (err: int, cursor: nat, ghost subs: seq<Header>, ghost done: seq<Leaf>)
    requires reg.Valid() && buf.Length == PATH_MAX && Holds(buf[..], pos, p) && ValidPath(p)
    requires ValidName(name) && ValidTable(child) && cursor0 + Count(child) <= subheaders.Length
    requires at <= cursor0 && subheaders[at..cursor0] == subs0
    modifies reg, buf, subheaders
    ensures reg.Valid() && reg.held == old(reg.held) && Holds(buf[..], pos, p)
    ensures err == 0 <==> Fits(pos, name) && FitsAll(pos + |name| + 1, child, |child|)
    ensures cursor0 <= cursor <= cursor0 + Count(child) && subheaders[..at] == old(subheaders[..at])
    ensures subheaders[at..cursor] == subs0 + subs && Stored(Walk(old(reg.leaves), reg.leaves, subs, done))
    ensures done <= Flat(p + [name], child) && (err == 0 ==> done == Flat(p + [name], child))
    decreases child, 3
  {
    ghost var front := subheaders[..cursor0];
    assert front[..at] == subheaders[..at] && front[at..] == subs0;
    err, cursor, subs, done := RegisterChild(reg, buf, pos, subheaders, cursor0, name, child, p);
    JoinSlices(subheaders, front, at, cursor0, cursor, subs0, subs);
  }

  /** The turn of the loop for entry i, a directory. */
  method RegisterEntry(reg: Registry, buf: array<char>, pos: nat, subheaders: array<Header>, at: nat, cursor0: nat,
                       t: Table, i: nat, ghost p: Path, ghost before: map<nat, Leaf>,
                       ghost subs0: seq<Header>, ghost done0: seq<Leaf>)
    returns (err: int, cursor: nat, ghost subs: seq<Header>, ghost done: seq<Leaf>)
    requires reg.Valid() && buf.Length == PATH_MAX && Holds(buf[..], pos, p) && ValidPath(p)
    requires ValidTable(t) && at + Count(t) <= subheaders.Length && i < |t| && t[i].Dir?
    requires at <= cursor0 <= subheaders.Length && subheaders[at..cursor0] == subs0
    requires Walked(Walk(before, reg.leaves, subs0, done0), p, t, pos, i)
    modifies reg, buf, subheaders
    ensures reg.Valid() && reg.held == old(reg.held) && Holds(buf[..], pos, p)
    ensures at <= cursor <= subheaders.Length && subheaders[..at] == old(subheaders[..at])
    ensures subheaders[at..cursor] == subs && Stored(Walk(before, reg.leaves, subs, done)) && done <= Flat(p, t)
    ensures err == 0 ==> Walked(Walk(before, reg.leaves, subs, done), p, t, pos, i + 1)
    ensures err != 0 ==> !FitsAll(pos, t, |t|)
    decreases t, 0
  {
    ghost var mid := reg.leaves;
    ghost var subs2, more;
    WalkedRoom(before, mid, subs0, done0, p, t, pos, i);
    err, cursor, subs2, more :=
      RegisterBehind(reg, buf, pos, subheaders, at, cursor0, t[i].name, t[i].child, p, subs0);
    subs, done := subs0 + subs2, done0 + more;
    WalkedDir(before, mid, reg.leaves, subs0, done0, subs2, more, p, t, pos, i);
    if err != 0 { NotAllFit(pos, t, i); }
  }

  lemma {:induction false} WalkedRoom(before: map<nat, Leaf>, after: map<nat, Leaf>, subs: seq<Header>, done: seq<Leaf>,
                                      p: Path, t: Table, pos: nat, i: nat)
    requires Walked(Walk(before, after, subs, done), p, t, pos, i) && i < |t| && t[i].Dir?
    ensures |subs| + Count(t[i].child) <= Count(t)
  {
    RoomForChild(t, i);
    assert |Own([], t)| == |Own(p, t)|;
  }

  /**
   * register_leaf_sysctl_tables: registers exactly the tables that t stands for at path p, in
   * order, and stores their headers; if a path gets too long, a first part of them.
   */
  method RegisterLeafTables(reg: Registry, buf: array<char>, pos: nat, subheaders: array<Header>, at: nat,
                            t: Table, ghost p: Path)
    returns (err: int, cursor: nat, ghost subs: seq<Header>, ghost done: seq<Leaf>)
    requires reg.Valid() && buf.Length == PATH_MAX && Holds(buf[..], pos, p) && ValidPath(p)
    requires ValidTable(t) && at + Count(t) <= subheaders.Length
    modifies reg, buf, subheaders
    ensures reg.Valid() && reg.held == old(reg.held) && Holds(buf[..], pos, p)
    ensures err == 0 <==> FitsAll(pos, t, |t|)
    ensures at <= cursor <= at + Count(t) && subheaders[..at] == old(subheaders[..at])
    ensures subheaders[at..cursor] == subs && Stored(Walk(old(reg.leaves), reg.leaves, subs, done))
    ensures done <= Flat(p, t) && (err == 0 ==> done == Flat(p, t))
    decreases t, 1
  {
    ghost var before := reg.leaves;
    cursor, subs, done := StartTable(reg, buf, pos, subheaders, at, t, p);
    var i := 0;
    while i < |t|
      invariant i <= |t| && reg.Valid() && reg.held == old(reg.held) && Holds(buf[..], pos, p)
      invariant at <= cursor <= subheaders.Length && subheaders[..at] == old(subheaders[..at])
      invariant subheaders[at..cursor] == subs && Walked(Walk(before, reg.leaves, subs, done), p, t, pos, i)
    {
      if t[i].Dir? {
        err, cursor, subs, done := RegisterEntry(reg, buf, pos, subheaders, at, cursor, t, i, p, before, subs, done);
        if err != 0 {
          PartSize(p, t, before, reg.leaves, subs, done);
          return;
        }
      } else {
        WalkedFile(before, reg.leaves, subs, done, p, t, pos, i);
      }
      i := i + 1;
    }
    PartSize(p, t, before, reg.leaves, subs, done);
    return 0, cursor, subs, done;
  }

  lemma {:induction false} NotAllFit(pos: nat, t: Table, i: nat)
    requires i < |t| && !FitsAll(pos, t, i + 1)
    ensures !FitsAll(pos, t, |t|)
  {
    if FitsAll(pos, t, |t|) { FitsPrefix(pos, t, i + 1, |t|); }
  }

  // ---------- unregistration ----------

  /** The identities of the tables that a registration stands for. */
  function IdsOf(h: Header): seq<nat> {
    if Count(h.arg) > 1 then Ids(h.subs) else [h.id]
  }

  /** What registration returns. */
  ghost predicate ValidHeader(h: Header) {
    Count(h.arg) > 1 ==> |h.subs| == Count(h.arg) && Ones(h.subs)
  }

  lemma {:induction false} LiveSuffix(tables: map<nat, Leaf>, hs: seq<Header>, i: nat)
    requires Live(tables, Ids(hs)) && i <= |hs|
    ensures Live(tables, Ids(hs[i..]))
    decreases |hs|
  {
    if i == 0 { assert hs[0..] == hs; } else {
      assert Ids(hs)[1..] == Ids(hs[1..]);
      LiveSuffix(tables, hs[1..], i - 1);
      assert hs[1..][i - 1..] == hs[i..];
    }
  }

  lemma {:induction false} LastOne(tables: map<nat, Leaf>, hs: seq<Header>, i: nat)
    requires Live(tables, Ids(hs)) && i < |hs|
    ensures hs[i].id in Without(tables, Ids(hs[i + 1..]))
    ensures Without(tables, Ids(hs[i + 1..])) - {hs[i].id} == Without(tables, Ids(hs[i..]))
  {
    LiveSuffix(tables, hs, i);
    assert hs[i..][1..] == hs[i + 1..];
    assert Ids(hs[i..])[1..] == Ids(hs[i + 1..]);
  }

  /** Sub-headers are unregistered from the last to the first. */
  method UnregisterAll(reg: Registry, hs: seq<Header>)
    requires reg.Valid() && Ones(hs) && Live(reg.leaves, Ids(hs))
    modifies reg
    ensures reg.Valid() && reg.held == old(reg.held) && reg.leaves == Without(old(reg.leaves), Ids(hs))
    decreases hs
  {
    ghost var before := reg.leaves;
    assert hs[|hs|..] == [];
    var i: nat := |hs|;
    while i > 0
      invariant i <= |hs| && reg.Valid() && reg.held == old(reg.held) && reg.leaves == Without(before, Ids(hs[i..]))
    {
      i := i - 1;
      LastOne(before, hs, i);
      LiveOne(reg.leaves, hs[i]);
      UnregisterTable(reg, hs[i]);
    }
    assert hs[0..] == hs;
  }

  lemma {:induction false} LiveOne(tables: map<nat, Leaf>, h: Header)
    requires Count(h.arg) == 1 && h.id in tables
    ensures IdsOf(h) == [h.id] && Live(tables, [h.id]) && Without(tables, [h.id]) == tables - {h.id}
  {
    assert [h.id][1..] == [];
    assert Without(tables, []) == tables;
  }

  /** unregister_sysctl_table: exactly the tables of this registration go. */
  method UnregisterTable(reg: Registry, h: Header)
    requires reg.Valid() && ValidHeader(h) && Live(reg.leaves, IdsOf(h))
    modifies reg
    ensures reg.Valid() && reg.held == old(reg.held) && reg.leaves == Without(old(reg.leaves), IdsOf(h))
    decreases h
  {
    var nr := CountSubheaders(h.arg);
    if nr > 1 {
      UnregisterAll(reg, h.subs);
      return;
    }
    CountIsFlat([], h.arg);
    assert [h.id][1..] == [] && Without(reg.leaves, []) == reg.leaves;
    LiveOne(reg.leaves, h);
    reg.DropTable(h.id);
  }

  // ---------- __register_sysctl_paths ----------

  predicate PathFits(path: Path, n: nat)
    requires n <= |path|
  {
    n == 0 || (PathFits(path, n - 1) && Fits(|Text(path[..n - 1])|, path[n - 1]))
  }

  lemma {:induction false} PathFitsPrefix(path: Path, i: nat, n: nat)
    requires i <= n <= |path| && PathFits(path, n)
    ensures PathFits(path, i)
    decreases n
  {
    if i < n { PathFitsPrefix(path, i, n - 1); }
  }

  /** The components of the given path. */
  method BuildPath(buf: array<char>, path: Path) returns (pos: Option<nat>)
    requires buf.Length == PATH_MAX && ValidPath(path)
    modifies buf
    ensures pos.Some? <==> PathFits(path, |path|)
    ensures pos.Some? ==> Holds(buf[..], pos.value, path)
  {
    buf[0] := '\0';
    var at, i := 0, 0;
    while i < |path|
      invariant i <= |path| && PathFits(path, i) && Holds(buf[..], at, path[..i])
    {
      var next := AppendPath(buf, at, path[i], path[..i]);
      assert path[..i] + [path[i]] == path[..i + 1];
      if next.None? {
        if PathFits(path, |path|) { PathFitsPrefix(path, i + 1, |path|); }
        return None;
      }
      at := next.value;
      i := i + 1;
    }
    assert path[..i] == path;
    return Some(at);
  }

  /** t at p, with the buffer at pos, stands for the same tables as t0 at p0. */
  ghost predicate SameMeaning(p0: Path, t0: Table, pos0: nat, p: Path, t: Table, pos: nat) {
    && Flat(p, t) == Flat(p0, t0) && Count(t) == Count(t0)
    && (FitsAll(pos, t, |t|) <==> FitsAll(pos0, t0, |t0|))
  }

  lemma {:induction false} DescentFits(p: Path, t: Table, pos: nat)
    requires Single(t)
    ensures FitsAll(pos, t, 1) <==> Fits(pos, t[0].name) && FitsAll(pos + |t[0].name| + 1, t[0].child, |t[0].child|)
  {
    assert FitsAll(pos, t, 0);
  }

  /** The single-child descent. */
  method Descend(buf: array<char>, pos0: nat, t0: Table, ghost p0: Path)
    returns (pos: Option<nat>, t: Table, ghost p: Path)
    requires buf.Length == PATH_MAX && Holds(buf[..], pos0, p0) && ValidPath(p0) && ValidTable(t0)
    modifies buf
    ensures pos.None? ==> !FitsAll(pos0, t0, |t0|)
    ensures pos.Some? ==> Holds(buf[..], pos.value, p) && SameMeaning(p0, t0, pos0, p, t, pos.value)
    ensures ValidPath(p) && ValidTable(t) && !(pos.Some? && Single(t))
  {
    t, p := t0, p0;
    var at := pos0;
    while |t| > 0 && t[0].Dir? && |t| == 1
      invariant Holds(buf[..], at, p) && ValidPath(p) && ValidTable(t) && SameMeaning(p0, t0, pos0, p, t, at)
      decreases t
    {
      DescentKeeps(p, t);
      DescentFits(p, t, at);
      var next := AppendPath(buf, at, t[0].name, p);
      if next.None? { return None, t, p; }
      at, p, t := next.value, p + [t[0].name], t[0].child;
    }
    return Some(at), t, p;
  }

  predicate AllFits(path: Path, t: Table) {
    PathFits(path, |path|) && FitsAll(|Text(path)|, t, |t|)
  }

  /**
   * __register_sysctl_paths: registers exactly the tables that the nested table stands for, or
   * leaves the registry as it was if some path does not fit into the buffer.
   */
  method RegisterPaths(reg: Registry, path: Path, table: Table) returns (h: Option<Header>)
    requires reg.Valid() && ValidPath(path) && ValidTable(table)
    modifies reg
    ensures reg.Valid() && reg.held == old(reg.held)
    ensures h.Some? <==> AllFits(path, table)
    ensures h.Some? ==> h.value.arg == table && ValidHeader(h.value)
                        && Grown(old(reg.leaves), reg.leaves, IdsOf(h.value), Flat(path, table))
    ensures h.None? ==> reg.Abs() == old(reg.Abs())
  {
    var nr := CountSubheaders(table);
    var buf := new char[PATH_MAX];
    var start := BuildPath(buf, path);
    if start.None? { return None; }
    var pos, t;
    ghost var p;
    pos, t, p := Descend(buf, start.value, table, path);
    if pos.None? { return None; }
    if nr == 1 {
      h := RegisterOne(reg, buf, pos.value, table, t, p);
    } else {
      h := RegisterMany(reg, buf, pos.value, table, nr, t, p);
    }
    CountIsFlat(path, table);
  }

  /** A single header. */
  method RegisterOne(reg: Registry, buf: array<char>, pos: nat, table: Table, t: Table, ghost p: Path)
    returns (h: Option<Header>)
    requires reg.Valid() && Holds(buf[..], pos, p) && ValidPath(p) && Count(t) == Count(table) == 1 && !Single(t)
    modifies reg
    ensures reg.Valid() && reg.held == old(reg.held)
    ensures h.Some? && FitsAll(pos, t, |t|) && h.value.arg == table
    ensures Grown(old(reg.leaves), reg.leaves, IdsOf(h.value), Flat(p, t))
  {
    HeldString(buf[..], pos, p);
    SplitText(p);
    OneMeansFiles(p, t);
    FilesFit(pos, t, |t|);
    var id := reg.RegisterTable(CString(buf[..]), Files(t, |t|));
    StoredOne(old(reg.leaves), Header([], id, []), Leaf(p, Files(t, |t|)));
    assert Ids([Header([], id, [])]) == [id] + Ids([]);
    return Some(Header(table, id, []));
  }

  lemma {:induction false} FilesFit(pos: nat, t: Table, n: nat)
    requires n <= |t| && !AnyDir(t, n)
    ensures FitsAll(pos, t, n)
    decreases n
  {
    if n > 0 { FilesFit(pos, t, n - 1); }
  }

  /** A header with sub-headers, all unregistered again if one fails. */
  method RegisterMany(reg: Registry, buf: array<char>, pos: nat, table: Table, nr: nat, t: Table, ghost p: Path)
    returns (h: Option<Header>)
    requires reg.Valid() && buf.Length == PATH_MAX && Holds(buf[..], pos, p) && ValidPath(p) && ValidTable(t)
    requires Count(t) == Count(table) == nr
    modifies reg, buf
    ensures reg.Valid() && reg.held == old(reg.held)
    ensures h.Some? <==> FitsAll(pos, t, |t|)
    ensures h.Some? ==> h.value.arg == table && |h.value.subs| == nr
                        && Stored(Walk(old(reg.leaves), reg.leaves, h.value.subs, Flat(p, t)))
    ensures h.None? ==> reg.Abs() == old(reg.Abs())
  {
    var subheaders := new Header[nr](_ => Header([], 0, []));
    var err, subheader;
    ghost var stored, done;
    err, subheader, stored, done := RegisterLeafTables(reg, buf, pos, subheaders, 0, t, p);
    var subs := subheaders[0..subheader];
    if err == 0 {
      CountIsFlat(p, t);
      return Some(Header(table, 0, subs));
    }
    GrownLive(old(reg.leaves), reg.leaves, Ids(subs), done);
    GrownBack(old(reg.leaves), reg.leaves, Ids(subs), done);
    UnregisterAll(reg, subs);
    Canonical(reg.Abs(), old(reg.Abs()));
    return None;
  }

  /** Registering and unregistering leaves the whole tree and all its counts as they were. */
  method RoundTrip(reg: Registry, path: Path, table: Table)
    requires reg.Valid() && ValidPath(path) && ValidTable(table)
    modifies reg
    ensures reg.Abs() == old(reg.Abs())
  {
    var h := RegisterPaths(reg, path, table);
    if h.Some? {
      GrownLive(old(reg.leaves), reg.leaves, IdsOf(h.value), Flat(path, table));
      GrownBack(old(reg.leaves), reg.leaves, IdsOf(h.value), Flat(path, table));
      UnregisterTable(reg, h.value);
      Canonical(reg.Abs(), old(reg.Abs()));
    }
  }
}
