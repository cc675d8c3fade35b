/**
 * The directory tree of the sysctl registry: get_subdir, insert_header, drop_sysctl_table and
 * __register_sysctl_table.  A directory is identified by its path; it lives as long as its
 * count nreg is positive.
 */
module SysctlTree {
  import opened Wrappers
  import Seqs
  import opened SysctlPath

  // A registered table: its directory and the names of its files.
  datatype Leaf = Leaf(dir: Path, files: seq<string>)

  function Parent(p: Path): Path
    requires p != []
  {
    p[..|p| - 1]
  }

  // ---------- counts ----------

  function ChildDirs(dirs: map<Path, nat>, p: Path): set<Path> {
    set q | q in dirs && q != [] && Parent(q) == p
  }

  function LeavesAt(leaves: map<nat, Leaf>, p: Path): set<nat> {
    set id | id in leaves && leaves[id].dir == p
  }

  /** The headers whose parent is p, and one more for the root of the set. */
  function Refs(dirs: map<Path, nat>, leaves: map<nat, Leaf>, p: Path): nat {
    |ChildDirs(dirs, p)| + |LeavesAt(leaves, p)| + if p == [] then 1 else 0
  }

  // The counts of the directories, the tables, and the references that callers hold.
  datatype Tree = Tree(dirs: map<Path, nat>, leaves: map<nat, Leaf>, held: multiset<Path>)

  /** A directory's count is the number of headers below plus the references that callers hold. */
  predicate DirOk(t: Tree, p: Path) {
    && (p in t.dirs ==>
          && t.dirs[p] == Refs(t.dirs, t.leaves, p) + t.held[p]
          && t.dirs[p] >= 1
          && (p != [] ==> Parent(p) in t.dirs))
    && (p in t.held ==> p in t.dirs)
  }

  predicate LeafOk(t: Tree, id: nat) {
    id in t.leaves ==> t.leaves[id].dir in t.dirs
  }

  ghost predicate Counted(t: Tree) {
    && [] in t.dirs
    && (forall p: Path {:trigger DirOk(t, p)} :: DirOk(t, p))
    && (forall id: nat {:trigger LeafOk(t, id)} :: LeafOk(t, id))
  }

  // Only the set of directories matters for who is below whom.

  lemma {:induction false} SameDirs(dirs: map<Path, nat>, z: map<Path, nat>, p: Path)
    requires dirs.Keys == z.Keys
    ensures ChildDirs(z, p) == ChildDirs(dirs, p)
  {
  }

  lemma {:induction false} OneMoreDir(dirs: map<Path, nat>, z: map<Path, nat>, p: Path, q: Path)
    requires p != [] && p !in dirs && z.Keys == dirs.Keys + {p}
    ensures |ChildDirs(z, q)| == |ChildDirs(dirs, q)| + if q == Parent(p) then 1 else 0
  {
    if q == Parent(p) {
      assert ChildDirs(z, q) == ChildDirs(dirs, q) + {p};
    } else {
      assert ChildDirs(z, q) == ChildDirs(dirs, q);
    }
  }

  lemma {:induction false} OneMoreLeaf(leaves: map<nat, Leaf>, id: nat, leaf: Leaf, q: Path)
    requires id !in leaves
    ensures |LeavesAt(leaves[id := leaf], q)| == |LeavesAt(leaves, q)| + if q == leaf.dir then 1 else 0
  {
    var z := leaves[id := leaf];
    assert LeavesAt(z, q) == if q == leaf.dir then LeavesAt(leaves, q) + {id} else LeavesAt(leaves, q);
  }

  lemma {:induction false} NothingBelow(t: Tree, p: Path)
    requires Counted(t) && p !in t.dirs
    ensures ChildDirs(t.dirs, p) == {} && LeavesAt(t.leaves, p) == {} && t.held[p] == 0
  {
    forall c | c in t.dirs && c != [] ensures Parent(c) != p { assert DirOk(t, c); }
    forall id | id in t.leaves ensures t.leaves[id].dir != p { assert LeafOk(t, id); }
    assert DirOk(t, p);
  }

  lemma {:induction false} Hold(t: Tree, p: Path)
    requires Counted(t) && p in t.dirs
    ensures Counted(Tree(t.dirs[p := t.dirs[p] + 1], t.leaves, t.held + multiset{p}))
  {
    var z := Tree(t.dirs[p := t.dirs[p] + 1], t.leaves, t.held + multiset{p});
    forall q ensures DirOk(z, q) {
      assert DirOk(t, q);
      SameDirs(t.dirs, z.dirs, q);
    }
    forall id ensures LeafOk(z, id) { assert LeafOk(t, id); }
  }

  lemma {:induction false} Release(t: Tree, p: Path)
    requires Counted(t) && p in t.held && p in t.dirs && t.dirs[p] > 1
    ensures Counted(Tree(t.dirs[p := t.dirs[p] - 1], t.leaves, t.held - multiset{p}))
  {
    var z := Tree(t.dirs[p := t.dirs[p] - 1], t.leaves, t.held - multiset{p});
    forall q ensures DirOk(z, q) {
      assert DirOk(t, q);
      SameDirs(t.dirs, z.dirs, q);
    }
    forall id ensures LeafOk(z, id) { assert LeafOk(t, id); }
  }

  /** The new directory p comes with a count of one, held by the caller. */
  lemma {:induction false} AddDir(t: Tree, p: Path)
    requires Counted(t) && p != [] && Parent(p) in t.dirs && p !in t.dirs
    ensures Counted(Tree(t.dirs[p := 1][Parent(p) := t.dirs[Parent(p)] + 1], t.leaves, t.held + multiset{p}))
  {
    var z := Tree(t.dirs[p := 1][Parent(p) := t.dirs[Parent(p)] + 1], t.leaves, t.held + multiset{p});
    NothingBelow(t, p);
    forall q ensures DirOk(z, q) {
      assert DirOk(t, q);
      OneMoreDir(t.dirs, z.dirs, p, q);
    }
    forall id ensures LeafOk(z, id) { assert LeafOk(t, id); }
  }

  /** The last reference to p goes: p is removed, and the count it had in its parent is to go. */
  lemma {:induction false} RemoveDir(t: Tree, p: Path)
    requires Counted(t) && p in t.held && p in t.dirs && t.dirs[p] == 1
    ensures p != [] && Counted(Tree(t.dirs - {p}, t.leaves, t.held - multiset{p} + multiset{Parent(p)}))
  {
    assert DirOk(t, p);
    assert ChildDirs(t.dirs, p) == {} && LeavesAt(t.leaves, p) == {} && t.held[p] == 1 && p != [];
    var z := Tree(t.dirs - {p}, t.leaves, t.held - multiset{p} + multiset{Parent(p)});
    forall q ensures DirOk(z, q) {
      assert DirOk(t, q);
      OneMoreDir(z.dirs, t.dirs, p, q);
      assert q !in ChildDirs(t.dirs, p);
    }
    forall id ensures LeafOk(z, id) {
      assert LeafOk(t, id);
      assert id !in LeavesAt(t.leaves, p);
    }
  }

  lemma {:induction false} AddLeaf(t: Tree, id: nat, leaf: Leaf)
    requires Counted(t) && id !in t.leaves && leaf.dir in t.dirs
    ensures Counted(Tree(t.dirs[leaf.dir := t.dirs[leaf.dir] + 1], t.leaves[id := leaf], t.held))
  {
    var z := Tree(t.dirs[leaf.dir := t.dirs[leaf.dir] + 1], t.leaves[id := leaf], t.held);
    forall q ensures DirOk(z, q) {
      assert DirOk(t, q);
      SameDirs(t.dirs, z.dirs, q);
      OneMoreLeaf(t.leaves, id, leaf, q);
    }
    forall i ensures LeafOk(z, i) { assert LeafOk(t, i); }
  }

  /** A table goes: the count it had in its directory is to go. */
  lemma {:induction false} RemoveLeaf(t: Tree, id: nat)
    requires Counted(t) && id in t.leaves
    ensures Counted(Tree(t.dirs, t.leaves - {id}, t.held + multiset{t.leaves[id].dir}))
  {
    var leaf := t.leaves[id];
    var z := Tree(t.dirs, t.leaves - {id}, t.held + multiset{leaf.dir});
    assert z.leaves[id := leaf] == t.leaves;
    assert LeafOk(t, id);
    forall q ensures DirOk(z, q) {
      assert DirOk(t, q);
      OneMoreLeaf(z.leaves, id, leaf, q);
    }
    forall i ensures LeafOk(z, i) { assert LeafOk(t, i); }
  }

  // ---------- the tree is what its tables make it ----------

  /** Some registered table or held directory is at p or below. */
  ghost predicate Needed(leaves: map<nat, Leaf>, held: multiset<Path>, p: Path) {
    p == [] || (exists id :: id in leaves && p <= leaves[id].dir) || (exists q :: q in held && p <= q)
  }

  lemma {:induction false} PathsAbove(t: Tree, p: Path, q: Path)
    requires Counted(t) && q in t.dirs && p <= q
    ensures p in t.dirs
    decreases |q|
  {
    if p != q {
      assert DirOk(t, q);
      PathsAbove(t, p, Parent(q));
    }
  }

  lemma {:induction false} Longest(dirs: set<Path>) returns (max: nat)
    ensures forall p <- dirs :: |p| <= max
  {
    if dirs == {} { return 0; }
    var q :| q in dirs;
    max := Longest(dirs - {q});
    max := if |q| > max then |q| else max;
    forall p <- dirs ensures |p| <= max { assert p == q || p in dirs - {q}; }
  }

  lemma {:induction false} DirsNeeded(t: Tree, p: Path, max: nat)
    requires Counted(t) && p in t.dirs && forall q <- t.dirs :: |q| <= max
    ensures Needed(t.leaves, t.held, p)
    decreases max - |p|
  {
    assert DirOk(t, p);
    if p == [] || p in t.held {
    } else if LeavesAt(t.leaves, p) != {} {
      var id :| id in LeavesAt(t.leaves, p);
      assert id in t.leaves && p <= t.leaves[id].dir;
    } else {
      assert ChildDirs(t.dirs, p) != {};
      var c :| c in ChildDirs(t.dirs, p);
      assert p <= c;
      DirsNeeded(t, c, max);
    }
  }

  /** The directories are exactly those with a table or a held reference at them or below. */
  lemma {:induction false} DirsExactly(t: Tree, p: Path)
    requires Counted(t)
    ensures p in t.dirs <==> Needed(t.leaves, t.held, p)
  {
    forall q | q in t.dirs && p <= q ensures p in t.dirs { PathsAbove(t, p, q); }
    forall id | id in t.leaves ensures t.leaves[id].dir in t.dirs { assert LeafOk(t, id); }
    forall q | q in t.held ensures q in t.dirs { assert DirOk(t, q); }
    if p in t.dirs {
      var max := Longest(t.dirs.Keys);
      DirsNeeded(t, p, max);
    }
  }

  /**
   * Canonical: the registered tables and the held references determine the whole tree and all
   * its counts, whatever happened before.
   */
  lemma {:induction false} Canonical(t: Tree, z: Tree)
    requires Counted(t) && Counted(z) && t.leaves == z.leaves && t.held == z.held
    ensures t == z
  {
    forall p: Path ensures p in t.dirs <==> p in z.dirs {
      DirsExactly(t, p);
      DirsExactly(z, p);
    }
    assert t.dirs.Keys == z.dirs.Keys;
    forall p | p in t.dirs ensures t.dirs[p] == z.dirs[p] {
      assert DirOk(t, p) && DirOk(z, p);
      SameDirs(t.dirs, z.dirs, p);
    }
  }

  // ---------- the code ----------

  /** The components that a walk still has to visit. */
  function Rest(path: string, name: Option<nat>): Path
    requires name.Some? ==> name.value <= |path|
  {
    match name
    case None => []
    case Some(i) => Split(path[i..])
  }

  /** One turn of the walk moves a component from what is left to the directory. */
  lemma {:induction false} WalkStep(path: string, start: nat, slash: nat, name: Option<nat>, dir0: Path, dir: Path)
    requires start <= |path| && slash == Find(path, '/', start)
    requires name == if slash < |path| then Some(slash + 1) else None
    requires dir == if slash > start then dir0 + [path[start..slash]] else dir0
    ensures dir + Rest(path, name) == dir0 + Split(path[start..])
  {
    SplitNext(path, start, slash, Rest(path, name));
    Seqs.Associative(dir0, [path[start..slash]], Rest(path, name));
  }

  class Registry {
    var dirs: map<Path, nat>
    var leaves: map<nat, Leaf>
    var next: nat
    ghost var held: multiset<Path>

    ghost function Abs(): Tree
      reads this
    {
      Tree(dirs, leaves, held)
    }

    ghost predicate Valid()
      reads this
    {
      Counted(Abs()) && forall id <- leaves :: id < next
    }

    constructor ()
      ensures Valid() && leaves == map[] && held == multiset{}
    {
      dirs, leaves, next, held := map[[] := 1], map[], 0, multiset{};
      assert ChildDirs(map[[] := 1], []) == {} && LeavesAt(map[], []) == {};
    }

    /** nreg++ */
    method Take(p: Path)
      requires Valid() && p in dirs
      modifies this`dirs, this`held
      ensures Valid() && held == old(held) + multiset{p}
    {
      Hold(Abs(), p);
      dirs, held := dirs[p := dirs[p] + 1], held + multiset{p};
    }

    /** drop_sysctl_table for a directory: removed with its last reference, and so on upwards. */
    method DropDir(p: Path, ghost others: multiset<Path>)
      requires Valid() && held == others + multiset{p}
      modifies this`dirs, this`held
      ensures Valid() && held == others
      decreases |p|
    {
      assert p in held && DirOk(Abs(), p);
      assert held - multiset{p} == others;
      if dirs[p] > 1 {
        Release(Abs(), p);
        dirs, held := dirs[p := dirs[p] - 1], others;
        return;
      }
      RemoveDir(Abs(), p);
      dirs, held := dirs - {p}, others + multiset{Parent(p)};
      DropDir(Parent(p), others);
    }

    /** new_dir and insert_header: the new directory has one reference, its creator's. */
    method InsertDir(p: Path)
      requires Valid() && p != [] && p !in dirs && Parent(p) in dirs
      modifies this`dirs, this`held
      ensures Valid() && held == old(held) + multiset{p} && p in dirs
    {
      AddDir(Abs(), p);
      dirs, held := dirs[p := 1][Parent(p) := dirs[Parent(p)] + 1], held + multiset{p};
    }

    /** get_subdir: the caller's reference moves from dir to its subdirectory. */
    method GetSubdir(dir: Path, name: string, ghost others: multiset<Path>) returns (subdir: Path)
      requires Valid() && held == others + multiset{dir}
      modifies this`dirs, this`held
      ensures Valid() && subdir == dir + [name] && held == others + multiset{subdir}
    {
      subdir := dir + [name];
      assert Parent(subdir) == dir && dir in held && DirOk(Abs(), dir);
      if subdir in dirs {
        Take(subdir);
        assert held == others + multiset{subdir} + multiset{dir};
        DropDir(dir, others + multiset{subdir});
      } else {
        InsertDir(subdir);
        Take(subdir);
        assert held == others + multiset{subdir} + multiset{subdir} + multiset{dir};
        DropDir(dir, others + multiset{subdir} + multiset{subdir});
        DropDir(subdir, others + multiset{subdir});
      }
    }

    /** insert_header for the new table. */
    method InsertTable(dir: Path, files: seq<string>) returns (header: nat)
      requires Valid() && dir in held
      modifies this`dirs, this`leaves, this`next
      ensures Valid() && header !in old(leaves) && leaves == old(leaves)[header := Leaf(dir, files)]
    {
      assert DirOk(Abs(), dir);
      header := next;
      AddLeaf(Abs(), header, Leaf(dir, files));
      dirs, leaves := dirs[dir := dirs[dir] + 1], leaves[header := Leaf(dir, files)];
      next := next + 1;
    }

    /** The turn of the loop of __register_sysctl_table for the component that starts at `start`. */
    method WalkOn(path: string, dir0: Path, start: nat, ghost others: multiset<Path>)
      returns (dir: Path, name: Option<nat>)
      requires Valid() && start <= |path| && held == others + multiset{dir0}
      modifies this`dirs, this`held
      ensures Valid() && held == others + multiset{dir} && (name.Some? ==> start < name.value <= |path|)
      ensures dir + Rest(path, name) == dir0 + Split(path[start..])
    {
      var slash := Find(path, '/', start);
      name := if slash < |path| then Some(slash + 1) else None;
      dir := dir0;
      if slash > start { dir := GetSubdir(dir, path[start..slash], others); }
      WalkStep(path, start, slash, name, dir0, dir);
    }

    /** __register_sysctl_table: one more table, at the directory that the path names. */
    method RegisterTable(path: string, files: seq<string>) returns (header: nat)
      requires Valid()
      modifies this
      ensures Valid() && held == old(held)
      ensures header !in old(leaves) && leaves == old(leaves)[header := Leaf(Split(path), files)]
    {
      var dir: Path := [];
      Take(dir);
      var name := Some(0);
      assert path[0..] == path;
      while name.Some?
        invariant Valid() && leaves == old(leaves) && held == old(held) + multiset{dir}
        invariant (name.Some? ==> name.value <= |path|) && dir + Rest(path, name) == Split(path)
        decreases if name.Some? then |path| + 1 - name.value else 0
      {
        dir, name := WalkOn(path, dir, name.value, old(held));
      }
      assert dir + [] == dir;
      header := InsertTable(dir, files);
      DropDir(dir, old(held));
    }

    /** drop_sysctl_table for a table, whose count is one from registration on. */
    method DropTable(header: nat)
      requires Valid() && header in leaves
      modifies this
      ensures Valid() && held == old(held) && leaves == old(leaves) - {header}
    {
      var dir := leaves[header].dir;
      RemoveLeaf(Abs(), header);
      leaves, held := leaves - {header}, held + multiset{dir};
      DropDir(dir, old(held));
    }
  }
}
