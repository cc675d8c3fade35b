/**
 * The tree of /proc entries: HamielecKarol/cw05/proc/generic.c.  Entries are known by numbers
 * (their addresses); each knows its parent and indexes its children by name.
 */
module ProcTree {
  import opened ProcNames

  // struct proc_dir_entry: nlink is meant for directories, count is the use count.
  datatype Entry = Entry(name: string, isDir: bool, nlink: int, parent: nat, subdir: Rb, count: int)

  // A shape: an entry and its children in the order of the index.
  datatype Tree = Tree(id: nat, kids: seq<Tree>)

  type Entries = map<nat, Entry>

  // ---------- shapes ----------

  function Nodes(t: Tree): set<nat>
    decreases t, |t.kids| + 1
  {
    {t.id} + NodesAll(t.kids)
  }

  function NodesAll(kids: seq<Tree>): set<nat>
    decreases kids
  {
    if kids == [] then {} else Nodes(kids[0]) + NodesAll(kids[1..])
  }

  /** Children before their parent. */
  function Post(t: Tree): seq<nat>
    decreases t, |t.kids| + 1
  {
    PostAll(t.kids) + [t.id]
  }

  function PostAll(kids: seq<Tree>): seq<nat>
    decreases kids
  {
    if kids == [] then [] else Post(kids[0]) + PostAll(kids[1..])
  }

  ghost predicate Distinct(t: Tree)
    decreases t, |t.kids| + 1
  {
    t.id !in NodesAll(t.kids) && DistinctAll(t.kids)
  }

  ghost predicate DistinctAll(kids: seq<Tree>)
    decreases kids
  {
    kids == [] || (Distinct(kids[0]) && Nodes(kids[0]) !! NodesAll(kids[1..]) && DistinctAll(kids[1..]))
  }

  /** The entries below p are indexed by items and have the given shapes. */
  ghost predicate Below(es: Entries, p: nat, kids: seq<Tree>, items: seq<Item>)
    decreases kids
  {
    && |kids| == |items|
    && (kids == [] || (Has(es, p, kids[0], items[0]) && Below(es, p, kids[1..], items[1..])))
  }

  ghost predicate Has(es: Entries, p: nat, t: Tree, item: Item)
    decreases t, |t.kids| + 1
  {
    && t.id == item.id && t.id in es && es[t.id].parent == p && es[t.id].name == item.name
    && Below(es, t.id, t.kids, Items(es[t.id].subdir))
  }

  /** Each entry of a shape comes exactly once in its order. */
  lemma {:induction false} PostOnce(t: Tree, x: nat)
    requires Distinct(t)
    ensures multiset(Post(t))[x] == if x in Nodes(t) then 1 else 0
    decreases t, |t.kids| + 1
  {
    PostAllOnce(t.kids, x);
  }

  lemma {:induction false} PostAllOnce(kids: seq<Tree>, x: nat)
    requires DistinctAll(kids)
    ensures multiset(PostAll(kids))[x] == if x in NodesAll(kids) then 1 else 0
    decreases kids
  {
    if kids != [] {
      PostOnce(kids[0], x);
      PostAllOnce(kids[1..], x);
    }
  }

  /** A child's place in the order is before its parent's. */
  ghost predicate Precedes(order: seq<nat>, a: nat, b: nat) {
    exists i, j :: 0 <= i < j < |order| && order[i] == a && order[j] == b
  }

  lemma {:induction false} PrecedesIn(l: seq<nat>, m: seq<nat>, r: seq<nat>, a: nat, b: nat)
    requires Precedes(m, a, b)
    ensures Precedes(l + m + r, a, b)
  {
    var i, j :| 0 <= i < j < |m| && m[i] == a && m[j] == b;
    var o := l + m + r;
    assert o[|l| + i] == a && o[|l| + j] == b;
  }

  /** What is below an entry of the shape goes before it. */
  ghost predicate IsBelow(t: Tree, a: nat, b: nat)
    decreases t, |t.kids| + 1
  {
    (b == t.id && a in NodesAll(t.kids)) || IsBelowAll(t.kids, a, b)
  }

  ghost predicate IsBelowAll(kids: seq<Tree>, a: nat, b: nat)
    decreases kids
  {
    kids != [] && (IsBelow(kids[0], a, b) || IsBelowAll(kids[1..], a, b))
  }

  lemma {:induction false} InPost(kids: seq<Tree>, x: nat)
    requires x in NodesAll(kids)
    ensures x in PostAll(kids)
    decreases kids
  {
    if x in Nodes(kids[0]) {
      if x != kids[0].id { InPost(kids[0].kids, x); }
    } else {
      InPost(kids[1..], x);
    }
  }

  lemma {:induction false} ChildrenFirst(t: Tree, a: nat, b: nat)
    requires IsBelow(t, a, b)
    ensures Precedes(Post(t), a, b)
    decreases t, |t.kids| + 1
  {
    if b == t.id && a in NodesAll(t.kids) {
      InPost(t.kids, a);
      var i :| 0 <= i < |PostAll(t.kids)| && PostAll(t.kids)[i] == a;
      assert Post(t)[i] == a && Post(t)[|PostAll(t.kids)|] == b;
    } else {
      ChildrenFirstAll(t.kids, a, b);
      PrecedesIn([], PostAll(t.kids), [t.id], a, b);
      assert [] + PostAll(t.kids) + [t.id] == Post(t);
    }
  }

  lemma {:induction false} ChildrenFirstAll(kids: seq<Tree>, a: nat, b: nat)
    requires IsBelowAll(kids, a, b)
    ensures Precedes(PostAll(kids), a, b)
    decreases kids
  {
    if IsBelow(kids[0], a, b) {
      ChildrenFirst(kids[0], a, b);
      PrecedesIn([], Post(kids[0]), PostAll(kids[1..]), a, b);
      assert [] + Post(kids[0]) + PostAll(kids[1..]) == PostAll(kids);
    } else {
      ChildrenFirstAll(kids[1..], a, b);
      PrecedesIn(Post(kids[0]), PostAll(kids[1..]), [], a, b);
      assert Post(kids[0]) + PostAll(kids[1..]) + [] == PostAll(kids);
    }
  }

  /** Of two children the one that comes first in the index goes first, with all that is below it. */
  lemma {:induction false} SiblingsInOrder(kids: seq<Tree>, i: nat, j: nat, a: nat, b: nat)
    requires i < j < |kids| && a in Nodes(kids[i]) && b in Nodes(kids[j])
    ensures Precedes(PostAll(kids), a, b)
    decreases kids
  {
    if i == 0 {
      InPostTree(kids[0], a);
      NodesOf(kids[1..], j - 1, b);
      InPost(kids[1..], b);
      var x :| 0 <= x < |Post(kids[0])| && Post(kids[0])[x] == a;
      var y :| 0 <= y < |PostAll(kids[1..])| && PostAll(kids[1..])[y] == b;
      assert PostAll(kids)[x] == a && PostAll(kids)[|Post(kids[0])| + y] == b;
    } else {
      SiblingsInOrder(kids[1..], i - 1, j - 1, a, b);
      PrecedesIn(Post(kids[0]), PostAll(kids[1..]), [], a, b);
      assert Post(kids[0]) + PostAll(kids[1..]) + [] == PostAll(kids);
    }
  }

  lemma {:induction false} InPostTree(t: Tree, x: nat)
    requires x in Nodes(t)
    ensures x in Post(t)
  {
    if x != t.id { InPost(t.kids, x); }
  }

  lemma {:induction false} NodesOf(kids: seq<Tree>, j: nat, x: nat)
    requires j < |kids| && x in Nodes(kids[j])
    ensures x in NodesAll(kids)
    decreases kids
  {
    if j > 0 { NodesOf(kids[1..], j - 1, x); }
  }

  // ---------- frames ----------

  /** The part of an entry that shapes depend on. */
  predicate SameEntry(es: Entries, zs: Entries, id: nat) {
    id in es ==>
      id in zs && zs[id].parent == es[id].parent && zs[id].subdir == es[id].subdir && zs[id].name == es[id].name
  }

  lemma {:induction false} HasFrame(es: Entries, zs: Entries, p: nat, t: Tree, item: Item)
    requires Has(es, p, t, item) && forall id <- Nodes(t) :: SameEntry(es, zs, id)
    ensures Has(zs, p, t, item)
    decreases t, |t.kids| + 1
  {
    assert SameEntry(es, zs, t.id);
    BelowFrame(es, zs, t.id, t.kids, Items(es[t.id].subdir));
  }

  lemma {:induction false} BelowFrame(es: Entries, zs: Entries, p: nat, kids: seq<Tree>, items: seq<Item>)
    requires Below(es, p, kids, items) && forall id <- NodesAll(kids) :: SameEntry(es, zs, id)
    ensures Below(zs, p, kids, items)
    decreases kids
  {
    if kids != [] {
      HasFrame(es, zs, p, kids[0], items[0]);
      BelowFrame(es, zs, p, kids[1..], items[1..]);
    }
  }

  function Drop<T>(s: seq<T>, i: nat): seq<T>
    requires i < |s|
  {
    s[..i] + s[i + 1..]
  }

  lemma {:induction false} DropTail<T>(s: seq<T>, i: nat)
    requires 0 < i < |s|
    ensures Drop(s, i)[0] == s[0] && Drop(s, i)[1..] == Drop(s[1..], i - 1) && s[1..][i - 1] == s[i]
  {
  }

  /** Child i and the other children. */
  lemma {:induction false} TakeChild(es: Entries, p: nat, kids: seq<Tree>, items: seq<Item>, i: nat)
    requires Below(es, p, kids, items) && DistinctAll(kids) && i < |kids|
    ensures Has(es, p, kids[i], items[i]) && Below(es, p, Drop(kids, i), Drop(items, i))
    ensures Distinct(kids[i]) && DistinctAll(Drop(kids, i))
    ensures NodesAll(kids) == Nodes(kids[i]) + NodesAll(Drop(kids, i)) && Nodes(kids[i]) !! NodesAll(Drop(kids, i))
    decreases i
  {
    if i == 0 {
      assert Drop(kids, 0) == kids[1..] && Drop(items, 0) == items[1..];
    } else {
      TakeChild(es, p, kids[1..], items[1..], i - 1);
      DropTail(kids, i);
      DropTail(items, i);
    }
  }
}
