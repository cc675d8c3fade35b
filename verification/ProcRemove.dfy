/**
 * remove_proc_subtree: the teardown that walks a subtree through parent pointers.
 */
module ProcRemove {
  import opened ProcNames
  import opened ProcTree

  // The walk keeps the entries between the root of the subtree and the current one as a stack,
  // the current one first, each with the children it still has.

  function Order(stack: seq<Tree>): seq<nat> {
    if stack == [] then [] else Post(stack[0]) + Order(stack[1..])
  }

  function Members(stack: seq<Tree>): set<nat> {
    if stack == [] then {} else Nodes(stack[0]) + Members(stack[1..])
  }

  function Attached(kids: seq<Tree>): nat
    decreases kids
  {
    if kids == [] then 0 else 1 + Attached(kids[0].kids) + Attached(kids[1..])
  }

  /** The entries that are still attached to their parent. */
  function AllAttached(stack: seq<Tree>): nat {
    if stack == [] then 0 else Attached(stack[0].kids) + AllAttached(stack[1..])
  }

  ghost predicate Apart(stack: seq<Tree>) {
    stack == [] || (Distinct(stack[0]) && Nodes(stack[0]) !! Members(stack[1..]) && Apart(stack[1..]))
  }

  /** Each entry of the stack has the next one as parent, the last one outer. */
  ghost predicate Chain(es: Entries, stack: seq<Tree>, outer: nat) {
    stack == [] ||
    (&& stack[0].id in es
     && es[stack[0].id].parent == (if |stack| > 1 then stack[1].id else outer)
     && ProcTree.Below(es, stack[0].id, stack[0].kids, Items(es[stack[0].id].subdir))
     && Chain(es, stack[1..], outer))
  }

  lemma {:induction false} ChainFrame(es: Entries, zs: Entries, stack: seq<Tree>, outer: nat)
    requires Chain(es, stack, outer) && forall id <- Members(stack) :: SameEntry(es, zs, id)
    ensures Chain(zs, stack, outer)
  {
    if stack != [] {
      assert SameEntry(es, zs, stack[0].id);
      BelowFrame(es, zs, stack[0].id, stack[0].kids, Items(es[stack[0].id].subdir));
      ChainFrame(es, zs, stack[1..], outer);
    }
  }

  function Push(stack: seq<Tree>): seq<Tree>
    requires stack != [] && stack[0].kids != []
  {
    [stack[0].kids[0], Tree(stack[0].id, stack[0].kids[1..])] + stack[1..]
  }

  /** Going down to the first child changes neither the order of the work nor the members. */
  lemma {:induction false} PushOrder(stack: seq<Tree>)
    requires stack != [] && stack[0].kids != [] && Apart(stack)
    ensures Order(Push(stack)) == Order(stack) && Members(Push(stack)) == Members(stack)
    ensures Apart(Push(stack)) && AllAttached(Push(stack)) + 1 == AllAttached(stack)
  {
    var kid, rest, tail := stack[0].kids[0], Tree(stack[0].id, stack[0].kids[1..]), stack[1..];
    var z := Push(stack);
    var mid := [rest] + tail;
    assert z[1..] == mid && mid[1..] == tail;
    assert NodesAll(stack[0].kids) == Nodes(kid) + NodesAll(rest.kids);
    assert DistinctAll(stack[0].kids) && Distinct(kid) && DistinctAll(rest.kids) && Distinct(rest);
    assert Members(mid) == Nodes(rest) + Members(tail) && Apart(mid);
    assert Post(stack[0]) == Post(kid) + PostAll(rest.kids) + [rest.id];
    calc {
      Order(z);
      Post(kid) + Order([rest] + tail);
      Post(kid) + (Post(rest) + Order(tail));
      Post(kid) + ((PostAll(rest.kids) + [rest.id]) + Order(tail));
      (Post(kid) + PostAll(rest.kids) + [rest.id]) + Order(tail);
      Order(stack);
    }
  }

  lemma {:induction false} PushChain(es: Entries, zs: Entries, stack: seq<Tree>, outer: nat)
    requires stack != [] && stack[0].kids != [] && Apart(stack) && Chain(es, stack, outer)
    requires zs.Keys == es.Keys && stack[0].id in zs
    requires forall id <- es :: id != stack[0].id ==> zs[id] == es[id]
    requires zs[stack[0].id].parent == es[stack[0].id].parent
    requires Items(zs[stack[0].id].subdir) == Items(es[stack[0].id].subdir)[1..]
    ensures Chain(zs, Push(stack), outer)
  {
    var top, kid, tail := stack[0], stack[0].kids[0], stack[1..];
    var rest := Tree(top.id, top.kids[1..]);
    var items := Items(es[top.id].subdir);
    var z := Push(stack);
    assert z[1..] == [rest] + tail && ([rest] + tail)[1..] == tail;
    HasFrame(es, zs, top.id, kid, items[0]);
    BelowFrame(es, zs, top.id, top.kids[1..], items[1..]);
    ChainFrame(es, zs, tail, outer);
  }

  /** Entry e after its removal while others still use it. */
  function Unlinked(e: Entry): Entry {
    e.(nlink := 0, subdir := Leaf, count := e.count - 1)
  }

  // What has become of entry id when the entries `gone` have been put; es0 and left0 are the
  // attached and the otherwise used entries before.
  predicate Fate(es0: Entries, left0: Entries, es: Entries, left: Entries, gone: set<nat>, id: nat) {
    if id in gone && id in es0 then
      && id !in es
      && (if es0[id].count > 1 then id in left && left[id] == Unlinked(es0[id]) else id !in left)
    else
      && (id in es <==> id in es0)
      && (id in es ==> es[id].name == es0[id].name && es[id].isDir == es0[id].isDir && es[id].count == es0[id].count
                       && es[id].parent == es0[id].parent)
      && (id in left <==> id in left0) && (id in left ==> left[id] == left0[id])
  }

  /** Entries outside the subtree are as before. */
  predicate Untouched(es0: Entries, es: Entries, members: set<nat>, id: nat) {
    id !in members ==> (id in es <==> id in es0) && (id in es ==> es[id] == es0[id])
  }

  datatype Event = Rundown(id: nat) | Put(id: nat)

  /** Each entry is run down and then put. */
  function Events(ids: seq<nat>): seq<Event> {
    if ids == [] then [] else Events(ids[..|ids| - 1]) + [Rundown(ids[|ids| - 1]), Put(ids[|ids| - 1])]
  }

  lemma {:induction false} EventsAppend(ids: seq<nat>, id: nat)
    ensures Events(ids + [id]) == Events(ids) + [Rundown(id), Put(id)]
  {
    assert (ids + [id])[..|ids|] == ids;
  }

  /** In the log each entry is first run down and then put, before the next entry is touched. */
  lemma {:induction false} EventsAt(ids: seq<nat>, k: nat)
    requires k < |ids|
    ensures |Events(ids)| == 2 * |ids|
    ensures Events(ids)[2 * k] == Rundown(ids[k]) && Events(ids)[2 * k + 1] == Put(ids[k])
  {
    var n := |ids| - 1;
    if n > 0 { EventsAt(ids[..n], if k < n then k else 0); }
  }

  lemma {:induction false} NoItems(t: Rb)
    ensures Items(t) == [] <==> t == Leaf
  {
    if t.Node? { assert |Items(t)| == |Items(t.left)| + 1 + |Items(t.right)|; }
  }

  /** The state of the walk: `done` has been put, the stack is still to do. */
  ghost predicate Walking(es0: Entries, left0: Entries, es: Entries, left: Entries, sub: Tree, outer: nat,
                          stack: seq<Tree>, done: seq<nat>) {
    && stack != [] && stack[|stack| - 1].id == sub.id && left0.Keys !! es0.Keys
    && Apart(stack) && Chain(es, stack, outer) && Members(stack) <= Nodes(sub)
    && done + Order(stack) == Post(sub)
    && (forall id: nat {:trigger Fate(es0, left0, es, left, Nodes(sub) - Members(stack), id)} ::
          Fate(es0, left0, es, left, Nodes(sub) - Members(stack), id))
    && (forall id: nat {:trigger Untouched(es0, es, Nodes(sub), id)} :: Untouched(es0, es, Nodes(sub), id))
  }

  lemma {:induction false} WalkDown(es0: Entries, left0: Entries, was: Entries, es: Entries, left: Entries, sub: Tree,
                                    outer: nat, stack: seq<Tree>, done: seq<nat>)
    requires Walking(es0, left0, was, left, sub, outer, stack, done) && stack[0].kids != []
    requires Chain(es, Push(stack), outer) && Apart(Push(stack)) && Order(Push(stack)) == Order(stack)
    requires Members(Push(stack)) == Members(stack) && es.Keys == was.Keys && stack[0].id in was
    requires forall id <- es :: id != stack[0].id ==> es[id] == was[id]
    requires es[stack[0].id] == was[stack[0].id].(subdir := es[stack[0].id].subdir)
    ensures Walking(es0, left0, es, left, sub, outer, Push(stack), done)
  {
    var gone := Nodes(sub) - Members(stack);
    assert stack[0].id in Members(stack);
    forall id: nat ensures Fate(es0, left0, es, left, gone, id) { assert Fate(es0, left0, was, left, gone, id); }
    forall id: nat ensures Untouched(es0, es, Nodes(sub), id) { assert Untouched(es0, was, Nodes(sub), id); }
  }

  /** The top of the stack has no children left and goes; es and left are the entries after that. */
  lemma {:induction false} WalkUp(es0: Entries, left0: Entries, was: Entries, wasLeft: Entries, es: Entries,
                                  left: Entries,
                                  sub: Tree, outer: nat, stack: seq<Tree>, done: seq<nat>)
    requires Walking(es0, left0, was, wasLeft, sub, outer, stack, done) && |stack| > 1 && stack[0].kids == []
    requires es.Keys == was.Keys - {stack[0].id}
    requires forall id <- es :: id != stack[1].id ==> es[id] == was[id]
    requires stack[1].id in es ==> es[stack[1].id] == was[stack[1].id].(nlink := es[stack[1].id].nlink)
    requires left == if was[stack[0].id].count > 1 then wasLeft[stack[0].id := Unlinked(was[stack[0].id])] else wasLeft
    ensures Walking(es0, left0, es, left, sub, outer, stack[1..], done + [stack[0].id])
  {
    var de, tail := stack[0].id, stack[1..];
    var gone, gone' := Nodes(sub) - Members(stack), Nodes(sub) - Members(tail);
    assert Nodes(stack[0]) == {de} && gone' == gone + {de} && de in Members(stack);
    NoItems(was[de].subdir);
    assert Post(stack[0]) == [de];
    assert (done + [de]) + Order(tail) == done + Order(stack);
    assert stack[1].id in Members(tail) && tail[0] == stack[1] && tail[|tail| - 1] == stack[|stack| - 1];
    ChainFrame(was, es, tail, outer);
    forall id: nat ensures Fate(es0, left0, es, left, gone', id) { assert Fate(es0, left0, was, wasLeft, gone, id); }
    forall id: nat ensures Untouched(es0, es, Nodes(sub), id) { assert Untouched(es0, was, Nodes(sub), id); }
  }

  lemma {:induction false} WalkStart(es: Entries, left: Entries, sub: Tree, outer: nat, item: Item)
    requires Has(es, outer, sub, item) && Distinct(sub) && left.Keys !! es.Keys
    ensures Walking(es, left, es, left, sub, outer, [sub], [])
  {
    var stack := [sub];
    assert stack[1..] == [] && Members([]) == {} && Apart([]) && Chain(es, [], outer) && Order([]) == [];
    assert Members(stack) == Nodes(sub) && Nodes(sub) - Members(stack) == {};
    assert [] + Order(stack) == Post(sub);
    forall id: nat ensures Fate(es, left, es, left, Nodes(sub) - Members(stack), id) {}
    forall id: nat ensures Untouched(es, es, Nodes(sub), id) {}
  }

  lemma {:induction false} LastIn(stack: seq<Tree>)
    requires stack != []
    ensures stack[|stack| - 1].id in Members(stack)
  {
    if |stack| > 1 { LastIn(stack[1..]); }
  }

  /** The walk is at the root of the subtree exactly when nothing else is on the stack. */
  lemma {:induction false} AtRoot(es0: Entries, left0: Entries, es: Entries, left: Entries, sub: Tree, outer: nat,
                                  stack: seq<Tree>, done: seq<nat>)
    requires Walking(es0, left0, es, left, sub, outer, stack, done)
    ensures stack[0].id == sub.id <==> |stack| == 1
  {
    if |stack| > 1 { LastIn(stack[1..]); }
  }

  /** What has become of entry id after the whole removal of the entries `members` below outer. */
  predicate Removed(es0: Entries, left0: Entries, es: Entries, left: Entries, members: set<nat>, outer: nat, subdir: Rb,
                    isDir: bool, id: nat) {
    && (if id in members then id !in es else id in es <==> id in es0)
    && (id in es && id != outer ==> es[id] == es0[id])
    && (id == outer && id in es && id in es0 ==>
          es[id] == es0[id].(nlink := es0[id].nlink - if isDir then 1 else 0, subdir := subdir))
    && (if id in members && id in es0 && es0[id].count > 1 then id in left && left[id] == Unlinked(es0[id])
        else (id in left <==> id in left0) && (id in left ==> left[id] == left0[id]))
  }

  /** The subtree is gone; of the other entries only outer has changed: its nlink, and its index to subdir. */
  ghost predicate TornDown(es0: Entries, left0: Entries, es: Entries, left: Entries, sub: Tree, outer: nat,
                           subdir: Rb) {
    && sub.id in es0
    && forall id: nat {:trigger Removed(es0, left0, es, left, Nodes(sub), outer, subdir, es0[sub.id].isDir, id)} ::
         Removed(es0, left0, es, left, Nodes(sub), outer, subdir, es0[sub.id].isDir, id)
  }

  /**
   * What a removal leaves, entry by entry: nothing of the subtree can be reached; an entry of it
   * that is in use elsewhere stays with one use less, without links and children; the parent has
   * one link less if the root was a directory; everything else is as before.
   */
  lemma {:induction false} AfterRemoval(es0: Entries, left0: Entries, es: Entries, left: Entries, sub: Tree,
                                        outer: nat, subdir: Rb, id: nat)
    requires TornDown(es0, left0, es, left, sub, outer, subdir) && outer !in Nodes(sub)
    ensures id in Nodes(sub) ==> id !in es
    ensures id !in Nodes(sub) ==> (id in es <==> id in es0) && (id in left <==> id in left0)
    ensures id in Nodes(sub) && id in es0 && es0[id].count > 1 ==>
      id in left && left[id] == Entry(es0[id].name, es0[id].isDir, 0, es0[id].parent, Leaf, es0[id].count - 1)
    ensures id in Nodes(sub) && id in es0 && es0[id].count <= 1 && id !in left0 ==> id !in left
    ensures id !in Nodes(sub) && id != outer && id in es ==> es[id] == es0[id]
    ensures id !in Nodes(sub) && id in left ==> left[id] == left0[id]
    ensures outer in es0 && outer in es ==>
      var e := es0[outer];
      es[outer] == Entry(e.name, e.isDir, if es0[sub.id].isDir then e.nlink - 1 else e.nlink, e.parent, subdir, e.count)
  {
    assert Removed(es0, left0, es, left, Nodes(sub), outer, subdir, es0[sub.id].isDir, id);
    assert Removed(es0, left0, es, left, Nodes(sub), outer, subdir, es0[sub.id].isDir, outer);
  }

  /** The last turn: the root goes. */
  lemma {:induction false} WalkEnd(es0: Entries, left0: Entries, was: Entries, wasLeft: Entries, es: Entries,
                                   left: Entries,
                                   sub: Tree, outer: nat, stack: seq<Tree>, done: seq<nat>, id: nat)
    requires Walking(es0, left0, was, wasLeft, sub, outer, stack, done) && |stack| == 1 && stack[0].kids == []
    requires outer in was && outer !in Nodes(sub)
    requires es.Keys == was.Keys - {sub.id}
    requires forall i <- es :: i != outer ==> es[i] == was[i]
    requires es[outer] == was[outer].(nlink := was[outer].nlink - if was[sub.id].isDir then 1 else 0)
    requires left == if was[sub.id].count > 1 then wasLeft[sub.id := Unlinked(was[sub.id])] else wasLeft
    ensures done + [sub.id] == Post(sub)
    ensures sub.id in es0 && outer in es0
    ensures Removed(es0, left0, es, left, Nodes(sub), outer, es0[outer].subdir, es0[sub.id].isDir, id)
  {
    assert stack[1..] == [] && Members([]) == {} && Order([]) == [];
    assert Nodes(stack[0]) == {sub.id} && Members(stack) == {sub.id} && Post(stack[0]) == [sub.id];
    NoItems(was[sub.id].subdir);
    var gone := Nodes(sub) - Members(stack);
    assert Fate(es0, left0, was, wasLeft, gone, id) && Untouched(es0, was, Nodes(sub), id);
    assert Fate(es0, left0, was, wasLeft, gone, sub.id) && Untouched(es0, was, Nodes(sub), outer);
  }

  /** The entries reachable from a directory, as the code finds them. */
  class ProcFs {
    var entries: Entries
    // Entries that have been put but are still used by someone.
    var left: Entries
    ghost var log: seq<Event>

    /** What proc_entry_rundown does to callers is the subject of module Rundown. */
    method EntryRundown(de: nat)
      requires de in entries
      modifies this`log
      ensures log == old(log) + [Rundown(de)]
    {
      log := log + [Rundown(de)];
    }

    /** pde_put: the entry is freed with its last use. */
    method PdePut(de: nat)
      requires de in entries
      modifies this
      ensures log == old(log) + [Put(de)] && entries == old(entries) - {de}
      ensures left == if old(entries[de].count) > 1
                      then old(left)[de := old(entries[de]).(count := old(entries[de]).count - 1)] else old(left)
    {
      var e := entries[de];
      entries := entries - {de};
      if e.count - 1 > 0 { left := left[de := e.(count := e.count - 1)]; }
      log := log + [Put(de)];
    }

    /** rb_erase of the first child. */
    method EraseFirst(de: nat)
      requires de in entries && Items(entries[de].subdir) != []
      modifies this`entries
      ensures entries.Keys == old(entries).Keys
      ensures forall id <- entries :: id != de ==> entries[id] == old(entries)[id]
      ensures entries[de] == old(entries)[de].(subdir := entries[de].subdir)
      ensures Items(entries[de].subdir) == Items(old(entries)[de].subdir)[1..]
    {
      var t := Erase(entries[de].subdir, 0);
      entries := entries[de := entries[de].(subdir := t)];
    }

    /** The loop turn for an entry with children: its first child is unlinked and comes next. */
    method Descend(de: nat, ghost es0: Entries, ghost left0: Entries, ghost sub: Tree, ghost outer: nat,
                   ghost stack: seq<Tree>, ghost done: seq<nat>)
      returns (next: nat)
      requires Walking(es0, left0, entries, left, sub, outer, stack, done) && de == stack[0].id
      requires Items(entries[de].subdir) != [] && outer !in Nodes(sub)
      modifies this`entries
      ensures stack[0].kids != [] && next == Push(stack)[0].id
      ensures Walking(es0, left0, entries, left, sub, outer, Push(stack), done)
    {
      ghost var was := entries;
      assert stack[0].kids != [];
      assert Has(entries, de, stack[0].kids[0], Items(entries[de].subdir)[0]);
      next := Items(entries[de].subdir)[0].id;
      EraseFirst(de);
      PushOrder(stack);
      PushChain(was, entries, stack, outer);
      WalkDown(es0, left0, was, entries, left, sub, outer, stack, done);
    }
  
    /** The part of a loop turn that takes leave of an entry without children. */
    method Leave(de: nat) returns (next: nat)
      requires de in entries && entries[de].parent in entries && entries[de].parent != de
      modifies this`entries, this`log
      ensures next == old(entries)[de].parent && log == old(log) + [Rundown(de)] && entries.Keys == old(entries).Keys
      ensures forall id <- entries :: id != de && id != next ==> entries[id] == old(entries)[id]
      ensures entries[de] == old(entries)[de].(nlink := 0)
      ensures var e := old(entries)[next];
        entries[next] == e.(nlink := e.nlink - if old(entries)[de].isDir then 1 else 0)
    {
      EntryRundown(de);
      next := entries[de].parent;
      if entries[de].isDir {
        entries := entries[next := entries[next].(nlink := entries[next].nlink - 1)];
      }
      entries := entries[de := entries[de].(nlink := 0)];
    }

    /** The loop turn for an entry without children, not the root. */
    method Ascend(de: nat, ghost es0: Entries, ghost left0: Entries, ghost sub: Tree, ghost outer: nat,
                  ghost stack: seq<Tree>, ghost done: seq<nat>)
      returns (next: nat)
      requires Walking(es0, left0, entries, left, sub, outer, stack, done) && de == stack[0].id
      requires Items(entries[de].subdir) == [] && |stack| > 1 && outer !in Nodes(sub)
      modifies this
      ensures next == stack[1].id && log == old(log) + [Rundown(de), Put(de)]
      ensures Walking(es0, left0, entries, left, sub, outer, stack[1..], done + [de])
    {
      ghost var was, wasLeft := entries, left;
      assert stack[0].kids == [] && stack[1].id in Members(stack[1..]);
      assert Chain(entries, stack[1..], outer);
      NoItems(entries[de].subdir);
      next := Leave(de);
      PdePut(de);
      WalkUp(es0, left0, was, wasLeft, entries, left, sub, outer, stack, done);
    }

    /** The loop of remove_proc_subtree, and the last pde_put. */
    method TearDown(root: nat, ghost sub: Tree, ghost outer: nat, ghost item: Item)
      requires Has(entries, outer, sub, item) && Distinct(sub) && left.Keys !! entries.Keys && root == sub.id
      requires outer in entries && outer !in Nodes(sub)
      modifies this
      ensures log == old(log) + Events(Post(sub))
      ensures TornDown(old(entries), old(left), entries, left, sub, outer, old(entries)[outer].subdir)
    {
      ghost var es0, left0 := entries, left;
      ghost var stack, done: seq<nat> := [sub], [];
      WalkStart(entries, left, sub, outer, item);
      var de := root;
      while true
        invariant Walking(es0, left0, entries, left, sub, outer, stack, done) && de == stack[0].id
        invariant log == old(log) + Events(done)
        decreases AllAttached(stack), |stack|
      {
        AtRoot(es0, left0, entries, left, sub, outer, stack, done);
        if Items(entries[de].subdir) != [] {
          PushOrder(stack);
          de := Descend(de, es0, left0, sub, outer, stack, done);
          stack := Push(stack);
          continue;
        }
        if de == root { break; }
        EventsAppend(done, de);
        ghost var gone := de;
        de := Ascend(de, es0, left0, sub, outer, stack, done);
        stack, done := stack[1..], done + [gone];
      }
      EndWalk(root, es0, left0, sub, outer, stack, done);
    }

    /** The last turn of the loop and what follows it. */
    method EndWalk(root: nat, ghost es0: Entries, ghost left0: Entries, ghost sub: Tree, ghost outer: nat,
                   ghost stack: seq<Tree>, ghost done: seq<nat>)
      requires Walking(es0, left0, entries, left, sub, outer, stack, done) && |stack| == 1
               && root == stack[0].id == sub.id
      requires Items(entries[root].subdir) == [] && outer in es0 && outer !in Nodes(sub)
      modifies this
      ensures log == old(log) + [Rundown(root), Put(root)] && done + [root] == Post(sub)
      ensures TornDown(es0, left0, entries, left, sub, outer, es0[outer].subdir)
    {
      ghost var was, wasLeft := entries, left;
      assert Untouched(es0, was, Nodes(sub), outer);
      NoItems(entries[root].subdir);
      var parent := Leave(root);
      PdePut(root);
      WalkEnd(es0, left0, was, wasLeft, entries, left, sub, outer, stack, done, root);
      forall id: nat
        ensures Removed(es0, left0, entries, left, Nodes(sub), outer, es0[outer].subdir, es0[sub.id].isDir, id)
      {
        WalkEnd(es0, left0, was, wasLeft, entries, left, sub, outer, stack, done, id);
      }
    }

    /** A directory with the given children, in order, and nothing else below. */
    ghost predicate Directory(dir: nat, kids: seq<Tree>)
      reads this
    {
      && dir in entries && dir !in NodesAll(kids) && DistinctAll(kids)
      && ProcTree.Below(entries, dir, kids, Items(entries[dir].subdir)) && Sorted(Items(entries[dir].subdir))
      && left.Keys !! entries.Keys
    }

    /** proc_register: dp joins the index of dir, unless its name is taken. */
    method ProcRegister(dir: nat, dp: nat) returns (ret: int, ghost k: nat)
      requires dir in entries && dp in entries && dp != dir && Sorted(Items(entries[dir].subdir))
      modifies this`entries
      ensures ret == (if Named(Items(old(entries)[dir].subdir), old(entries)[dp].name) then -EEXIST else 0)
      ensures ret != 0 ==> entries == old(entries)[dp := old(entries)[dp].(parent := dir)]
      ensures ret == 0 ==> dir in entries && entries == old(entries)[dp := old(entries)[dp].(parent := dir)]
                                                       [dir := old(entries)[dir].(subdir := entries[dir].subdir)]
      ensures ret == 0 ==> var items := Items(old(entries)[dir].subdir);
        k <= |items| && Items(entries[dir].subdir) == items[..k] + [Item(old(entries)[dp].name, dp)] + items[k..]
      ensures ret == 0 ==> Sorted(Items(entries[dir].subdir))
    {
      entries := entries[dp := entries[dp].(parent := dir)];
      ghost var l, r;
      var ok, t;
      ok, t, l, r := SubdirInsert(entries[dir].subdir, Item(entries[dp].name, dp));
      k := |l|;
      if !ok { return -EEXIST, k; }
      assert (l + r)[..k] == l && (l + r)[k..] == r;
      entries := entries[dir := entries[dir].(subdir := t)];
      return 0, k;
    }

    /**
     * proc_mkdir_data: a new empty directory id with two links, or no change.  refused stands for the
     * checks that forbid numbers below the root and entries of permanently empty directories.
     */
    method ProcMkdirData(name: string, parent: nat, id: nat, refused: bool, ghost kids: seq<Tree>)
      returns (ok: bool, ghost k: nat, ghost more: seq<Tree>)
      requires Directory(parent, kids) && id !in entries && id !in left && id !in NodesAll(kids)
      modifies this`entries
      ensures ok <==> 0 < |name| < 256 && !refused && !Named(Items(old(entries)[parent].subdir), name)
      ensures !ok ==> entries == old(entries)
      ensures ok ==> parent in entries
                     && entries == old(entries)[id := Entry(name, true, 2, parent, Leaf, 1)]
                                               [parent := old(entries)[parent].(nlink := old(entries)[parent].nlink + 1,
                                                                                subdir := entries[parent].subdir)]
      ensures ok ==> var items := Items(old(entries)[parent].subdir);
        && k <= |items| == |kids| && Items(entries[parent].subdir) == items[..k] + [Item(name, id)] + items[k..]
        && more == kids[..k] + [Tree(id, [])] + kids[k..] && Directory(parent, more)
    {
      k, more := 0, kids;
      ghost var was, items := entries, Items(entries[parent].subdir);
      BelowSize(was, parent, kids, items);
      if |name| == 0 || |name| >= 256 || refused { return false, k, more; }
      ok, k := MakeDir(name, parent, id);
      if ok {
        NewChild(was, entries, parent, kids, items, k, id, name);
        more := kids[..k] + [Tree(id, [])] + kids[k..];
      }
    }

    /** The part of proc_mkdir_data behind the checks. */
    method MakeDir(name: string, parent: nat, id: nat) returns (ok: bool, ghost k: nat)
      requires parent in entries && id !in entries && Sorted(Items(entries[parent].subdir))
      modifies this`entries
      ensures ok <==> !Named(Items(old(entries)[parent].subdir), name)
      ensures !ok ==> entries == old(entries)
      ensures ok ==> parent in entries && entries == old(entries)[id := Entry(name, true, 2, parent, Leaf, 1)]
                       [parent := old(entries)[parent].(nlink := old(entries)[parent].nlink + 1,
                                                        subdir := entries[parent].subdir)]
      ensures ok ==> var items := Items(old(entries)[parent].subdir);
        k <= |items| && Items(entries[parent].subdir) == items[..k] + [Item(name, id)] + items[k..]
      ensures ok ==> Sorted(Items(entries[parent].subdir))
    {
      ghost var was := entries;
      entries := entries[id := Entry(name, true, 2, parent, Leaf, 1)];
      entries := entries[parent := entries[parent].(nlink := entries[parent].nlink + 1)];
      var ret;
      ret, k := ProcRegister(parent, id);
      ok := ret == 0;
      if !ok {
        entries := entries - {id};
        entries := entries[parent := entries[parent].(nlink := entries[parent].nlink - 1)];
        assert entries == was;
      }
    }

    /** Removing the child k that has the name. */
    method RemoveChild(name: string, parent: nat, ghost kids: seq<Tree>, ghost k: nat, ghost kid: Tree)
      requires Directory(parent, kids) && k < |kids| && kids[k] == kid
      requires k < |Items(entries[parent].subdir)| && Items(entries[parent].subdir)[k].name == name
      modifies this
      ensures parent in entries && Items(entries[parent].subdir) == Drop(Items(old(entries)[parent].subdir), k)
      ensures TornDown(old(entries), old(left), entries, left, kid, parent, entries[parent].subdir)
    {
      ghost var items := Items(entries[parent].subdir);
      var ret, i := RemoveProcSubtree(name, parent, kids);
      SameName(items, i, k);
    }

    /** Removing the new child k again; es0 are the entries before it was made. */
    method RemoveMade(name: string, parent: nat, id: nat, ghost kids: seq<Tree>, ghost k: nat, ghost es0: Entries)
      requires Directory(parent, kids) && k < |kids| && kids[k] == Tree(id, [])
      requires k < |Items(entries[parent].subdir)| && Items(entries[parent].subdir)[k].name == name
      requires parent in es0 && id !in es0 && id !in left
      requires entries == es0[id := Entry(name, true, 2, parent, Leaf, 1)]
                             [parent := es0[parent].(nlink := es0[parent].nlink + 1, subdir := entries[parent].subdir)]
      modifies this
      ensures left == old(left) && parent in entries
      ensures entries == es0[parent := es0[parent].(subdir := entries[parent].subdir)]
      ensures Items(entries[parent].subdir) == Drop(Items(old(entries)[parent].subdir), k)
    {
      ghost var es1, left1 := entries, left;
      RemoveChild(name, parent, kids, k, Tree(id, []));
      MadeAndRemoved(es0, es1, left1, entries, left, parent, id, name);
    }

    /** Making a directory and removing it again leaves everything but the balance of the index as it was. */
    method MkdirRemove(name: string, parent: nat, id: nat, ghost kids: seq<Tree>)
      requires Directory(parent, kids) && id !in entries && id !in left && id !in NodesAll(kids)
      modifies this
      ensures left == old(left) && parent in entries
      ensures entries == old(entries)[parent := old(entries)[parent].(subdir := entries[parent].subdir)]
      ensures Items(entries[parent].subdir) == Items(old(entries)[parent].subdir)
    {
      ghost var es0, items := entries, Items(entries[parent].subdir);
      ghost var k, more;
      var ok;
      ok, k, more := ProcMkdirData(name, parent, id, false, kids);
      if !ok { return; }
      InsertDrop(items, k, Item(name, id), Items(entries[parent].subdir));
      InsertDrop(kids, k, Tree(id, []), more);
      RemoveMade(name, parent, id, more, k, es0);
    }

    /**
     * remove_proc_subtree, run alone: every entry of the named subtree is run down and put exactly
     * once, children first; outside it only the index and the nlink of the parent change.
     */
    method RemoveProcSubtree(name: string, parent: nat, ghost kids: seq<Tree>) returns (ret: int, ghost i: nat)
      requires Directory(parent, kids)
      modifies this
      ensures ret == 0 <==> Named(Items(old(entries)[parent].subdir), name)
      ensures ret != 0 ==> ret == -ENOENT && entries == old(entries) && left == old(left) && log == old(log)
      ensures ret == 0 ==> i < |kids| && Items(old(entries)[parent].subdir)[i].name == name
      ensures ret == 0 ==> log == old(log) + Events(Post(kids[i]))
      ensures ret == 0 ==> parent in entries
      ensures ret == 0 ==> TornDown(old(entries), old(left), entries, left, kids[i], parent, entries[parent].subdir)
      ensures ret == 0 ==> Items(entries[parent].subdir) == Drop(Items(old(entries)[parent].subdir), i)
      ensures ret == 0 ==> Directory(parent, Drop(kids, i))
    {
      i := 0;
      ghost var es0, items := entries, Items(entries[parent].subdir);
      var found := SubdirFind(entries[parent].subdir, name);
      if found.None? { return -ENOENT, i; }
      var root := found.value;
      var at := Index(Items(entries[parent].subdir), Item(name, root));
      i := at;
      ghost var sub := kids[i];
      TakeChild(entries, parent, kids, items, i);
      var t := Erase(entries[parent].subdir, at);
      entries := entries[parent := entries[parent].(subdir := t)];
      HasFrame(es0, entries, parent, sub, items[i]);
      ghost var es1 := entries;
      TearDown(root, sub, parent, items[i]);
      TornDownBefore(es0, es1, old(left), entries, left, sub, parent);
      LeftApart(es0, old(left), entries, left, sub, parent, t);
      OthersStay(es0, old(left), entries, left, kids, i, parent, items, t);
      SortedDrop(items, i);
      ret := 0;
    }
  }

  const ENOENT: int := 2
  const EEXIST: int := 17

  lemma {:induction false} BelowSize(es: Entries, p: nat, kids: seq<Tree>, items: seq<Item>)
    requires ProcTree.Below(es, p, kids, items)
    ensures |kids| == |items|
  {
  }

  lemma {:induction false} InsertChild(es: Entries, p: nat, kids: seq<Tree>, items: seq<Item>, k: nat, t: Tree,
                                       item: Item)
    requires ProcTree.Below(es, p, kids, items) && DistinctAll(kids) && k <= |kids|
    requires Has(es, p, t, item) && Distinct(t) && Nodes(t) !! NodesAll(kids)
    ensures var z := kids[..k] + [t] + kids[k..];
      && ProcTree.Below(es, p, z, items[..k] + [item] + items[k..])
      && DistinctAll(z) && NodesAll(z) == NodesAll(kids) + Nodes(t)
    decreases k
  {
    var z, y := kids[..k] + [t] + kids[k..], items[..k] + [item] + items[k..];
    if k == 0 {
      assert z[1..] == kids && y[1..] == items;
    } else {
      InsertChild(es, p, kids[1..], items[1..], k - 1, t, item);
      InsertTail(kids, k, t);
      InsertTail(items, k, item);
    }
  }

  lemma {:induction false} InsertTail<T>(s: seq<T>, k: nat, x: T)
    requires 0 < k <= |s|
    ensures var z := s[..k] + [x] + s[k..]; z[0] == s[0] && z[1..] == s[1..][..k - 1] + [x] + s[1..][k - 1..]
  {
  }

  lemma {:induction false} NewChild(es0: Entries, es: Entries, parent: nat, kids: seq<Tree>, items: seq<Item>, k: nat,
                                    id: nat, name: string)
    requires parent in es0 && parent in es && id !in es0 && parent !in NodesAll(kids) && id !in NodesAll(kids)
    requires ProcTree.Below(es0, parent, kids, items) && DistinctAll(kids) && k <= |kids| == |items|
    requires es.Keys == es0.Keys + {id} && es[id] == Entry(name, true, 2, parent, Leaf, 1)
    requires forall i <- es0 :: i != parent ==> es[i] == es0[i]
    ensures ProcTree.Below(es, parent, kids[..k] + [Tree(id, [])] + kids[k..],
                           items[..k] + [Item(name, id)] + items[k..])
    ensures var z := kids[..k] + [Tree(id, [])] + kids[k..]; DistinctAll(z) && parent !in NodesAll(z)
  {
    var t := Tree(id, []);
    BelowFrame(es0, es, parent, kids, items);
    assert Items(Leaf) == [] && ProcTree.Below(es, id, [], []) && Nodes(t) == {id} && NodesAll([]) == {};
    InsertChild(es, parent, kids, items, k, t, Item(name, id));
  }

  lemma {:induction false} InsertDrop<T>(s: seq<T>, k: nat, x: T, z: seq<T>)
    requires k <= |s| && z == s[..k] + [x] + s[k..]
    ensures |z| == |s| + 1 && z[k] == x && Drop(z, k) == s
  {
  }

  /** No two items of an index have the same name. */
  lemma {:induction false} SameName(items: seq<Item>, i: nat, k: nat)
    requires Sorted(items) && i < |items| && k < |items| && items[i].name == items[k].name
    ensures i == k
  {
    MatchOrder(items[i].name, items[k].name);
  }

  lemma {:induction false} MadeAndRemoved(es0: Entries, es1: Entries, left0: Entries, es: Entries, left: Entries,
                                          parent: nat, id: nat, name: string)
    requires parent in es0 && parent in es1 && parent in es && id !in es0 && id !in left0
    requires es1 == es0[id := Entry(name, true, 2, parent, Leaf, 1)]
                       [parent := es0[parent].(nlink := es0[parent].nlink + 1, subdir := es1[parent].subdir)]
    requires TornDown(es1, left0, es, left, Tree(id, []), parent, es[parent].subdir)
    ensures left == left0 && es == es0[parent := es0[parent].(subdir := es[parent].subdir)]
  {
    var t := Tree(id, []);
    assert Nodes(t) == {id};
    forall i: nat
      ensures i in es <==> i in es0
      ensures i in es && i != parent ==> es[i] == es0[i]
      ensures (i in left <==> i in left0) && (i in left ==> left[i] == left0[i])
    {
      assert Removed(es1, left0, es, left, Nodes(t), parent, es[parent].subdir, es1[t.id].isDir, i);
    }
    assert Removed(es1, left0, es, left, Nodes(t), parent, es[parent].subdir, es1[t.id].isDir, parent);
  }

  lemma {:induction false} SortedDrop(items: seq<Item>, i: nat)
    requires i < |items| && Sorted(items)
    ensures Sorted(Drop(items, i))
  {
    var d := Drop(items, i);
    forall j, k | 0 <= j < k < |d| ensures Match(d[j].name, d[k].name) < 0 {
      assert d[j] == items[if j < i then j else j + 1] && d[k] == items[if k < i then k else k + 1];
    }
  }

  // es1 is es0 with a new index in the parent, es what the teardown leaves.

  lemma {:induction false} TornDownBefore(es0: Entries, es1: Entries, left0: Entries, es: Entries, left: Entries,
                                          sub: Tree, parent: nat)
    requires parent in es0 && parent in es1 && es1 == es0[parent := es0[parent].(subdir := es1[parent].subdir)]
    requires sub.id in es0 && sub.id != parent && parent !in Nodes(sub)
    requires TornDown(es1, left0, es, left, sub, parent, es1[parent].subdir)
    ensures parent in es && es[parent].subdir == es1[parent].subdir
    ensures TornDown(es0, left0, es, left, sub, parent, es1[parent].subdir)
  {
    var t := es1[parent].subdir;
    assert Removed(es1, left0, es, left, Nodes(sub), parent, t, es1[sub.id].isDir, parent);
    forall id: nat ensures Removed(es0, left0, es, left, Nodes(sub), parent, t, es0[sub.id].isDir, id) {
      assert Removed(es1, left0, es, left, Nodes(sub), parent, t, es1[sub.id].isDir, id);
    }
  }

  lemma {:induction false} LeftApart(es0: Entries, left0: Entries, es: Entries, left: Entries, sub: Tree,
                                     parent: nat, t: Rb)
    requires TornDown(es0, left0, es, left, sub, parent, t) && left0.Keys !! es0.Keys
    ensures left.Keys !! es.Keys
  {
    forall id | id in left.Keys ensures id !in es {
      assert Removed(es0, left0, es, left, Nodes(sub), parent, t, es0[sub.id].isDir, id);
    }
  }

  lemma {:induction false} OthersStay(es0: Entries, left0: Entries, es: Entries, left: Entries, kids: seq<Tree>, i: nat,
                                      parent: nat, items: seq<Item>, t: Rb)
    requires i < |kids| && parent !in NodesAll(kids) && DistinctAll(kids)
    requires ProcTree.Below(es0, parent, kids, items) && TornDown(es0, left0, es, left, kids[i], parent, t)
    ensures DistinctAll(Drop(kids, i)) && parent !in NodesAll(Drop(kids, i))
    ensures ProcTree.Below(es, parent, Drop(kids, i), Drop(items, i))
  {
    var sub, rest := kids[i], Drop(kids, i);
    TakeChild(es0, parent, kids, items, i);
    forall id | id in NodesAll(rest) ensures SameEntry(es0, es, id) {
      assert Removed(es0, left0, es, left, Nodes(sub), parent, t, es0[sub.id].isDir, id);
    }
    BelowFrame(es0, es, parent, rest, Drop(items, i));
  }
}
