/**
 * The name index of a /proc directory: HamielecKarol/cw05/proc/generic.c keeps the entries of
 * a directory in a red-black tree ordered by length of the name, then by memcmp.
 */
module ProcNames {
  import opened Wrappers

  function Memcmp(a: string, b: string): (r: int)
    requires |a| == |b|
  {
    if a == [] then 0 else if a[0] < b[0] then -1 else if a[0] > b[0] then 1 else Memcmp(a[1..], b[1..])
  }

  /** proc_match: how name a compares with the name b of an entry. */
  function Match(a: string, b: string): int {
    if |a| < |b| then -1 else if |a| > |b| then 1 else Memcmp(a, b)
  }

  lemma {:induction false} MemcmpOrder(a: string, b: string)
    requires |a| == |b|
    ensures (Memcmp(a, b) == 0 <==> a == b) && (Memcmp(b, a) < 0 <==> Memcmp(a, b) > 0)
  {
    if a != [] {
      MemcmpOrder(a[1..], b[1..]);
      assert a == [a[0]] + a[1..] && b == [b[0]] + b[1..];
    }
  }

  lemma {:induction false} MemcmpChain(a: string, b: string, c: string)
    requires |a| == |b| == |c| && Memcmp(a, b) < 0 && Memcmp(b, c) < 0
    ensures Memcmp(a, c) < 0
  {
    if a != [] && a[0] == b[0] == c[0] { MemcmpChain(a[1..], b[1..], c[1..]); }
  }

  /** proc_match is a total order on names, and equal only for the same name. */
  lemma {:induction false} MatchOrder(a: string, b: string)
    ensures (Match(a, b) == 0 <==> a == b) && (Match(b, a) < 0 <==> Match(a, b) > 0)
  {
    if |a| == |b| { MemcmpOrder(a, b); }
  }

  lemma {:induction false} MatchChain(a: string, b: string, c: string)
    requires Match(a, b) < 0 && Match(b, c) < 0
    ensures Match(a, c) < 0
  {
    if |a| == |b| == |c| { MemcmpChain(a, b, c); }
  }

  /** Shorter names come first; names of one length by the first place at which they differ. */
  lemma {:induction false} MatchIs(a: string, b: string)
    ensures Match(a, b) < 0 <==> |a| < |b| || (|a| == |b| && exists k: nat :: DifferAt(a, b, k) && a[k] < b[k])
  {
    if |a| == |b| { MemcmpIs(a, b); }
  }

  /** The names are the same up to place k, and differ there. */
  predicate DifferAt(a: string, b: string, k: nat) {
    k < |a| && k < |b| && a[..k] == b[..k] && a[k] != b[k]
  }

  lemma {:induction false} MemcmpIs(a: string, b: string)
    requires |a| == |b|
    ensures Memcmp(a, b) < 0 <==> exists k: nat :: DifferAt(a, b, k) && a[k] < b[k]
  {
    if a != [] && a[0] == b[0] {
      MemcmpIs(a[1..], b[1..]);
      if k: nat :| DifferAt(a, b, k) && a[k] < b[k] {
        assert a[..k][1..] == a[1..][..k - 1] && b[..k][1..] == b[1..][..k - 1];
        assert DifferAt(a[1..], b[1..], k - 1);
      }
      if k: nat :| DifferAt(a[1..], b[1..], k) && a[1..][k] < b[1..][k] {
        assert a[..k + 1] == [a[0]] + a[1..][..k] && b[..k + 1] == [b[0]] + b[1..][..k];
        assert DifferAt(a, b, k + 1);
      }
    } else if a != [] {
      assert DifferAt(a, b, 0);
      forall k: nat ensures k > 0 && k < |a| ==> a[..k] != b[..k] { FirstSame(a, b, k); }
    }
  }

  lemma {:induction false} FirstSame(a: string, b: string, k: nat)
    requires 0 < |a| == |b|
    ensures 0 < k <= |a| && a[..k] == b[..k] ==> a[0] == b[0]
  {
    if 0 < k <= |a| && a[..k] == b[..k] { assert a[0] == a[..k][0] && b[0] == b[..k][0]; }
  }

  // ---------- the tree ----------

  datatype Item = Item(name: string, id: nat)

  datatype Rb = Leaf | Node(left: Rb, item: Item, right: Rb)

  /** The entries in order. */
  function Items(t: Rb): seq<Item> {
    match t
    case Leaf => []
    case Node(l, item, r) => Items(l) + [item] + Items(r)
  }

  ghost predicate Below(items: seq<Item>, name: string) {
    forall i :: 0 <= i < |items| ==> Match(items[i].name, name) < 0
  }

  ghost predicate Above(items: seq<Item>, name: string) {
    forall i :: 0 <= i < |items| ==> Match(items[i].name, name) > 0
  }

  ghost predicate Sorted(items: seq<Item>) {
    forall i, j :: 0 <= i < j < |items| ==> Match(items[i].name, items[j].name) < 0
  }

  ghost predicate Named(items: seq<Item>, name: string) {
    exists i :: 0 <= i < |items| && items[i].name == name
  }

  /** Around an item that is named otherwise, one side of the tree is out of the question. */
  lemma {:induction false} Side(l: seq<Item>, item: Item, r: seq<Item>, name: string)
    requires Sorted(l + [item] + r)
    ensures Match(name, item.name) < 0 ==> Above([item] + r, name)
    ensures Match(name, item.name) > 0 ==> Below(l + [item], name)
  {
    var all := l + [item] + r;
    assert all[|l|] == item;
    MatchOrder(name, item.name);
    if Match(name, item.name) < 0 {
      forall i | 0 <= i < |[item] + r| ensures Match(([item] + r)[i].name, name) > 0 {
        var x := ([item] + r)[i].name;
        assert all[|l| + i].name == x;
        if i > 0 { MatchChain(name, item.name, x); }
        MatchOrder(x, name);
      }
    }
    if Match(name, item.name) > 0 {
      forall i | 0 <= i < |l + [item]| ensures Match((l + [item])[i].name, name) < 0 {
        var x := (l + [item])[i].name;
        assert all[i].name == x;
        if i < |l| { MatchChain(x, item.name, name); }
      }
    }
  }

  lemma {:induction false} SortedPart(l: seq<Item>, m: seq<Item>, r: seq<Item>)
    requires Sorted(l + m + r)
    ensures Sorted(m)
  {
    forall i, j | 0 <= i < j < |m| ensures Match(m[i].name, m[j].name) < 0 {
      assert (l + m + r)[|l| + i] == m[i] && (l + m + r)[|l| + j] == m[j];
    }
  }

  /** The walk has come to `node`: everything before it is smaller, everything behind it greater. */
  ghost predicate Reached(all: seq<Item>, l: seq<Item>, node: Rb, r: seq<Item>, name: string) {
    all == l + Items(node) + r && Below(l, name) && Above(r, name)
  }

  lemma {:induction false} WalkOn(all: seq<Item>, l: seq<Item>, node: Rb, r: seq<Item>, name: string)
    requires Sorted(all) && node.Node? && Reached(all, l, node, r, name)
    ensures Match(name, node.item.name) < 0 ==> Reached(all, l, node.left, [node.item] + Items(node.right) + r, name)
    ensures Match(name, node.item.name) > 0 ==> Reached(all, l + Items(node.left) + [node.item], node.right, r, name)
  {
    SortedPart(l, Items(node), r);
    Side(Items(node.left), node.item, Items(node.right), name);
    assert l + Items(node) + r == l + Items(node.left) + ([node.item] + Items(node.right) + r);
    assert l + Items(node) + r == (l + Items(node.left) + [node.item]) + Items(node.right) + r;
    assert l + (Items(node.left) + [node.item]) == l + Items(node.left) + [node.item];
  }

  lemma {:induction false} Regroup(a: seq<Item>, b: seq<Item>, c: seq<Item>)
    ensures a + b + c == a + (b + c)
  {
  }

  lemma {:induction false} NotNamed(l: seq<Item>, r: seq<Item>, name: string)
    requires Below(l, name) && Above(r, name)
    ensures !Named(l + r, name)
  {
    forall i | 0 <= i < |l + r| ensures (l + r)[i].name != name {
      MatchOrder((l + r)[i].name, name);
      assert i < |l| ==> (l + r)[i] == l[i];
      assert i >= |l| ==> (l + r)[i] == r[i - |l|];
    }
  }

  lemma {:induction false} FoundHere(all: seq<Item>, l: seq<Item>, node: Rb, r: seq<Item>, name: string)
    requires node.Node? && Reached(all, l, node, r, name) && Match(name, node.item.name) == 0
    ensures Named(all, name) && Item(name, node.item.id) in all
  {
    MatchOrder(name, node.item.name);
    assert all[|l| + |Items(node.left)|] == node.item;
  }

  // ---------- walking down ----------

  /** The subtree behind the given turns (true is right). */
  function At(t: Rb, path: seq<bool>): Rb
    decreases |path|
  {
    if path == [] || t.Leaf? then t
    else if path[0] then At(t.right, path[1..]) else At(t.left, path[1..])
  }

  /** rb_link_node: a new leaf in the empty slot behind the given turns. */
  function LinkAt(t: Rb, path: seq<bool>, item: Item): Rb
    decreases |path|
  {
    match t
    case Leaf => Node(Leaf, item, Leaf)
    case Node(l, x, r) =>
      if path == [] then t
      else if path[0] then Node(l, x, LinkAt(r, path[1..], item))
      else Node(LinkAt(l, path[1..], item), x, r)
  }

  lemma {:induction false} AtNext(t: Rb, path: seq<bool>, right: bool)
    requires At(t, path).Node?
    ensures At(t, path + [right]) == if right then At(t, path).right else At(t, path).left
    decreases |path|
  {
    if path == [] { assert (path + [right])[1..] == []; } else {
      assert (path + [right])[1..] == path[1..] + [right];
      AtNext(if path[0] then t.right else t.left, path[1..], right);
    }
  }

  /** The items before the place that the turns lead to. */
  function Before(t: Rb, path: seq<bool>): seq<Item>
    decreases |path|
  {
    if path == [] || t.Leaf? then []
    else if path[0] then Items(t.left) + [t.item] + Before(t.right, path[1..])
    else Before(t.left, path[1..])
  }

  /** The items behind it. */
  function Behind(t: Rb, path: seq<bool>): seq<Item>
    decreases |path|
  {
    if path == [] || t.Leaf? then []
    else if path[0] then Behind(t.right, path[1..])
    else Behind(t.left, path[1..]) + ([t.item] + Items(t.right))
  }

  /** The new leaf takes its place between what is before and what is behind the slot. */
  lemma {:induction false} LinkItems(t: Rb, path: seq<bool>, item: Item)
    requires At(t, path).Leaf?
    ensures Items(LinkAt(t, path, item)) == Before(t, path) + [item] + Behind(t, path)
    decreases |path|
  {
    if t.Node? && path != [] {
      LinkItems(if path[0] then t.right else t.left, path[1..], item);
    }
  }

  lemma {:induction false} BeforeNext(t: Rb, path: seq<bool>, right: bool)
    requires At(t, path).Node?
    ensures var node := At(t, path);
      Before(t, path + [right]) == if right then Before(t, path) + (Items(node.left) + [node.item]) else Before(t, path)
    decreases |path|
  {
    var more := path + [right];
    if path == [] { assert more[1..] == []; } else {
      assert more[1..] == path[1..] + [right];
      BeforeNext(if path[0] then t.right else t.left, path[1..], right);
    }
  }

  lemma {:induction false} BehindNext(t: Rb, path: seq<bool>, right: bool)
    requires At(t, path).Node?
    ensures var node := At(t, path);
      Behind(t, path + [right]) == if right then Behind(t, path) else [node.item] + Items(node.right) + Behind(t, path)
    decreases |path|
  {
    var more := path + [right];
    if path == [] { assert more[1..] == []; } else {
      assert more[1..] == path[1..] + [right];
      var child := if path[0] then t.right else t.left;
      var node := At(child, path[1..]);
      BehindNext(child, path[1..], right);
      Regroup([node.item] + Items(node.right), Behind(child, path[1..]), [t.item] + Items(t.right));
    }
  }

  lemma {:induction false} SortedInsert(l: seq<Item>, item: Item, r: seq<Item>)
    requires Sorted(l + r) && Below(l, item.name) && Above(r, item.name)
    ensures Sorted(l + [item] + r)
  {
    var all := l + [item] + r;
    forall i, j | 0 <= i < j < |all| ensures Match(all[i].name, all[j].name) < 0 {
      var x, y := if i < |l| then i else i - 1, if j < |l| then j else j - 1;
      if i == |l| { MatchOrder(item.name, all[j].name); assert all[j] == r[j - |l| - 1]; }
      else if j == |l| { assert all[i] == l[i]; }
      else { assert (l + r)[x] == all[i] && (l + r)[y] == all[j]; }
    }
  }

  // A walk down the tree t: the turns taken, the node reached, and the items on both sides of it.
  datatype Walk = Walk(t: Rb, path: seq<bool>, l: seq<Item>, node: Rb, r: seq<Item>)

  /** The walk looks for name and is on its way. */
  ghost predicate OnWay(w: Walk, name: string) {
    match w
    case Walk(t, path, l, node, r) =>
      Reached(Items(t), l, node, r, name) && node == At(t, path) && l == Before(t, path) && r == Behind(t, path)
  }

  function GoLeft(w: Walk): Walk
    requires w.node.Node?
  {
    Walk(w.t, w.path + [false], w.l, w.node.left, [w.node.item] + Items(w.node.right) + w.r)
  }

  function GoRight(w: Walk): Walk
    requires w.node.Node?
  {
    Walk(w.t, w.path + [true], w.l + Items(w.node.left) + [w.node.item], w.node.right, w.r)
  }

  lemma {:induction false} OnLeft(w: Walk, name: string)
    requires OnWay(w, name) && w.node.Node? && Sorted(Items(w.t)) && Match(name, w.node.item.name) < 0
    ensures OnWay(GoLeft(w), name)
  {
    WalkOn(Items(w.t), w.l, w.node, w.r, name);
    AtNext(w.t, w.path, false);
    BeforeNext(w.t, w.path, false);
    BehindNext(w.t, w.path, false);
  }

  lemma {:induction false} OnRight(w: Walk, name: string)
    requires OnWay(w, name) && w.node.Node? && Sorted(Items(w.t)) && Match(name, w.node.item.name) > 0
    ensures OnWay(GoRight(w), name)
  {
    WalkOn(Items(w.t), w.l, w.node, w.r, name);
    AtNext(w.t, w.path, true);
    BeforeNext(w.t, w.path, true);
    BehindNext(w.t, w.path, true);
    Regroup(w.l, Items(w.node.left), [w.node.item]);
  }

  lemma {:induction false} FoundOn(w: Walk, name: string)
    requires OnWay(w, name) && w.node.Node? && Match(name, w.node.item.name) == 0
    ensures Named(Items(w.t), name) && Item(name, w.node.item.id) in Items(w.t)
  {
    FoundHere(Items(w.t), w.l, w.node, w.r, name);
  }

  /** At the bottom the name is not there, and a new leaf takes its place between the two sides. */
  lemma {:induction false} AtBottom(w: Walk, item: Item)
    requires OnWay(w, item.name) && w.node.Leaf? && Sorted(Items(w.t))
    ensures Items(w.t) == w.l + w.r && !Named(Items(w.t), item.name)
    ensures Items(LinkAt(w.t, w.path, item)) == w.l + [item] + w.r && Sorted(w.l + [item] + w.r)
  {
    LinkItems(w.t, w.path, item);
    assert Items(w.t) == w.l + w.r;
    NotNamed(w.l, w.r, item.name);
    SortedInsert(w.l, item, w.r);
  }

  /** pde_subdir_find: the entry with the name, if and only if the directory has one. */
  method SubdirFind(t: Rb, name: string) returns (found: Option<nat>)
    requires Sorted(Items(t))
    ensures found.Some? <==> Named(Items(t), name)
    ensures found.Some? ==> Item(name, found.value) in Items(t)
  {
    var node := t;
    ghost var w := Walk(t, [], [], t, []);
    assert [] + Items(t) + [] == Items(t);
    while node.Node?
      invariant OnWay(w, name) && w.t == t && w.node == node
      decreases node
    {
      var result := Match(name, node.item.name);
      if result < 0 {
        OnLeft(w, name);
        node, w := node.left, GoLeft(w);
      } else if result > 0 {
        OnRight(w, name);
        node, w := node.right, GoRight(w);
      } else {
        FoundOn(w, name);
        return Some(node.item.id);
      }
    }
    AtBottom(w, Item(name, 0));
    return None;
  }

  // ---------- insertion ----------

  /** rb_insert_color rebalances: any tree with the same items in the same order. */
  method Rebalance(start: Rb) returns (t: Rb)
    ensures Items(t) == Items(start)
  {
    t :| Items(t) == Items(start);
  }

  /** Some tree has the given items in order. */
  lemma {:induction false} SomeTree(items: seq<Item>) returns (t: Rb)
    ensures Items(t) == items
  {
    if items == [] { return Leaf; }
    t := SomeTree(items[1..]);
    t := Node(Leaf, items[0], t);
  }

  /** Where the item is. */
  function Index(items: seq<Item>, item: Item): (i: nat)
    requires item in items
    ensures i < |items| && items[i] == item
  {
    if items[0] == item then 0 else 1 + Index(items[1..], item)
  }

  /** rb_erase: any tree with the items but number i, in order. */
  method Erase(t: Rb, i: nat) returns (z: Rb)
    requires i < |Items(t)|
    ensures Items(z) == Items(t)[..i] + Items(t)[i + 1..]
  {
    ghost var some := SomeTree(Items(t)[..i] + Items(t)[i + 1..]);
    z :| Items(z) == Items(t)[..i] + Items(t)[i + 1..];
  }

  /** pde_subdir_insert: refused if and only if the name is taken; else the item joins the order. */
  method SubdirInsert(t: Rb, item: Item) returns (ok: bool, t': Rb, ghost l: seq<Item>, ghost r: seq<Item>)
    requires Sorted(Items(t))
    ensures ok <==> !Named(Items(t), item.name)
    ensures !ok ==> t' == t
    ensures ok ==> Items(t) == l + r && Items(t') == l + [item] + r && Sorted(Items(t'))
  {
    var node, path := t, [];
    ghost var w := Walk(t, [], [], t, []);
    assert [] + Items(t) + [] == Items(t);
    while node.Node?
      invariant OnWay(w, item.name) && w.t == t && w.node == node && w.path == path
      decreases node
    {
      var result := Match(item.name, node.item.name);
      if result < 0 {
        OnLeft(w, item.name);
        node, path, w := node.left, path + [false], GoLeft(w);
      } else if result > 0 {
        OnRight(w, item.name);
        node, path, w := node.right, path + [true], GoRight(w);
      } else {
        FoundOn(w, item.name);
        return false, t, [], [];
      }
    }
    AtBottom(w, item);
    t' := Rebalance(LinkAt(t, path, item));
    return true, t', w.l, w.r;
  }
}
