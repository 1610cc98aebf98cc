// What the tree operations need to know about pools, contexts and entries.
module RbFacts {
  import opened Arithmetic
  import opened Common
  import opened RbShapes
  import opened RbBalance
  import opened SortedEntries

  lemma NothingRemoved<V>(m: map<int, V>, key: int)
    requires key !in m
    ensures m == m - {key}
  {
  }

  lemma SplicedEntries<V>(c: Ctx<V>, t: Tree<V>)
    requires t.Node?
    ensures t.left.Leaf? ==> Lower(c, t) + Upper(c, t) == Before(c) + Entries(t.right) + After(c)
    ensures t.right.Leaf? ==> Lower(c, t) + Upper(c, t) == Before(c) + Entries(t.left) + After(c)
    ensures Lower(c, t) + Upper(c, t) == Before(c) + (Entries(t.left) + Entries(t.right)) + After(c)
  {
    assert t.left.Leaf? ==> Entries(t.left) == [];
    assert t.right.Leaf? ==> Entries(t.right) == [];
    hide Entries, Before, After;
  }

  lemma RemovedEntries<V>(m: Pool<V>, root: nat, tree: Tree<V>, c: Ctx<V>, t: Tree<V>, key: int)
    requires Searching(m, root, tree, c, t, key) && t.Node? && t.item.key == key
    ensures Sorted(Lower(c, t) + Upper(c, t)) && AsMap(Lower(c, t) + Upper(c, t)) == AsMap(Entries(tree)) - {key}
    ensures Zip(m, root, Summary(tree), c, t) && Plug(c, t) == tree && t.item.index in Ids(tree) && t.item.index != 0
  {
    assert Entries(tree) == Before(c) + Entries(t) + After(c);
    assert t.item.index in Ids(tree) by {
      RootIn(t);
      ZipSplit(m, root, Summary(tree), c, t);
    }
    hide Zip, Sorted, Before, After, Entries, Plug, DownCtx, Kid, Lower, Upper, AsMap, Ids;
    Around(c, t);
    MapDrop(Lower(c, t), t.item.AsEntry(), Upper(c, t));
  }

  // A slot outside the tree can be given back to the pool.
  lemma Dropped<V>(m: Pool<V>, root: nat, w: Whole<V>, t: Tree<V>, z: nat)
    requires Zip(m, root, w, Top, t) && z !in w.ids && z != 0
    ensures Zip(m - {z}, root, w, Top, t)
  {
    assert Before<V>(Top) == [] && CtxIds<V>(Top) == {};
    assert Parent<V>(Top) == 0;
    RepFrame(m, m - {z}, t, 0);
    hide Rep, Entries, Ids, Before, After, Apart;
  }

  lemma ZipSplit<V>(m: Pool<V>, root: nat, w: Whole<V>, c: Ctx<V>, t: Tree<V>)
    requires Zip(m, root, w, c, t)
    ensures Split(w.ids, c, t)
  {
  }

  // The focus moved from a node to a subtree of its right side, and back.
  lemma Lowered<V>(m: Pool<V>, root: nat, w: Whole<V>, c: Ctx<V>, l: Tree<V>, z: Item<V>, r: Tree<V>, spine: Ctx<V>,
                   t: Tree<V>)
    requires Zip(m, root, w, c, Node(l, z, r)) && r == Plug(spine, t)
    ensures Zip(m, root, w, Append(spine, Under(Right, z, l, c)), t)
  {
    assert Join(Right, r, z, l) == Node(l, z, r);
    hide Zip, Join, Plug, Append;
    ZipUp(m, root, w, Under(Right, z, l, c), r);
    AppendZip(m, root, w, spine, Under(Right, z, l, c), t);
  }

  lemma Raised<V>(m: Pool<V>, root: nat, w: Whole<V>, c: Ctx<V>, l: Tree<V>, z: Item<V>, spine: Ctx<V>, t: Tree<V>)
    requires Zip(m, root, w, Append(spine, Under(Right, z, l, c)), t)
    ensures Zip(m, root, w, c, Node(l, z, Plug(spine, t)))
  {
    assert Join(Right, Plug(spine, t), z, l) == Node(l, z, Plug(spine, t));
    hide Zip, Join, Plug, Append;
    AppendZip(m, root, w, spine, Under(Right, z, l, c), t);
    ZipUp(m, root, w, Under(Right, z, l, c), Plug(spine, t));
  }

  lemma PeekKids<V>(m: Pool<V>, root: nat, w: Whole<V>, c: Ctx<V>, t: Tree<V>)
    requires Zip(m, root, w, c, t) && t.Node?
    ensures Root(t.left) in m && Root(t.right) in m
    ensures t.right.Node? ==> m[Root(t.right)].parent == t.item.index
  {
    assert Rep(m, t.left, t.item.index) && Rep(m, t.right, t.item.index);
  }

  lemma RootInPool<V>(m: Pool<V>, root: nat, w: Whole<V>, c: Ctx<V>, l: Tree<V>, z: Item<V>, r: Tree<V>)
    requires Zip(m, root, w, c, Node(l, z, r))
    ensures Root(r) in m
  {
    PeekKids(m, root, w, c, Node(l, z, r));
  }

  // The successor is the first entry of the right subtree.
  lemma {:induction false} SpineEntries<V>(spine: Ctx<V>, y: Item<V>, t: Tree<V>)
    requires OnSide(spine, Left)
    ensures Entries(Plug(spine, Node(Leaf, y, t))) == [y.AsEntry()] + Entries(Plug(spine, t))
  {
    hide Entries, Plug, Before, After, OnSide;
    LeafEntries(y, t);
    NothingBefore(spine);
    PlugEntries(spine, Node(Leaf, y, t));
    PlugEntries(spine, t);
    Regroup([], [], [y.AsEntry()], Entries(t), After(spine));
  }

  lemma LeafEntries<V>(y: Item<V>, t: Tree<V>)
    ensures Entries(Node(Leaf, y, t)) == [y.AsEntry()] + Entries(t)
  {
  }

  lemma {:induction false} PlugEntries<V>(c: Ctx<V>, t: Tree<V>)
    ensures Entries(Plug(c, t)) == Before(c) + Entries(t) + After(c)
    decreases c
  {
    hide Entries;
    if c.Under? {
      PlugEntries(c.up, Join(c.side, t, c.item, c.other));
      EntriesUp(c, t);
    }
  }

  lemma {:induction false} NothingBefore<V>(c: Ctx<V>)
    ensures OnSide(c, Left) ==> Before(c) == []
    ensures OnSide(c, Right) ==> After(c) == []
  {
    if c.Under? { NothingBefore(c.up); }
  }

  lemma NewEntries<V>(c: Ctx<V>, l: Tree<V>, z: Item<V>, r: Tree<V>, r': Tree<V>, y: Item<V>)
    requires Entries(r) == [y.AsEntry()] + Entries(r')
    ensures Entries(Node(l, y.(color := z.color), r')) == Entries(l) + Entries(r)
  {
  }

  lemma {:induction false} BaseIds<V>(c: Ctx<V>, base: Ctx<V>)
    ensures CtxIds(base) <= CtxIds(Append(c, base)) && CtxIds(c) <= CtxIds(Append(c, base))
    ensures c.Under? ==> Parent(Append(c, base)) == Parent(c)
  {
    if c.Under? { BaseIds(c.up, base); }
  }

  lemma {:induction false} PlugRoot<V>(c: Ctx<V>, t: Tree<V>)
    ensures c.Under? ==> Root(Plug(c, t)) in CtxIds(c) && Plug(c, t).Node?
    ensures c.Top? ==> Plug(c, t) == t
    decreases c
  {
    if c.Under? {
      PlugRoot(c.up, Join(c.side, t, c.item, c.other));
    }
  }

  // Where the successor, its right child and the node it replaces cannot meet.
  lemma SuccessorSpots<V>(ids: set<nat>, spine: Ctx<V>, c: Ctx<V>, l: Tree<V>, z: Item<V>, y: Item<V>, t: Tree<V>)
    requires Split(ids, Append(spine, Under(Right, z, l, c)), Node(Leaf, y, t)) && l.Node?
    ensures Root(t) != y.index && Root(t) != Root(l) && (c.Under? ==> Root(t) != Parent(c)) && Root(t) != z.index
    ensures y.index != z.index && y.index != 0 && z.index != 0 && y.index in ids && z.index in ids
  {
    SpotSets(ids, spine, c, l, z, y, t);
    RootIn(t);
    RootIn(l);
    ParentIn(c);
    hide Ids, CtxIds, Append, Split;
  }

  // What a nonempty way down to the successor says.
  lemma SpineSpots<V>(ids: set<nat>, spine: Ctx<V>, c: Ctx<V>, l: Tree<V>, z: Item<V>, y: Item<V>, t: Tree<V>)
    requires Split(ids, Append(spine, Under(Right, z, l, c)), Node(Leaf, y, t))
    ensures spine.Under? ==> Root(t) != Root(Plug(spine, t)) && Root(Plug(spine, t)) != y.index && Plug(spine, t).Node?
    ensures spine.Under? ==> Parent(Append(spine, Under(Right, z, l, c))) == Parent(spine) != z.index
  {
    assert CtxApart(Append(spine, Under(Right, z, l, c)));
    SpotSets(ids, spine, c, l, z, y, t);
    SpineParent(spine, z, l, c);
    PlugRoot(spine, t);
    RootIn(t);
    hide Ids, CtxIds, Append, Split, Plug, CtxApart;
  }

  lemma ParentBelow<V>(spine: Ctx<V>, it: Item<V>, l: Tree<V>, c: Ctx<V>)
    ensures Parent(Append(spine, Under(Right, it, l, c))) == if spine.Top? then it.index else Parent(spine)
  {
  }

  lemma SpineParent<V>(spine: Ctx<V>, z: Item<V>, l: Tree<V>, c: Ctx<V>)
    requires CtxApart(Append(spine, Under(Right, z, l, c)))
    ensures spine.Under? ==> Parent(Append(spine, Under(Right, z, l, c))) == Parent(spine) != z.index
  {
    if spine.Under? {
      BaseIds(spine.up, Under(Right, z, l, c));
      assert z.index in CtxIds(Under(Right, z, l, c));
    }
  }

  lemma SpotSets<V>(ids: set<nat>, spine: Ctx<V>, c: Ctx<V>, l: Tree<V>, z: Item<V>, y: Item<V>, t: Tree<V>)
    requires Split(ids, Append(spine, Under(Right, z, l, c)), Node(Leaf, y, t))
    ensures var above := CtxIds(Append(spine, Under(Right, z, l, c)));
            && z.index in above && Ids(l) <= above && CtxIds(c) <= above && CtxIds(spine) <= above
            && Ids(t) !! above && y.index !in above && y.index !in Ids(t)
            && ids == above + Ids(t) + {y.index} && 0 !in ids
  {
    var base := Under(Right, z, l, c);
    BaseIds(spine, base);
    assert CtxIds(base) == Ids(l) + {z.index} + CtxIds(c);
    assert Ids(Node(Leaf, y, t)) == {y.index} + Ids(t);
    assert Apart(Node(Leaf, y, t)) ==> y.index !in Ids(t);
    hide Ids, CtxIds, Apart, CtxApart, Append;
  }

  lemma ReadyNear<V>(m: Pool<V>, n: Pool<V>, root: nat, w: Whole<V>, c: Ctx<V>, l: Tree<V>, z: Item<V>, y: Item<V>,
                     t: Tree<V>, spine: Ctx<V>)
    requires Zip(m, root, w, c, Node(l, z, Plug(spine, Node(Leaf, y, t)))) && spine.Top?
    requires Root(t) in m && n == m[Root(t) := m[Root(t)].(parent := y.index)]
    ensures Ready(n, root, w.ids, c, l, z, Plug(spine, t), y)
  {
    assert Plug(spine, Node(Leaf, y, t)) == Node(Leaf, y, t) && Plug(spine, t) == t;
    assert Node(l, z, Node(Leaf, y, t)) == Join(Left, l, z, Join(Left, Leaf, y, t));
    SplitPieces(w.ids, c, Left, l, z, Leaf, y, t);
    assert Rep(m, Node(Leaf, y, t), z.index) && Rep(m, t, y.index);
    assert t.Node? ==> n == m;
    assert forall i :: i in m && i != 0 ==> n[i] == m[i];
    hide Ids, CtxIds, Apart, CtxApart, Before, After, Entries, RepCtx, Rep;
    assert Placed(m, root, c, Node(l, z, Node(Leaf, y, t)));
    RepFrame(m, n, l, z.index);
    RepFrame(m, n, t, y.index);
    RepCtxFrame(m, n, c, z.index, root);
  }

  lemma ReadyFar<V>(m: Pool<V>, n: Pool<V>, root: nat, w: Whole<V>, w1: Whole<V>, c: Ctx<V>, l: Tree<V>, z: Item<V>,
                    r: Tree<V>, y: Item<V>, child: nat)
    requires Zip(m, root, w1, c, Node(l, z, r)) && w1.ids == w.ids - {y.index} && y.index in w.ids && 0 !in w.ids
             && r.Node?
    requires y.index in m && m[y.index] == CellOf(y, m[y.index].parent, Left, 0, child) && Root(r) in m
             && Root(r) != y.index
    requires n == m[y.index := m[y.index].(right := Root(r))][Root(r) := m[Root(r)].(parent := y.index)]
    ensures Ready(n, root, w.ids, c, l, z, r, y)
  {
    assert Rep(m, r, z.index) && Rep(m, l, z.index) && RepCtx(m, c, z.index, root);
    FarPieces(w.ids, w1.ids, c, l, z, r, y);
    RootIn(r);
    hide Ids, CtxIds, Apart, CtxApart, Before, After, Entries, RepCtx, Rep;
    RepFrame(m, n, l, z.index);
    Reparent(m, n, r, z.index, y.index);
    RepCtxFrame(m, n, c, z.index, root);
  }

  lemma FarPieces<V>(ids: set<nat>, rest: set<nat>, c: Ctx<V>, l: Tree<V>, z: Item<V>, r: Tree<V>, y: Item<V>)
    requires Split(rest, c, Node(l, z, r)) && rest == ids - {y.index} && y.index in ids && 0 !in ids
    ensures Pieces(ids, c, l, z.index, Leaf, y.index, r)
  {
    assert Ids(Node(l, z, r)) == Ids(l) + {z.index} + Ids(r);
    assert Apart(Node(l, z, r)) ==>
             Apart(l) && Apart(r) && Ids(l) !! Ids(r) && z.index !in Ids(l) && z.index !in Ids(r);
    assert Apart<V>(Leaf) && Ids<V>(Leaf) == {};
    hide Ids, Apart, CtxIds, CtxApart;
  }

  ghost predicate OnSide<V>(c: Ctx<V>, s: Side) {
    c.Under? ==> c.side == s && OnSide(c.up, s)
  }

  lemma KidRoot<V>(m: Pool<V>, root: nat, w: Whole<V>, c: Ctx<V>, t: Tree<V>, s: Side)
    requires Zip(m, root, w, c, t) && t.Node?
    ensures t.item.index in m && m[t.item.index].Child(s) == Root(Kid(t, s))
            && (Root(Kid(t, s)) == 0 <==> Kid(t, s).Leaf?)
  {
    assert Rep(m, Kid(t, s), t.item.index);
  }

  // `z` still hangs below its parent with its left subtree; `y` holds only the right part of the result.
  ghost predicate Ready<V>(m: Pool<V>, root: nat, ids: set<nat>, c: Ctx<V>, l: Tree<V>, z: Item<V>, r: Tree<V>,
                           y: Item<V>) {
    && Pieces(ids, c, l, z.index, Leaf, y.index, r) && NilOk(m)
    && RepCtx(m, c, z.index, root) && Rep(m, l, z.index) && Rep(m, r, y.index)
    && z.index in m && m[z.index].color == z.color && m[z.index].parent == Parent(c) && m[z.index].left == Root(l)
    && y.index in m && m[y.index] == CellOf(y, m[y.index].parent, Left, 0, Root(r))
  }

  lemma SingleTree<V>(m: Pool<V>, y: Item<V>, r: Tree<V>)
    requires y.index in m && y.index != 0 && Rep(m, r, y.index)
             && m[y.index] == CellOf(y, m[y.index].parent, Left, 0, Root(r))
    ensures Rep(m, Node(Leaf, y, r), m[y.index].parent)
  {
  }

  lemma ReadyIds<V>(ids: set<nat>, c: Ctx<V>, l: Tree<V>, z: nat, r: Tree<V>, y: Item<V>)
    requires Pieces(ids, c, l, z, Leaf, y.index, r)
    ensures Apart(Node(Leaf, y, r)) && Ids(Node(Leaf, y, r)) == {y.index} + Ids(r)
    ensures z !in ids - {z} && z != 0 && y.index != 0 && z != y.index
    ensures Split(ids - {z}, c, Node(l, y, r))
  {
  }

  lemma TookPlace<V>(m0: Pool<V>, m: Pool<V>, n: Pool<V>, root0: nat, root: nat, ids: set<nat>, c: Ctx<V>,
                     l: Tree<V>, z: Item<V>, r: Tree<V>, y: Item<V>)
    requires Pieces(ids, c, l, z.index, Leaf, y.index, r) && l.Node? && Rep(m0, l, z.index)
    requires Rep(m, Node(Leaf, y, r), Parent(c)) && RepCtx(m, c, y.index, root) && NilOk(m)
    requires forall i :: i in Ids(l) && i in m0 ==> i in m && m[i] == m0[i]
    requires y.index in m && Root(l) in m
    requires n
             == m[Root(l) := m[Root(l)].(parent := y.index)][y.index := m[y.index].(left := Root(l)).(color := z.color)]
    ensures var t := Node(l, y.(color := z.color), r);
            Zip(n, root, Whole(ids - {z.index}, Before(c) + Entries(t) + After(c)), c, t)
  {
    var t := Node(l, y.(color := z.color), r);
    assert Rep(m, r, y.index) && m[y.index] == CellOf(y, Parent(c), Left, 0, Root(r));
    RootIn(l);
    ReadyIds(ids, c, l, z.index, r, y.(color := z.color));
    assert n[y.index] == CellOf(t.item, Parent(c), Left, Root(l), Root(r))
           && n[Root(l)] == m[Root(l)].(parent := y.index);
    assert forall i :: i in m && i != y.index && i != Root(l) ==> n[i] == m[i];
    assert Rep(n, l, y.index) && Rep(n, r, y.index) ==> Rep(n, t, Parent(c));
    hide RepCtx, Rep, Ids, CtxIds, Apart, CtxApart, Before, After, Entries;
    RepFrame(m0, m, l, z.index);
    Reparent(m, n, l, z.index, y.index);
    RepFrame(m, n, r, y.index);
    RepCtxFrame(m, n, c, y.index, root);
  }

  ghost function Without<V>(w: Whole<V>, i: nat, c: Ctx<V>, t: Tree<V>): Whole<V> {
    Whole(w.ids - {i}, Before(c) + Entries(t) + After(c))
  }

  lemma Assembled<V>(m: Pool<V>, root: nat, w: Whole<V>, i: nat, c: Ctx<V>, t: Tree<V>)
    requires Placed(m, root, c, t) && NilOk(m) && Apart(t) && CtxApart(c) && Ids(t) !! CtxIds(c)
    requires w.ids == Ids(t) + CtxIds(c) + {i} && i !in Ids(t) && i !in CtxIds(c) && 0 !in w.ids
    ensures Zip(m, root, Without(w, i, c, t), c, t)
  {
  }

  // Which side the focus is on, and its sibling, read through the parent.
  lemma PeekSibling<V>(m: Pool<V>, root: nat, w: Whole<V>, c: Ctx<V>, t: Tree<V>)
    requires Zip(m, root, w, c, t) && c.Under? && c.other.Node?
    ensures Parent(c) in m && m[Parent(c)].Child(c.side.Other()) == Root(c.other)
    ensures m[Parent(c)].left == Root(t) <==> c.side == Left
    ensures Root(c.other) in m && (m[Root(c.other)].color == Red <==> IsRed(c.other))
  {
    Peek(m, root, w, c, t);
    PeekOther(m, root, w, c, t);
    CellFacts(c.item, Parent(c.up), c.side, Root(t), Root(c.other), 0);
    hide Zip;
  }

  // The children of the sibling, read through its cell.
  lemma Nephews<V>(m: Pool<V>, root: nat, w: Whole<V>, c: Ctx<V>, t: Tree<V>)
    requires Zip(m, root, w, c, t) && c.Under? && c.other.Node?
    ensures Root(c.other) in m && Root(c.other) != 0
    ensures forall s: Side ::
              && Root(Kid(c.other, s)) in m && m[Root(c.other)].Child(s) == Root(Kid(c.other, s))
              && (m[Root(Kid(c.other, s))].color == Red <==> IsRed(Kid(c.other, s)))
    ensures c.other.left == Kid(c.other, Left) && c.other.right == Kid(c.other, Right)
  {
    var o := c.other;
    assert Rep(m, o, c.item.index);
    forall s: Side
      ensures Root(Kid(o, s)) in m && m[Root(o)].Child(s) == Root(Kid(o, s))
              && (m[Root(Kid(o, s))].color == Red <==> IsRed(Kid(o, s)))
    {
      assert Rep(m, Kid(o, s), o.item.index);
    }
  }

  // A sound tree with a black root has no shortage.
  lemma NoShortage<V>(t: Tree<V>)
    requires RedBlack(t)
    ensures DeleteOk(Top, t)
  {
  }

  // Painting nil black changes nothing that is held.
  lemma NilPainted<V>(m: Pool<V>, root: nat, w: Whole<V>, c: Ctx<V>)
    requires Zip(m, root, w, c, Leaf)
    ensures 0 in m && m[0 := m[0].(color := Black)] == m
  {
  }

  // The focus moved from a subtree to its sibling.
  ghost function Opposite<V>(c: Ctx<V>, t: Tree<V>): Ctx<V>
    requires c.Under?
  {
    Under(c.side.Other(), c.item, t, c.up)
  }

  lemma Across<V>(m: Pool<V>, root: nat, w: Whole<V>, c: Ctx<V>, t: Tree<V>)
    requires c.Under?
    ensures Zip(m, root, w, c, t) <==> Zip(m, root, w, Opposite(c, t), c.other)
  {
    hide Zip, Join;
    ZipUp(m, root, w, c, t);
    ZipUp(m, root, w, Opposite(c, t), c.other);
    Flip(c.side, t, c.item, c.other);
  }

  lemma JoinKids<V>(t: Tree<V>, s: Side)
    requires t.Node?
    ensures t == Join(s, Kid(t, s), t.item, Kid(t, s.Other()))
    ensures Kid(t, s) in {t.left, t.right} && Kid(t, s.Other()) in {t.left, t.right}
  {
  }

  lemma KidsOfJoin<V>(s: Side, a: Tree<V>, it: Item<V>, b: Tree<V>)
    ensures Kid(Join(s, a, it, b), s) == a && Kid(Join(s, a, it, b), s.Other()) == b
  {
  }

  lemma FarChild<V>(m: Pool<V>, root: nat, w: Whole<V>, c: Ctx<V>, s: Side, a: Tree<V>, it: Item<V>, b: Tree<V>)
    requires Zip(m, root, w, c, Join(s, a, it, b))
    ensures it.index in m && m[it.index].Child(s.Other()) == Root(b) && m[it.index].Child(s) == Root(a)
  {
    RepJoin(m, s, a, it, b, Parent(c));
  }

  lemma {:induction false} PlugNode<V>(c: Ctx<V>, t: Tree<V>)
    requires t.Node?
    ensures Plug(c, t).Node?
    decreases c
  {
    if c.Under? { PlugNode(c.up, Join(c.side, t, c.item, c.other)); }
  }

  ghost function Revalued<V>(t: Tree<V>, value: V): Tree<V>
    requires t.Node?
  {
    t.(item := t.item.(value := value))
  }

  lemma RevaluedZip<V>(m: Pool<V>, root: nat, w: Whole<V>, c: Ctx<V>, t: Tree<V>, value: V)
    requires t.Node? && Zip(m, root, w, c, t) && t.item.index in m
    ensures Zip(m[t.item.index := m[t.item.index].(value := value)], root,
                Whole(w.ids, Before(c) + Entries(Revalued(t, value)) + After(c)), c, Revalued(t, value))
  {
    var n := m[t.item.index := m[t.item.index].(value := value)];
    assert Split(w.ids, c, t) ==> Apart(t) && t.item.index !in CtxIds(c) && t.item.index != 0;
    RepFrame(m, n, t.left, t.item.index);
    RepFrame(m, n, t.right, t.item.index);
    RepCtxFrame(m, n, c, t.item.index, root);
    hide RepCtx, CtxIds, Before, After, Entries;
  }

  lemma RevaluedEntries<V>(c: Ctx<V>, t: Tree<V>, value: V)
    requires t.Node? && Sorted(Before(c) + Entries(t) + After(c))
    ensures var s, s' := Before(c) + Entries(t) + After(c), Before(c) + Entries(Revalued(t, value)) + After(c);
            Sorted(s') && AsMap(s') == AsMap(s)[t.item.key := value] && t.item.key in AsMap(s)
                && AsMap(s)[t.item.key] == t.item.value
  {
    Around(c, t);
    Around(c, Revalued(t, value));
    hide Sorted, AsMap, Before, After, Entries;
    MapReplace(Lower(c, t), t.item.AsEntry(), Entry(t.item.key, value), Upper(c, t));
  }

  // Exchanging a value in place changes the map at that key only.
  lemma Exchanged<V>(m: Pool<V>, root: nat, tree: Tree<V>, c: Ctx<V>, t: Tree<V>, value: V)
    requires t.Node? && Searching(m, root, tree, c, t, t.item.key) && RedBlack(tree)
    ensures var key, tree' := t.item.key, Plug(c, Revalued(t, value));
            && t.item.index in m && m[t.item.index].value == t.item.value
            && Zip(m[t.item.index := m[t.item.index].(value := value)], root, Summary(tree'), Top, tree')
            && RedBlack(tree') && Sorted(Entries(tree')) && Ids(tree') == Ids(tree)
            && AsMap(Entries(tree')) == AsMap(Entries(tree))[key := value]
            && key in AsMap(Entries(tree)) && AsMap(Entries(tree))[key] == t.item.value
  {
    var w, t' := Summary(tree), Revalued(t, value);
    var w' := Whole(w.ids, Before(c) + Entries(t') + After(c));
    Peek(m, root, w, c, t);
    assert w.entries == Before(c) + Entries(t) + After(c);
    hide Zip, Sorted, AsMap, Before, After, Entries, Ids, RedBlack, Plug;
    RevaluedZip(m, root, w, c, t, value);
    RevaluedEntries(c, t, value);
    SameColours(c, t, t');
    var n := m[t.item.index := m[t.item.index].(value := value)];
    PlugZip(n, root, w', c, t');
    SummaryOf(n, root, w', Plug(c, t'));
  }

  // An absent key goes between the two sides of the hole.
  lemma Missing<V>(m: Pool<V>, root: nat, tree: Tree<V>, c: Ctx<V>, key: int, value: V)
    requires Searching(m, root, tree, c, Leaf, key)
    ensures var s := Before(c) + [Entry(key, value)] + After(c);
            Sorted(s) && AsMap(s) == AsMap(Entries(tree))[key := value] && key !in AsMap(Entries(tree))
  {
    Located(m, root, tree, c, Leaf, key);
    hide Zip, Sorted, AsMap, Entries, Before, After, Plug;
    MapPut(Before(c), Entry(key, value), After(c));
  }

  lemma LocalColours<V>(c: Ctx<V>, t: Tree<V>, u: Tree<V>)
    requires t.Node? && u.Node? && t.left == u.left && t.right == u.right && t.item.color == u.item.color
    ensures (Sound(t) <==> Sound(u)) && BlackHeight(t) == BlackHeight(u) && IsRed(t) == IsRed(u)
    ensures c.Top? ==> Plug(c, t) == t && Plug(c, u) == u
  {
  }

  lemma SameColours<V>(c: Ctx<V>, t: Tree<V>, u: Tree<V>)
    requires RedBlack(Plug(c, t)) && t.Node? && u.Node? && t.left == u.left && t.right == u.right
             && t.item.color == u.item.color
    ensures RedBlack(Plug(c, u))
  {
    LocalColours(c, t, u);
    hide Plug, Sound, CtxSound, BlackHeight, IsRed, TopBlack;
    PlugSound(c, t);
    PlugSound(c, u);
    PlugTop(c, t);
    PlugTop(c, u);
  }

  // A tree seen from the top is summed up by its own slots and entries.
  lemma SummaryOf<V>(m: Pool<V>, root: nat, w: Whole<V>, t: Tree<V>)
    requires Zip(m, root, w, Top, t)
    ensures w == Summary(t)
  {
    assert Before<V>(Top) == [] && After<V>(Top) == [];
    hide Entries, Ids, Rep, RepCtx, Apart, CtxApart;
  }

  lemma LeafOk<V>(c: Ctx<V>, it: Item<V>, tree: Tree<V>)
    requires RedBlack(tree) && tree == Plug(c, Leaf) && it.color == Red
    ensures InsertOk(c, Node(Leaf, it, Leaf))
  {
    PlugSound(c, Leaf);
    PlugTop(c, Leaf);
    assert Sound(Node(Leaf, it, Leaf)) && BlackHeight(Node(Leaf, it, Leaf)) == 0;
  }

  lemma SideOfKey<V>(c: Ctx<V>, key: int)
    requires Below(Before(c), key) && Above(After(c), key)
    ensures c.Under? ==> (c.side == Left <==> key < c.item.key)
  {
    if c.Under? && c.side == Left {
      assert After(c)[0] == c.item.AsEntry();
    } else if c.Under? {
      assert Before(c)[|Before(c)| - 1] == c.item.AsEntry();
    }
  }

  lemma Attached<V>(m: Pool<V>, n: Pool<V>, root: nat, newRoot: nat, w: Whole<V>, c: Ctx<V>, it: Item<V>)
    requires Zip(m, root, w, c, Leaf) && it.index !in m
    requires it.index in n && n[it.index] == CellOf(it, Parent(c), Left, 0, 0) && Linked(n, newRoot, root, c, it.index)
    requires forall i :: i in m && (i == 0 || i != Parent(c)) ==> i in n && n[i] == m[i]
    ensures Zip(n, newRoot, Whole(w.ids + {it.index}, Before(c) + [it.AsEntry()] + After(c)), c, Node(Leaf, it, Leaf))
  {
    CtxInPool(m, c, 0, root);
    Relinked(m, n, c, 0, it.index, root, newRoot);
    assert Entries(Node(Leaf, it, Leaf)) == [it.AsEntry()];
  }

  lemma {:induction false} CtxInPool<V>(m: Pool<V>, c: Ctx<V>, hole: nat, root: nat)
    requires RepCtx(m, c, hole, root)
    ensures CtxIds(c) <= m.Keys
  {
    if c.Under? {
      TreeInPool(m, c.other, c.item.index);
      CtxInPool(m, c.up, c.item.index, root);
    }
  }

  lemma {:induction false} TreeInPool<V>(m: Pool<V>, t: Tree<V>, p: nat)
    requires Rep(m, t, p)
    ensures Ids(t) <= m.Keys
  {
    if t.Node? {
      TreeInPool(m, t.left, t.item.index);
      TreeInPool(m, t.right, t.item.index);
    }
  }

  ghost function Payload<V>(m: Pool<V>): map<nat, Entry<V>> {
    map i | i in m :: Entry(m[i].key, m[i].value)
  }

  // Links and colours may have changed, the slots and their payloads not.
  ghost predicate Kept<V>(m: Pool<V>, n: Pool<V>) {
    m.Keys == n.Keys && Payload(m) == Payload(n)
  }

  lemma Relabel<V>(m: Pool<V>, i: nat, cell: Cell<V>)
    requires i in m && cell.key == m[i].key && cell.value == m[i].value
    ensures Kept(m, m[i := cell])
  {
  }

  lemma KeptAt<V>(m: Pool<V>, n: Pool<V>, i: nat)
    requires Kept(m, n) && i in m
    ensures i in n && n[i].key == m[i].key && n[i].value == m[i].value
  {
    assert Payload(m)[i] == Payload(n)[i];
  }

  ghost function Summary<V>(t: Tree<V>): Whole<V> {
    Whole(Ids(t), Entries(t))
  }

  ghost function Kid<V>(t: Tree<V>, s: Side): Tree<V>
    requires t.Node?
  {
    if s == Left then t.left else t.right
  }

  ghost function DownCtx<V>(t: Tree<V>, s: Side, c: Ctx<V>): Ctx<V>
    requires t.Node?
  {
    Under(s, t.item, Kid(t, s.Other()), c)
  }

  lemma ChildZip<V>(m: Pool<V>, root: nat, w: Whole<V>, c: Ctx<V>, t: Tree<V>, s: Side)
    requires Zip(m, root, w, c, t) && t.Node?
    ensures Zip(m, root, w, DownCtx(t, s, c), Kid(t, s)) && Plug(DownCtx(t, s, c), Kid(t, s)) == Plug(c, t)
  {
    assert Join(s, Kid(t, s), t.item, Kid(t, s.Other())) == t;
    hide Zip, Join;
    ZipUp(m, root, w, DownCtx(t, s, c), Kid(t, s));
  }

  // The subtree `t` is where `key` is, if it is anywhere.
  ghost predicate Searching<V>(m: Pool<V>, root: nat, tree: Tree<V>, c: Ctx<V>, t: Tree<V>, key: int) {
    && Zip(m, root, Summary(tree), c, t) && Plug(c, t) == tree
    && Below(Before(c), key) && Above(After(c), key) && Sorted(Entries(tree))
  }

  function Lower<V>(c: Ctx<V>, t: Tree<V>): seq<Entry<V>>
    requires t.Node?
  {
    Before(c) + Entries(t.left)
  }

  function Upper<V>(c: Ctx<V>, t: Tree<V>): seq<Entry<V>>
    requires t.Node?
  {
    Entries(t.right) + After(c)
  }

  // The entries around the item at the focus.
  lemma Around<V>(c: Ctx<V>, t: Tree<V>)
    requires t.Node?
    ensures Before(c) + Entries(t) + After(c) == Lower(c, t) + [t.item.AsEntry()] + Upper(c, t)
    ensures After(DownCtx(t, Left, c)) == [t.item.AsEntry()] + Upper(c, t) && Before(DownCtx(t, Left, c)) == Before(c)
    ensures Before(DownCtx(t, Right, c)) == Lower(c, t) + [t.item.AsEntry()] && After(DownCtx(t, Right, c)) == After(c)
  {
    assert Entries(t) == Entries(t.left) + [t.item.AsEntry()] + Entries(t.right);
    hide Entries, Before, After;
    Regroup(Before(c), Entries(t.left), [t.item.AsEntry()], Entries(t.right), After(c));
    AroundDown(c, t);
  }

  lemma Regroup<T>(p: seq<T>, l: seq<T>, e: seq<T>, r: seq<T>, q: seq<T>)
    ensures p + (l + e + r) + q == p + l + e + (r + q)
    ensures e + r + q == e + (r + q)
  {
  }

  lemma AroundDown<V>(c: Ctx<V>, t: Tree<V>)
    requires t.Node?
    ensures After(DownCtx(t, Left, c)) == [t.item.AsEntry()] + Upper(c, t) && Before(DownCtx(t, Left, c)) == Before(c)
    ensures Before(DownCtx(t, Right, c)) == Lower(c, t) + [t.item.AsEntry()] && After(DownCtx(t, Right, c)) == After(c)
  {
    Regroup(Before(c), Entries(t.left), [t.item.AsEntry()], Entries(t.right), After(c));
    hide Entries;
  }

  lemma StepDown<V>(m: Pool<V>, root: nat, tree: Tree<V>, c: Ctx<V>, t: Tree<V>, key: int, s: Side)
    requires Searching(m, root, tree, c, t, key) && t.Node?
    requires if s == Left then key < t.item.key else t.item.key < key
    ensures Searching(m, root, tree, DownCtx(t, s, c), Kid(t, s), key)
  {
    ChildZip(m, root, Summary(tree), c, t, s);
    assert Entries(tree) == Before(c) + Entries(t) + After(c);
    hide Zip, Sorted, Before, After, Entries, Plug, DownCtx, Kid, Lower, Upper;
    Around(c, t);
    SortedParts(Lower(c, t), t.item.AsEntry(), Upper(c, t));
  }

  // What a finished search says about the map.
  lemma Located<V>(m: Pool<V>, root: nat, tree: Tree<V>, c: Ctx<V>, t: Tree<V>, key: int)
    requires Searching(m, root, tree, c, t, key) && (t.Node? ==> t.item.key == key)
    ensures t.Leaf? ==> Entries(tree) == Before(c) + After(c) && key !in AsMap(Entries(tree))
    ensures t.Node? ==> key in AsMap(Entries(tree)) && AsMap(Entries(tree))[key] == t.item.value
  {
    assert Entries(tree) == Before(c) + Entries(t) + After(c);
    if t.Leaf? {
      assert Entries(tree) == Before(c) + After(c);
      hide Zip, Before, After, Entries, AsMap;
      Absent(Entries(tree), key);
    } else {
      hide Zip, Sorted, Before, After, Entries, Plug, DownCtx, Kid, Lower, Upper, AsMap;
      Around(c, t);
      MapDrop(Lower(c, t), t.item.AsEntry(), Upper(c, t));
    }
  }

  // The guard of insert_fixup: nil is black, so a red parent is a real one.
  lemma RedBelow<V>(m: Pool<V>, root: nat, w: Whole<V>, c: Ctx<V>, t: Tree<V>)
    requires Zip(m, root, w, c, t) && InsertOk(c, t)
    ensures t.Node? && Root(t) in m && m[Root(t)].parent in m
    ensures m[m[Root(t)].parent].color == Red <==> c.Under? && c.item.color == Red
  {
    Peek(m, root, w, c, t);
  }

  // The colour of the sibling, read through its index.
  lemma PeekOther<V>(m: Pool<V>, root: nat, w: Whole<V>, c: Ctx<V>, t: Tree<V>)
    requires Zip(m, root, w, c, t) && c.Under?
    ensures Root(c.other) in m && (m[Root(c.other)].color == Red <==> IsRed(c.other))
  {
  }

  lemma PaintedJoin<V>(s: Side, a: Tree<V>, it: Item<V>, b: Tree<V>, color: Color)
    ensures Painted(Join(s, a, it, b), color) == Join(s, a, it.(color := color), b)
  {
  }

  lemma InPool<V>(m: Pool<V>, t: Tree<V>, p: nat)
    requires Rep(m, t, p)
    ensures t.Node? ==> t.item.index in m && t.item.index != 0
  {
  }

  // ---- queries

  ghost predicate AtLeast<V>(s: seq<Entry<V>>, key: int) {
    forall i :: 0 <= i < |s| ==> key <= s[i].key
  }

  ghost predicate AtMost<V>(s: seq<Entry<V>>, key: int) {
    forall i :: 0 <= i < |s| ==> s[i].key <= key
  }

  // The entry with the largest key below `key`, if there is one.
  ghost predicate IsPredecessor<V>(contents: map<int, V>, key: int, e: Option<Entry<V>>) {
    if e.None? then forall k :: k in contents ==> key <= k
    else
      && e.value.key in contents && contents[e.value.key] == e.value.value
      && e.value.key < key && forall k :: k in contents && k < key ==> k <= e.value.key
  }

  // The entry with the smallest key above `key`, if there is one.
  ghost predicate IsSuccessor<V>(contents: map<int, V>, key: int, e: Option<Entry<V>>) {
    if e.None? then forall k :: k in contents ==> k <= key
    else
      && e.value.key in contents && contents[e.value.key] == e.value.value
      && key < e.value.key && forall k :: k in contents && key < k ==> e.value.key <= k
  }

  // Every key of the map is on one side of the cut.
  lemma KeyOnSide<V>(lo: seq<Entry<V>>, hi: seq<Entry<V>>, k: int)
    requires Sorted(lo + hi) && k in AsMap(lo + hi)
    ensures (exists i :: 0 <= i < |lo| && lo[i].key == k) || (exists i :: 0 <= i < |hi| && hi[i].key == k)
  {
    var s := lo + hi;
    MapHolds(s);
    var i :| 0 <= i < |s| && s[i].key == k;
    if i < |lo| { assert lo[i].key == k; } else { assert hi[i - |lo|].key == k; }
  }

  lemma LastBelow<V>(lo: seq<Entry<V>>, hi: seq<Entry<V>>, key: int)
    requires Sorted(lo + hi) && Below(lo, key) && AtLeast(hi, key)
    ensures IsPredecessor(AsMap(lo + hi), key, if lo == [] then None else Some(lo[|lo| - 1]))
  {
    MapHolds(lo + hi);
    assert forall i :: 0 <= i < |lo| ==> (lo + hi)[i] == lo[i];
    assert lo != [] ==> forall i :: 0 <= i < |lo| ==> lo[i].key <= lo[|lo| - 1].key;
    assert lo != [] ==> (lo + hi)[|lo| - 1].key in AsMap(lo + hi);
    hide AsMap, Sorted;
    forall k | k in AsMap(lo + hi) ensures key <= k || (lo != [] && k <= lo[|lo| - 1].key) {
      KeyOnSide(lo, hi, k);
    }
  }

  lemma FirstAbove<V>(lo: seq<Entry<V>>, hi: seq<Entry<V>>, key: int)
    requires Sorted(lo + hi) && AtMost(lo, key) && Above(hi, key)
    ensures IsSuccessor(AsMap(lo + hi), key, if hi == [] then None else Some(hi[0]))
  {
    MapHolds(lo + hi);
    assert forall i :: 0 <= i < |hi| ==> (lo + hi)[|lo| + i] == hi[i];
    assert hi != [] ==> forall i :: 0 <= i < |hi| ==> hi[0].key <= hi[i].key;
    assert hi != [] ==> (lo + hi)[|lo|].key in AsMap(lo + hi);
    hide AsMap, Sorted;
    forall k | k in AsMap(lo + hi) ensures k <= key || (hi != [] && hi[0].key <= k) {
      KeyOnSide(lo, hi, k);
    }
  }

  lemma Extend<V>(lo: seq<Entry<V>>, e: Entry<V>, hi: seq<Entry<V>>, key: int)
    requires Below(lo, e.key) && Above(hi, e.key)
    ensures e.key < key ==> Below(lo + [e], key)
    ensures e.key <= key ==> AtMost(lo + [e], key)
    ensures key <= e.key ==> AtLeast([e] + hi, key)
    ensures key < e.key ==> Above([e] + hi, key)
  {
  }

  // The keys on either side of the item at the focus.
  lemma BelowAbove<V>(m: Pool<V>, root: nat, tree: Tree<V>, c: Ctx<V>, t: Tree<V>)
    requires Zip(m, root, Summary(tree), c, t) && t.Node? && Sorted(Entries(tree))
    ensures Below(Lower(c, t), t.item.key) && Above(Upper(c, t), t.item.key)
  {
    assert Entries(tree) == Before(c) + Entries(t) + After(c);
    hide Zip, Sorted, Before, After, Entries, Lower, Upper;
    Around(c, t);
    SortedParts(Lower(c, t), t.item.AsEntry(), Upper(c, t));
  }

  ghost predicate Holds<V>(m: Pool<V>, i: nat, e: Entry<V>) {
    i in m && e == Entry(m[i].key, m[i].value)
  }

  // predecessor_index in the middle: the candidate is the last entry known to be smaller.
  ghost predicate SeekBelow<V>(m: Pool<V>, root: nat, tree: Tree<V>, c: Ctx<V>, t: Tree<V>, key: int, candidate: nat) {
    && Zip(m, root, Summary(tree), c, t) && Sorted(Entries(tree)) && Below(Before(c), key) && AtLeast(After(c), key)
    && (candidate == 0 <==> Before(c) == []) && (candidate != 0 ==> Holds(m, candidate, Before(c)[|Before(c)| - 1]))
  }

  lemma SeekBelowStep<V>(m: Pool<V>, root: nat, tree: Tree<V>, c: Ctx<V>, t: Tree<V>, key: int, candidate: nat)
    requires SeekBelow(m, root, tree, c, t, key, candidate) && t.Node?
    ensures var s := if key <= t.item.key then Left else Right;
            && SeekBelow(m, root, tree, DownCtx(t, s, c), Kid(t, s), key, if s == Right then t.item.index
                         else candidate)
            && t.item.index in m && m[t.item.index].key == t.item.key
            && m[t.item.index].Child(s) == Root(Kid(t, s)) && (Root(Kid(t, s)) == 0 <==> Kid(t, s).Leaf?)
  {
    var s := if key <= t.item.key then Left else Right;
    Peek(m, root, Summary(tree), c, t);
    KidRoot(m, root, Summary(tree), c, t, s);
    hide Zip, Sorted, Before, After, Entries, Lower, Upper, DownCtx, Kid, Below, Above, AtLeast, AtMost;
    BelowAbove(m, root, tree, c, t);
    Around(c, t);
    ChildZip(m, root, Summary(tree), c, t, s);
    Extend(Lower(c, t), t.item.AsEntry(), Upper(c, t), key);
  }

  lemma SeekBelowDone<V>(m: Pool<V>, root: nat, tree: Tree<V>, c: Ctx<V>, key: int, candidate: nat)
    requires SeekBelow(m, root, tree, c, Leaf, key, candidate)
    ensures candidate != 0 ==> candidate in m
    ensures IsPredecessor(AsMap(Entries(tree)), key, if candidate == 0 then None
                          else Some(Entry(m[candidate].key, m[candidate].value)))
  {
    assert Entries(tree) == Before(c) + After(c);
    hide Zip, Sorted, AsMap, Entries, Before, After, IsPredecessor, Below, AtLeast;
    LastBelow(Before(c), After(c), key);
  }

  // successor_index in the middle: the candidate is the first entry known to be larger.
  ghost predicate SeekAbove<V>(m: Pool<V>, root: nat, tree: Tree<V>, c: Ctx<V>, t: Tree<V>, key: int, candidate: nat) {
    && Zip(m, root, Summary(tree), c, t) && Sorted(Entries(tree)) && AtMost(Before(c), key) && Above(After(c), key)
    && (candidate == 0 <==> After(c) == []) && (candidate != 0 ==> Holds(m, candidate, After(c)[0]))
  }

  lemma SeekAboveStep<V>(m: Pool<V>, root: nat, tree: Tree<V>, c: Ctx<V>, t: Tree<V>, key: int, candidate: nat)
    requires SeekAbove(m, root, tree, c, t, key, candidate) && t.Node?
    ensures var s := if key < t.item.key then Left else Right;
            && SeekAbove(m, root, tree, DownCtx(t, s, c), Kid(t, s), key, if s == Left then t.item.index else candidate)
            && t.item.index in m && m[t.item.index].key == t.item.key
            && m[t.item.index].Child(s) == Root(Kid(t, s)) && (Root(Kid(t, s)) == 0 <==> Kid(t, s).Leaf?)
  {
    var s := if key < t.item.key then Left else Right;
    Peek(m, root, Summary(tree), c, t);
    KidRoot(m, root, Summary(tree), c, t, s);
    hide Zip, Sorted, Before, After, Entries, Lower, Upper, DownCtx, Kid, Below, Above, AtLeast, AtMost;
    BelowAbove(m, root, tree, c, t);
    Around(c, t);
    ChildZip(m, root, Summary(tree), c, t, s);
    Extend(Lower(c, t), t.item.AsEntry(), Upper(c, t), key);
  }

  lemma SeekAboveDone<V>(m: Pool<V>, root: nat, tree: Tree<V>, c: Ctx<V>, key: int, candidate: nat)
    requires SeekAbove(m, root, tree, c, Leaf, key, candidate)
    ensures candidate != 0 ==> candidate in m
    ensures IsSuccessor(AsMap(Entries(tree)), key, if candidate == 0 then None
                        else Some(Entry(m[candidate].key, m[candidate].value)))
  {
    assert Entries(tree) == Before(c) + After(c);
    hide Zip, Sorted, AsMap, Entries, Before, After, IsSuccessor, Above, AtMost;
    FirstAbove(Before(c), After(c), key);
  }

  lemma EmptyMap<V>(t: Tree<V>)
    ensures t.Leaf? <==> AsMap(Entries(t)) == map[]
  {
    if t.Node? {
      var s := Entries(t);
      assert s[|Entries(t.left)|] == t.item.AsEntry();
      assert s[|s| - 1].key in AsMap(s);
    }
  }

  // An entry with nothing on one side of it is outermost there.
  lemma OuterEntry<V>(lo: seq<Entry<V>>, e: Entry<V>, hi: seq<Entry<V>>, s: Side)
    requires Sorted(lo + [e] + hi) && (if s == Left then lo == [] else hi == [])
    ensures var contents := AsMap(lo + [e] + hi);
            && e.key in contents && contents[e.key] == e.value
            && forall k :: k in contents ==> if s == Left then e.key <= k else k <= e.key
  {
    hide AsMap, Sorted;
    MapDrop(lo, e, hi);
    SortedParts(lo, e, hi);
    MapPut(lo, e, hi);
    forall k | k in AsMap(lo + [e] + hi) ensures if s == Left then e.key <= k else k <= e.key {
      if k != e.key { KeyOnSide(lo, hi, k); }
    }
  }

  // The last node on one side holds the outermost entry.
  lemma EdgeEntry<V>(spine: Ctx<V>, t: Tree<V>, s: Side, tree: Tree<V>)
    requires OnSide(spine, s) && Plug(spine, t) == tree && t.Node? && Kid(t, s).Leaf? && Sorted(Entries(tree))
    ensures var contents := AsMap(Entries(tree));
            && t.item.key in contents && contents[t.item.key] == t.item.value
            && forall k :: k in contents ==> if s == Left then t.item.key <= k else k <= t.item.key
  {
    PlugEntries(spine, t);
    NothingBefore(spine);
    assert s == Left ==> Lower(spine, t) == [];
    assert s == Right ==> Upper(spine, t) == [];
    hide Entries, Before, After, AsMap, Plug, Sorted, Lower, Upper;
    Around(spine, t);
    OuterEntry(Lower(spine, t), t.item.AsEntry(), Upper(spine, t), s);
  }

  lemma {:induction false} IdsCount<V>(t: Tree<V>)
    requires Apart(t)
    ensures |Ids(t)| == |Entries(t)|
  {
    if t.Node? {
      IdsCount(t.left);
      IdsCount(t.right);
    }
  }

  lemma {:induction false} MapSize<V>(s: seq<Entry<V>>)
    requires Sorted(s)
    ensures |AsMap(s)| == |s|
  {
    if s != [] {
      MapSize(s[..|s| - 1]);
      Absent(s[..|s| - 1], s[|s| - 1].key);
    }
  }

  lemma SizeOfPool<V>(m: Pool<V>, root: nat, t: Tree<V>)
    requires Zip(m, root, Summary(t), Top, t) && m.Keys == Ids(t) + {0}
    ensures |m| == |Ids(t)| + 1
  {
    ZipSplit(m, root, Summary(t), Top, t);
    assert 0 !in Ids(t);
    assert |m| == |m.Keys|;
  }

  // ---- height

  function Height<V>(t: Tree<V>): nat {
    if t.Leaf? then 0 else 1 + if Height(t.left) < Height(t.right) then Height(t.right) else Height(t.left)
  }

  // A way down from the root, one child after the other.
  ghost predicate Way<V>(t: Tree<V>, path: seq<Side>)
    decreases |path|
  {
    path == [] || (t.Node? && Way(if path[0] == Left then t.left else t.right, path[1..]))
  }

  // The height is the length of the longest way down.
  lemma {:induction false} HeightIsLongest<V>(t: Tree<V>, path: seq<Side>)
    ensures Way(t, path) ==> |path| <= Height(t)
    decreases |path|
  {
    if path != [] && t.Node? { HeightIsLongest(if path[0] == Left then t.left else t.right, path[1..]); }
  }

  lemma {:induction false} LongestWay<V>(t: Tree<V>) returns (path: seq<Side>)
    ensures Way(t, path) && |path| == Height(t)
  {
    path := [];
    if t.Node? {
      var side := if Height(t.left) < Height(t.right) then Right else Left;
      var rest := LongestWay(if side == Left then t.left else t.right);
      path := [side] + rest;
      assert path[1..] == rest;
    }
  }

  lemma {:induction false} HeightByBlack<V>(t: Tree<V>)
    requires Sound(t)
    ensures Height(t) <= 2 * BlackHeight(t) + if IsRed(t) then 1 else 0
    ensures Pow2(BlackHeight(t)) <= |Entries(t)| + 1
  {
    if t.Node? {
      HeightByBlack(t.left);
      HeightByBlack(t.right);
    }
  }

  // A red-black tree of n entries is at most twice as high as the logarithm of n + 1.
  lemma HeightBound<V>(t: Tree<V>, path: seq<Side>)
    requires RedBlack(t)
    ensures Pow2(Height(t) / 2) <= |Entries(t)| + 1
    ensures Way(t, path) ==> Pow2(|path| / 2) <= |Entries(t)| + 1
  {
    HeightByBlack(t);
    PowGrows(Height(t) / 2, BlackHeight(t));
    HeightIsLongest(t, path);
    if Way(t, path) { PowGrows(|path| / 2, Height(t) / 2); }
  }
}
