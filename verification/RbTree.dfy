// The red-black tree of the pool, with insert, remove and their fixups.
module RbTrees {
  import opened Common
  import opened RbShapes
  import opened RbBalance
  import opened RbFacts
  import opened SortedEntries

  class RbTree<V> {
    var nodes: map<nat, Cell<V>>
    var root: nat
    ghost var tree: Tree<V>

    // The pool is a sound red-black tree in key order, and holds nothing else.
    ghost predicate Valid()
      reads this
    {
      && Zip(nodes, root, Summary(tree), Top, tree) && nodes.Keys == Ids(tree) + {0}
      && RedBlack(tree) && Sorted(Entries(tree))
    }

    ghost function Contents(): map<int, V>
      reads this
    {
      AsMap(Entries(tree))
    }

    // The link to `was` below `parent` becomes a link to `now`.
    method Relink(parent: nat, side: Side, was: nat, now: nat, ghost c: Ctx<V>)
      requires RepCtx(nodes, c, was, root) && parent == Parent(c) && was != 0 && was !in CtxIds(c)
      modifies this`nodes, this`root
      ensures Linked(nodes, root, old(root), c, now)
      ensures Kept(old(nodes), nodes)
      ensures forall i :: i in old(nodes) && !(i == parent && c.Under?) ==> i in nodes && nodes[i] == old(nodes[i])
    {
      if c.Under? { RootIn(c.other); }
      if parent == 0 {
        root := now;
      } else if nodes[parent].Child(side) == was {
        SetChild(parent, side, now);
      } else {
        SetChild(parent, side.Other(), now);
      }
    }

    method SetChild(i: nat, side: Side, child: nat)
      requires i in nodes
      modifies this`nodes
      ensures nodes == old(nodes)[i := old(nodes[i]).WithChild(side, child)] && Kept(old(nodes), nodes)
    {
      Relabel(nodes, i, nodes[i].WithChild(side, child));
      nodes := nodes[i := nodes[i].WithChild(side, child)];
    }

    method SetParent(i: nat, parent: nat)
      requires i in nodes
      modifies this`nodes
      ensures nodes == old(nodes)[i := old(nodes[i]).(parent := parent)] && Kept(old(nodes), nodes)
    {
      Relabel(nodes, i, nodes[i].(parent := parent));
      nodes := nodes[i := nodes[i].(parent := parent)];
    }

    // The first half of a rotation: the inner subtree goes below `x`, and `y` takes the parent of `x`.
    method TakeInner(x: nat, side: Side, ghost p: nat, ghost a: nat, ghost ix: Item<V>, ghost b: nat,
                     ghost iy: Item<V>, ghost d: nat)
      returns (y: nat)
      requires x in nodes && nodes[x] == CellOf(ix, p, side, a, iy.index)
      requires iy.index in nodes && nodes[iy.index] == CellOf(iy, x, side, b, d)
      requires b in nodes && x != iy.index && b != x && b != iy.index
      modifies this`nodes
      ensures y == iy.index && Kept(old(nodes), nodes)
      ensures nodes[x] == CellOf(ix, p, side, a, b) && nodes[y] == CellOf(iy, p, side, b, d)
      ensures nodes[b] == old(nodes[b]).(parent := x)
      ensures forall i :: i in nodes && i != x && i != y && i != b ==> nodes[i] == old(nodes[i])
    {
      CellFacts(ix, p, side, a, iy.index, b);
      CellFacts(iy, x, side, b, d, p);
      CellFacts(ix, p, side, a, b, x);
      hide Payload, CellOf, Cell.Child, Cell.WithChild;
      y := nodes[x].Child(side.Other());
      var yNear := nodes[y].Child(side);
      SetChild(x, side.Other(), yNear);
      SetParent(yNear, x);
      var xParent := nodes[x].parent;
      SetParent(y, xParent);
    }

    // rotate_left is a rotation towards Left, rotate_right its mirror image.
    method Rotate(x: nat, side: Side, ghost w: Whole<V>, ghost c: Ctx<V>,
                  ghost a: Tree<V>, ghost ix: Item<V>, ghost b: Tree<V>, ghost iy: Item<V>, ghost d: Tree<V>)
      requires Zip(nodes, root, w, c, Join(side, a, ix, Join(side, b, iy, d))) && x == ix.index
      modifies this`nodes, this`root
      ensures Zip(nodes, root, w, c, Join(side, Join(side, a, ix, b), iy, d))
      ensures Kept(old(nodes), nodes)
    {
      ghost var m := nodes;
      RepJoin(m, side, a, ix, Join(side, b, iy, d), Parent(c));
      RepJoin(m, side, b, iy, d, ix.index);
      SplitPieces(w.ids, c, side, a, ix, b, iy, d);
      RotationSpots(w.ids, c, a, x, b, iy.index, d);
      InPool(m, b, iy.index);
      assert NilOk(m);
      hide Payload, Zip, Placed, NilOk, RotatesTo, Rep, RepCtx, Split, Before, After, Entries, Join, CtxIds, CtxApart;
      hide Linked, Pieces, CellOf,
        Cell.Child, Cell.WithChild;
      var y := TakeInner(x, side, Parent(c), Root(a), ix, Root(b), iy, Root(d));
      CellFacts(ix, Parent(c), side, Root(a), Root(b), iy.index);
      ghost var below := nodes;
      RepCtxFrame(m, nodes, c, x, root);
      Relink(nodes[x].parent, side, x, y, c);
      ghost var linked := nodes;
      CellFacts(iy, Parent(c), side, Root(b), Root(d), x);
      SetChild(y, side, x);
      SetParent(x, y);
      LinkedFrame(linked, nodes, root, old(root), c, y);
      RotationStages(m, below, linked, nodes, c, side, a, ix, b, iy, d);
      Rotated(m, nodes, old(root), root, w, c, side, a, ix, b, iy, d);
    }

    method Paint(i: nat, color: Color, ghost w: Whole<V>, ghost c: Ctx<V>, ghost t: Tree<V>)
      requires t.Node? && Zip(nodes, root, w, c, t) && i == t.item.index
      modifies this`nodes
      ensures Zip(nodes, root, w, c, Painted(t, color)) && Kept(old(nodes), nodes)
    {
      Peek(nodes, root, w, c, t);
      PaintedZip(nodes, root, w, c, t, color);
      Relabel(nodes, i, nodes[i].(color := color));
      hide Payload, Zip;
      nodes := nodes[i := nodes[i].(color := color)];
    }

    // Red parent and red uncle: the grandparent turns red and the trouble moves up to it.
    method PushUp(parent: nat, uncle: nat, grandparent: nat, ghost w: Whole<V>, ghost c: Ctx<V>, ghost t: Tree<V>)
      returns (ghost t': Tree<V>)
      requires Zip(nodes, root, w, c, t) && InsertOk(c, t) && c.Under? && c.item.color == Red && c.up.Under?
               && IsRed(c.up.other)
      requires parent == c.item.index && grandparent == c.up.item.index && uncle == Root(c.up.other)
      modifies this`nodes
      ensures Zip(nodes, root, w, c.up.up, t') && InsertOk(c.up.up, t') && Root(t') == grandparent
      ensures Kept(old(nodes), nodes)
    {
      ghost var Under(s1, p, o1, Under(s2, g, o2, up)) := c;
      RedUncle(s1, p, o1, s2, g, o2, up, t);
      hide Payload, Zip, InsertOk, Join;
      ZipUp(nodes, root, w, c, t);
      Paint(parent, Black, w, c.up, Join(s1, t, p, o1));
      ghost var pt := Join(s1, t, p.(color := Black), o1);
      PaintedJoin(s1, t, p, o1, Black);
      ZipUp(nodes, root, w, c.up, pt);
      Flip(s2, pt, g, o2);
      ghost var cu := Under(s2.Other(), g, pt, up);
      ZipUp(nodes, root, w, cu, o2);
      Paint(uncle, Black, w, cu, o2);
      ghost var ub := Painted(o2, Black);
      ZipUp(nodes, root, w, cu, ub);
      Flip(s2, pt, g, ub);
      Paint(grandparent, Red, w, up, Join(s2, pt, g, ub));
      PaintedJoin(s2, pt, g, ub, Red);
      t' := Join(s2, pt, g.(color := Red), ub);
    }

    // Red parent with an inner red child: one rotation makes it an outer one.
    method TurnOutward(parent: nat, side: Side, ghost w: Whole<V>, ghost c: Ctx<V>, ghost t: Tree<V>)
      returns (ghost c': Ctx<V>, ghost t': Tree<V>)
      requires Zip(nodes, root, w, c, t) && InsertOk(c, t) && c.Under? && c.item.color == Red
      requires parent == c.item.index && c.side == side.Other()
      modifies this`nodes, this`root
      ensures Zip(nodes, root, w, c', t') && InsertOk(c', t') && Root(t') == parent
      ensures c'.Under? && c'.side == side && c'.item.color == Red && c'.up == c.up
      ensures Kept(old(nodes), nodes)
    {
      ghost var Under(s, p, o, up) := c;
      ghost var a, z, b := if side == Left then t.left else t.right, t.item, if side == Left then t.right else t.left;
      assert t == Join(side, a, z, b);
      InnerChild(side, p, o, up, a, z, b);
      Flip(side, o, p, t);
      hide Payload, Zip, InsertOk, Join;
      ZipUp(nodes, root, w, c, t);
      Rotate(parent, side, w, up, o, p, a, z, b);
      c', t' := Under(side, z, b, up), Join(side, o, p, a);
      ZipUp(nodes, root, w, c', t');
    }

    // Red parent with an outer red child and a black uncle: recolour and rotate at the grandparent.
    method Settle(parent: nat, grandparent: nat, side: Side, ghost w: Whole<V>, ghost c: Ctx<V>, ghost t: Tree<V>)
      returns (ghost c': Ctx<V>)
      requires Zip(nodes, root, w, c, t) && InsertOk(c, t) && c.Under? && c.item.color == Red && c.side == side
      requires c.up.Under? && c.up.side == side && !IsRed(c.up.other)
      requires parent == c.item.index && grandparent == c.up.item.index
      modifies this`nodes, this`root
      ensures Zip(nodes, root, w, c', t) && InsertOk(c', t)
      ensures c'.Under? && c'.item.color == Black && c'.up == c.up.up
      ensures Kept(old(nodes), nodes)
    {
      ghost var Under(s1, p, o1, Under(s2, g, o2, up)) := c;
      BlackUncle(side, p, o1, g, o2, up, t);
      hide Payload, Zip, InsertOk, Join;
      var far := side.Other();
      ZipUp(nodes, root, w, c, t);
      Paint(parent, Black, w, c.up, Join(side, t, p, o1));
      ghost var pb, gr := p.(color := Black), g.(color := Red);
      PaintedJoin(side, t, p, o1, Black);
      ghost var pt := Join(side, t, pb, o1);
      ZipUp(nodes, root, w, c.up, pt);
      Paint(grandparent, Red, w, up, Join(side, pt, g, o2));
      PaintedJoin(side, pt, g, o2, Red);
      Flip(side, pt, gr, o2);
      Flip(side, t, pb, o1);
      Rotate(grandparent, far, w, up, o2, gr, o1, pb, t);
      Flip(side, o1, gr, o2);
      Flip(side, t, pb, Join(side, o1, gr, o2));
      c' := Under(side, pb, Join(side, o1, gr, o2), up);
      ZipUp(nodes, root, w, c', t);
    }

    // One pass of the insert_fixup loop, for a red node under a red parent.
    method InsertPass(node: nat, ghost w: Whole<V>, ghost c0: Ctx<V>, ghost t0: Tree<V>)
      returns (z: nat, ghost c: Ctx<V>, ghost t: Tree<V>)
      requires Zip(nodes, root, w, c0, t0) && InsertOk(c0, t0) && node == Root(t0) && c0.Under? && c0.item.color == Red
      modifies this`nodes, this`root
      ensures Zip(nodes, root, w, c, t) && InsertOk(c, t) && z == Root(t)
      ensures Depth(c) < Depth(c0) && Kept(old(nodes), nodes)
    {
      z, c, t := node, c0, t0;
      Grandparent(c, t);
      ghost var outer := Join(c.side, t, c.item, c.other);
      assert t.Node? && outer.Node?;
      ZipUp(nodes, root, w, c, t);
      Peek(nodes, root, w, c, t);
      Peek(nodes, root, w, c.up, outer);
      PeekOther(nodes, root, w, c.up, outer);
      CellFacts(c.item, Parent(c.up), c.side, Root(t), Root(c.other), 0);
      CellFacts(c.up.item, Parent(c.up.up), c.up.side, Root(outer), Root(c.up.other), 0);
      hide Payload, Zip, InsertOk, Join;
      var parent := nodes[z].parent;
      var grandparent := nodes[parent].parent;
      var side := if nodes[grandparent].left == parent then Left else Right;
      assert side == c.up.side;
      var uncle := nodes[grandparent].Child(side.Other());
      if nodes[uncle].color == Red {
        t := PushUp(parent, uncle, grandparent, w, c, t);
        c := c.up.up;
        z := grandparent;
      } else {
        if nodes[parent].Child(side.Other()) == z {
          z := parent;
          c, t := TurnOutward(z, side, w, c, t);
        }
        outer := Join(c.side, t, c.item, c.other);
        ZipUp(nodes, root, w, c, t);
        Peek(nodes, root, w, c, t);
        Peek(nodes, root, w, c.up, outer);
        c := Settle(nodes[z].parent, nodes[nodes[z].parent].parent, side, w, c, t);
      }
    }

    // insert_fixup
    method InsertFixup(node: nat, ghost w: Whole<V>, ghost c0: Ctx<V>, ghost t0: Tree<V>)
      requires Zip(nodes, root, w, c0, t0) && InsertOk(c0, t0) && node == Root(t0)
      modifies this
      ensures Zip(nodes, root, w, Top, tree) && RedBlack(tree)
      ensures Kept(old(nodes), nodes)
    {
      var z := node;
      ghost var c, t := c0, t0;
      RedBelow(nodes, root, w, c, t);
      hide Payload, Zip, InsertOk;
      while nodes[nodes[z].parent].color == Red
        invariant Zip(nodes, root, w, c, t) && InsertOk(c, t) && z == Root(t)
        invariant z in nodes && nodes[z].parent in nodes
        invariant nodes[nodes[z].parent].color == Red <==> c.Under? && c.item.color == Red
        invariant Kept(old(nodes), nodes)
        decreases Depth(c)
      {
        z, c, t := InsertPass(z, w, c, t);
        RedBelow(nodes, root, w, c, t);
      }
      PlugZip(nodes, root, w, c, t);
      InsertDone(c, t);
      tree := Plug(c, t);
      PlugNode(c, t);
      Peek(nodes, root, w, Top, tree);
      Paint(root, Black, w, Top, tree);
      tree := Painted(tree, Black);
    }

    // find_node
    method FindNode(key: int) returns (found: Option<nat>, ghost c: Ctx<V>, ghost t: Tree<V>)
      requires Valid()
      ensures Searching(nodes, root, tree, c, t, key)
      ensures found.None? <==> t.Leaf?
      ensures found.Some? ==>
                t.item.key == key && found.value == t.item.index && found.value in nodes
                    && nodes[found.value].value == t.item.value
    {
      c, t := Top, tree;
      var cursor := root;
      Peek(nodes, root, Summary(tree), Top, tree);
      hide Payload, Zip;
      while cursor != 0
        invariant Searching(nodes, root, tree, c, t, key) && cursor == Root(t)
        invariant cursor == 0 <==> t.Leaf?
        decreases t
      {
        Peek(nodes, root, Summary(tree), c, t);
        var node := nodes[cursor];
        if key == node.key { return Some(cursor), c, t; }
        var side := if key < node.key then Left else Right;
        StepDown(nodes, root, tree, c, t, key, side);
        cursor := node.Child(side);
        c, t := DownCtx(t, side, c), Kid(t, side);
        Peek(nodes, root, Summary(tree), c, t);
      }
      found := None;
    }

    // get
    method Get(key: int) returns (value: Option<V>)
      requires Valid()
      ensures value == if key in Contents() then Some(Contents()[key]) else None
    {
      var found; ghost var c, t;
      found, c, t := FindNode(key);
      Located(nodes, root, tree, c, t, key);
      hide Payload, Valid, Searching;
      value := if found.Some? then Some(nodes[found.value].value) else None;
    }

    // The matching branch of insert: the value is exchanged in place.
    method Exchange(i: nat, value: V, ghost c: Ctx<V>, ghost t: Tree<V>) returns (replaced: V)
      requires Valid() && t.Node? && Searching(nodes, root, tree, c, t, t.item.key) && i == t.item.index
      modifies this
      ensures Valid() && replaced == t.item.value && t.item.key in old(Contents())
              && old(Contents())[t.item.key] == replaced
      ensures Contents() == old(Contents())[t.item.key := value]
    {
      hide Payload, Zip, Searching, Sorted, AsMap, Entries, Plug, RedBlack, Ids, Summary, Revalued;
      Exchanged(nodes, root, tree, c, t, value);
      replaced := nodes[i].value;
      nodes := nodes[i := nodes[i].(value := value)];
      tree := Plug(c, Revalued(t, value));
    }

    // The missing branch of insert, up to the fixup: a red leaf under `parent`.
    method Attach(key: int, value: V, parent: nat, ghost c: Ctx<V>)
      returns (node: nat, ghost w: Whole<V>, ghost t: Tree<V>)
      requires Valid() && Searching(nodes, root, tree, c, Leaf, key) && parent == Parent(c)
      modifies this`nodes, this`root
      ensures Zip(nodes, root, w, c, t) && InsertOk(c, t) && node == Root(t)
      ensures w == Whole(Ids(tree) + {node}, Before(c) + [Entry(key, value)] + After(c))
      ensures nodes.Keys == old(nodes.Keys) + {node}
    {
      FreshIndex(nodes.Keys);
      node :| node !in nodes;
      ghost var m, w0 := nodes, Summary(tree);
      ghost var it := Item(node, Red, key, value);
      t := Node(Leaf, it, Leaf);
      LeafOk(c, it, tree);
      SideOfKey(c, key);
      Peek(nodes, root, w0, c, Leaf);
      assert w0.ids <= nodes.Keys && 0 in nodes;
      hide Payload, Zip, Searching, Sorted, Entries, Before, After, RedBlack, Ids, CtxIds, InsertOk;
      nodes := nodes[node := Cell(Red, parent, 0, 0, key, value)];
      if parent == 0 {
        root := node;
      } else if key < nodes[parent].key {
        nodes := nodes[parent := nodes[parent].(left := node)];
      } else {
        nodes := nodes[parent := nodes[parent].(right := node)];
      }
      w := Whole(w0.ids + {node}, Before(c) + [Entry(key, value)] + After(c));
      Attached(m, nodes, old(root), root, w0, c, it);
    }

    // The missing branch of insert.
    method InsertMissing(key: int, value: V, parent: nat, ghost c: Ctx<V>)
      requires Valid() && Searching(nodes, root, tree, c, Leaf, key) && parent == Parent(c)
      modifies this
      ensures Valid() && Contents() == old(Contents())[key := value] && key !in old(Contents())
    {
      Missing(nodes, root, tree, c, key, value);
      var index;
      ghost var w, t;
      index, w, t := Attach(key, value, parent, c);
      assert nodes.Keys == w.ids + {0};
      hide Payload, Zip, Searching, Sorted, AsMap, Entries, Before, After, RedBlack, Ids, InsertOk;
      InsertFixup(index, w, c, t);
      SummaryOf(nodes, root, w, tree);
    }

    method Insert(key: int, value: V) returns (replaced: Option<V>)
      requires Valid()
      modifies this
      ensures Valid() && Contents() == old(Contents())[key := value]
      ensures replaced == if key in old(Contents()) then Some(old(Contents())[key]) else None
    {
      ghost var c: Ctx<V>, t := Top, tree;
      var parent, cursor := 0, root;
      Peek(nodes, root, Summary(tree), Top, tree);
      assert Searching(nodes, root, tree, c, t, key);
      hide Payload, Zip, Valid, Searching;
      while cursor != 0
        invariant Valid() && nodes == old(nodes) && root == old(root) && tree == old(tree)
        invariant Searching(nodes, root, tree, c, t, key) && cursor == Root(t) && parent == Parent(c)
        invariant cursor == 0 <==> t.Leaf?
        decreases t
      {
        Peek(nodes, root, Summary(tree), c, t);
        var node := nodes[cursor];
        if key == node.key {
          var was := Exchange(cursor, value, c, t);
          return Some(was);
        }
        parent := cursor;
        var side := if key < node.key then Left else Right;
        StepDown(nodes, root, tree, c, t, key, side);
        cursor := node.Child(side);
        c, t := DownCtx(t, side, c), Kid(t, side);
        Peek(nodes, root, Summary(tree), c, t);
      }
      InsertMissing(key, value, parent, c);
      replaced := None;
    }

    // A red sibling of a short subtree is rotated above the parent, leaving a black sibling.
    method PromoteSibling(parent: nat, sibling: nat, side: Side, ghost w: Whole<V>, ghost c: Ctx<V>, ghost t: Tree<V>)
      returns (ghost c': Ctx<V>)
      requires Zip(nodes, root, w, c, t) && DeleteOk(c, t) && c.Under? && c.side == side && IsRed(c.other)
      requires parent == c.item.index && sibling == Root(c.other)
      modifies this`nodes, this`root
      ensures Zip(nodes, root, w, c', t) && DeleteOk(c', t) && Kept(old(nodes), nodes)
      ensures c'.Under? && c'.side == side && c'.item == c.item.(color := Red) && Depth(c'.up) == Depth(c)
              && !IsRed(c'.other)
    {
      ghost var Under(_, p, o, up) := c;
      ghost var b, q, d := Kid(o, side), o.item, Kid(o, side.Other());
      JoinKids(o, side);
      RedSibling(side, p, b, q, d, up, t);
      hide Payload, Zip, DeleteOk, Join;
      Across(nodes, root, w, c, t);
      ghost var pr, qb := p.(color := Red), q.(color := Black);
      Paint(sibling, Black, w, Opposite(c, t), o);
      PaintedJoin(side, b, q, d, Black);
      ghost var c1 := Under(side, p, Join(side, b, qb, d), up);
      Across(nodes, root, w, c1, t);
      ZipUp(nodes, root, w, c1, t);
      Paint(parent, Red, w, up, Join(side, t, p, Join(side, b, qb, d)));
      PaintedJoin(side, t, p, Join(side, b, qb, d), Red);
      Rotate(parent, side, w, up, t, pr, b, qb, d);
      c' := Under(side, pr, b, Under(side, qb, d, up));
      ZipUp(nodes, root, w, c'.up, Join(side, t, pr, b));
      ZipUp(nodes, root, w, c', t);
    }

    // A black sibling with black children turns red, and the shortage moves to the parent.
    method ReddenSibling(sibling: nat, ghost w: Whole<V>, ghost c: Ctx<V>, ghost t: Tree<V>) returns (ghost t': Tree<V>)
      requires Zip(nodes, root, w, c, t) && DeleteOk(c, t) && c.Under? && !IsRed(t) && sibling == Root(c.other)
      requires c.other.Node? && !IsRed(c.other) && !IsRed(c.other.left) && !IsRed(c.other.right)
      modifies this`nodes
      ensures Zip(nodes, root, w, c.up, t') && DeleteOk(c.up, t') && Kept(old(nodes), nodes)
      ensures t'.Node? && t'.item == c.item
    {
      ghost var Under(side, p, o, up) := c;
      ghost var b, q, d := Kid(o, side), o.item, Kid(o, side.Other());
      JoinKids(o, side);
      BlackNephews(side, p, b, q, d, up, t);
      hide Payload, Zip, DeleteOk, Join;
      Across(nodes, root, w, c, t);
      Paint(sibling, Red, w, Opposite(c, t), o);
      PaintedJoin(side, b, q, d, Red);
      ghost var c1 := Under(side, p, Join(side, b, q.(color := Red), d), up);
      Across(nodes, root, w, c1, t);
      ZipUp(nodes, root, w, c1, t);
      t' := Join(side, t, p, Join(side, b, q.(color := Red), d));
    }

    // A red near nephew under a black sibling is rotated to the far side.
    method TurnNephew(sibling: nat, near: nat, side: Side, ghost w: Whole<V>, ghost c: Ctx<V>, ghost t: Tree<V>)
      returns (ghost c': Ctx<V>)
      requires Zip(nodes, root, w, c, t) && DeleteOk(c, t) && c.Under? && c.side == side && sibling == Root(c.other)
      requires c.other.Node? && !IsRed(c.other) && IsRed(Kid(c.other, side)) && !IsRed(Kid(c.other, side.Other()))
      requires near == Root(Kid(c.other, side))
      modifies this`nodes, this`root
      ensures Zip(nodes, root, w, c', t) && DeleteOk(c', t) && Kept(old(nodes), nodes)
      ensures c'.Under? && c'.side == side && c'.item == c.item && c'.up == c.up
      ensures c'.other.Node? && !IsRed(c'.other) && IsRed(Kid(c'.other, side.Other()))
    {
      ghost var Under(_, p, o, up) := c;
      ghost var nt, q, d := Kid(o, side), o.item, Kid(o, side.Other());
      ghost var b, n, e := Kid(nt, side), nt.item, Kid(nt, side.Other());
      JoinKids(o, side);
      JoinKids(nt, side);
      NearNephew(side, p, b, n, e, q, d, up, t);
      ghost var nb, qr := n.(color := Black), q.(color := Red);
      KidsOfJoin(side, b, nb, Join(side, e, qr, d));
      var far := side.Other();
      hide Payload, Zip, DeleteOk, Join;
      ghost var oc := Opposite(c, t);
      Across(nodes, root, w, c, t);
      ghost var nc := Under(side, q, d, oc);
      ZipUp(nodes, root, w, nc, nt);
      Paint(near, Black, w, nc, nt);
      PaintedJoin(side, b, n, e, Black);
      ghost var nt' := Join(side, b, nb, e);
      ZipUp(nodes, root, w, nc, nt');
      Paint(sibling, Red, w, oc, Join(side, nt', q, d));
      PaintedJoin(side, nt', q, d, Red);
      Flip(side, nt', qr, d);
      Flip(side, b, nb, e);
      Rotate(sibling, far, w, oc, d, qr, e, nb, b);
      Flip(side, e, qr, d);
      Flip(side, b, nb, Join(side, e, qr, d));
      c' := Under(side, p, Join(side, b, nb, Join(side, e, qr, d)), up);
      Across(nodes, root, w, c', t);
    }

    // A red far nephew pays for the shortage.
    method Borrow(parent: nat, sibling: nat, side: Side, ghost w: Whole<V>, ghost c: Ctx<V>, ghost t: Tree<V>)
      returns (ghost t': Tree<V>)
      requires Zip(nodes, root, w, c, t) && DeleteOk(c, t) && c.Under? && c.side == side && !IsRed(t)
      requires parent == c.item.index && sibling == Root(c.other)
      requires c.other.Node? && !IsRed(c.other) && IsRed(Kid(c.other, side.Other()))
      modifies this`nodes, this`root
      ensures Zip(nodes, root, w, Top, t') && RedBlack(t') && t'.Node? && Kept(old(nodes), nodes)
    {
      ghost var Under(_, p, o, up) := c;
      ghost var b, q, d := Kid(o, side), o.item, Kid(o, side.Other());
      JoinKids(o, side);
      FarNephew(side, p, b, q, d, up, t);
      var far := side.Other();
      Peek(nodes, root, w, c, t);
      CellFacts(p, Parent(up), side, Root(t), Root(o), 0);
      hide Payload, Zip, DeleteOk, Join, Plug, RedBlack, Sound, IsRed;
      Across(nodes, root, w, c, t);
      ghost var oc := Opposite(c, t);
      var parentColor := nodes[parent].color;
      assert parentColor == p.color;
      Paint(sibling, parentColor, w, oc, o);
      PaintedJoin(side, b, q, d, p.color);
      ghost var q', pb, db := q.(color := p.color), p.(color := Black), Painted(d, Black);
      ghost var c1 := Under(side, p, Join(side, b, q', d), up);
      Across(nodes, root, w, c1, t);
      ZipUp(nodes, root, w, c1, t);
      Paint(parent, Black, w, up, Join(side, t, p, Join(side, b, q', d)));
      PaintedJoin(side, t, p, Join(side, b, q', d), Black);
      ghost var c2 := Under(side, pb, Join(side, b, q', d), up);
      ZipUp(nodes, root, w, c2, t);
      Across(nodes, root, w, c2, t);
      ghost var dc := Under(far, q', b, Opposite(c2, t));
      Flip(side, b, q', d);
      ZipUp(nodes, root, w, dc, d);
      FarChild(nodes, root, w, Opposite(c2, t), side, b, q', d);
      Paint(nodes[sibling].Child(far), Black, w, dc, d);
      ZipUp(nodes, root, w, dc, db);
      Flip(side, b, q', db);
      ghost var c3 := Under(side, pb, Join(side, b, q', db), up);
      Across(nodes, root, w, c3, t);
      ZipUp(nodes, root, w, c3, t);
      Rotate(parent, side, w, up, t, pb, b, q', db);
      t' := Plug(up, Join(side, Join(side, t, pb, b), q', db));
      PlugZip(nodes, root, w, up, Join(side, Join(side, t, pb, b), q', db));
      PlugNode(up, Join(side, Join(side, t, pb, b), q', db));
    }

    // The head of a delete_fixup pass: afterwards the sibling is black. The parent link of `x`, which may be nil,
    // is read here once.
    method BlackSibling(x: nat, ghost w: Whole<V>, ghost c0: Ctx<V>, ghost t: Tree<V>)
      returns (parent: nat, sibling: nat, side: Side, ghost c: Ctx<V>)
      requires Zip(nodes, root, w, c0, t) && DeleteOk(c0, t) && x == Root(t) && c0.Under?
      requires x in nodes && nodes[x].parent == Parent(c0)
      modifies this`nodes, this`root
      ensures Zip(nodes, root, w, c, t) && DeleteOk(c, t) && Kept(old(nodes), nodes)
      ensures c.Under? && c.side == side && parent == Parent(c) && c.other.Node? && !IsRed(c.other)
              && sibling == Root(c.other)
      ensures Depth(c) == Depth(c0) || (Depth(c) == Depth(c0) + 1 && c.item.color == Red)
    {
      c := c0;
      SiblingIsNode(c, t);
      PeekSibling(nodes, root, w, c, t);
      hide Payload, Zip, DeleteOk, Cell.Child;
      parent := nodes[x].parent;
      side := if nodes[parent].left == x then Left else Right;
      sibling := nodes[parent].Child(side.Other());
      if nodes[sibling].color == Red {
        c := PromoteSibling(parent, sibling, side, w, c, t);
        SiblingIsNode(c, t);
        PeekSibling(nodes, root, w, c, t);
        sibling := nodes[parent].Child(side.Other());
      }
    }

    // The rest of the pass once a red nephew exists: the shortage ends.
    method SpendNephew(parent: nat, black: nat, side: Side, ghost w: Whole<V>, ghost c0: Ctx<V>, ghost t: Tree<V>)
      returns (ghost t': Tree<V>)
      requires Zip(nodes, root, w, c0, t) && DeleteOk(c0, t) && !IsRed(t)
      requires c0.Under? && c0.side == side && parent == Parent(c0) && c0.other.Node? && !IsRed(c0.other)
               && black == Root(c0.other)
      requires IsRed(c0.other.left) || IsRed(c0.other.right)
      modifies this`nodes, this`root
      ensures Zip(nodes, root, w, Top, t') && RedBlack(t') && t'.Node? && Kept(old(nodes), nodes)
    {
      ghost var c := c0;
      var sibling := black;
      Nephews(nodes, root, w, c, t);
      JoinKids(c.other, side);
      hide Payload, Zip, DeleteOk, Cell.Child, RedBlack;
      var near, far := nodes[sibling].Child(side), nodes[sibling].Child(side.Other());
      if nodes[far].color == Black {
        c := TurnNephew(sibling, near, side, w, c, t);
        PeekSibling(nodes, root, w, c, t);
        sibling := nodes[parent].Child(side.Other());
      }
      t' := Borrow(parent, sibling, side, w, c, t);
    }

    // One pass of the delete_fixup loop.
    method DeletePass(start: nat, ghost w: Whole<V>, ghost c0: Ctx<V>, ghost t0: Tree<V>)
      returns (x: nat, ghost c: Ctx<V>, ghost t: Tree<V>)
      requires Zip(nodes, root, w, c0, t0) && DeleteOk(c0, t0) && start == Root(t0) && c0.Under? && !IsRed(t0)
      requires start in nodes && nodes[start].parent == Parent(c0)
      modifies this`nodes, this`root
      ensures Zip(nodes, root, w, c, t) && DeleteOk(c, t) && x == Root(t) && Kept(old(nodes), nodes)
      ensures t.Node? && (Depth(c) < Depth(c0) || (Depth(c) == Depth(c0) && IsRed(t)))
    {
      hide Payload, Zip, DeleteOk, Cell.Child, RedBlack;
      t := t0;
      var parent, sibling, side;
      parent, sibling, side, c := BlackSibling(start, w, c0, t);
      Nephews(nodes, root, w, c, t);
      JoinKids(c.other, side);
      var near, far := nodes[sibling].Child(side), nodes[sibling].Child(side.Other());
      if nodes[near].color == Black && nodes[far].color == Black {
        if sibling != 0 {
          t := ReddenSibling(sibling, w, c, t);
        }
        c := c.up;
        x := parent;
      } else {
        t := SpendNephew(parent, sibling, side, w, c, t);
        c := Top;
        Peek(nodes, root, w, c, t);
        NoShortage(t);
        x := root;
      }
    }

    // The last write of delete_fixup; the focus may be nil.
    method Blacken(x: nat, ghost w: Whole<V>, ghost c: Ctx<V>, ghost t: Tree<V>)
      requires Zip(nodes, root, w, c, t) && x == Root(t)
      modifies this`nodes
      ensures Zip(nodes, root, w, c, Painted(t, Black)) && Kept(old(nodes), nodes)
    {
      Peek(nodes, root, w, c, t);
      hide Payload, Zip;
      if t.Node? {
        PaintedZip(nodes, root, w, c, t, Black);
      } else {
        NilPainted(nodes, root, w, c);
      }
      Relabel(nodes, x, nodes[x].(color := Black));
      nodes := nodes[x := nodes[x].(color := Black)];
    }

    // delete_fixup
    method DeleteFixup(start: nat, ghost w: Whole<V>, ghost c0: Ctx<V>, ghost t0: Tree<V>)
      requires Zip(nodes, root, w, c0, t0) && DeleteOk(c0, t0) && start == Root(t0)
      requires start in nodes && nodes[start].parent == Parent(c0)
      modifies this
      ensures Zip(nodes, root, w, Top, tree) && RedBlack(tree) && Kept(old(nodes), nodes)
    {
      var x := start;
      ghost var c, t := c0, t0;
      Peek(nodes, root, w, c, t);
      hide Payload, Zip, DeleteOk;
      while x != root && nodes[x].color == Black
        invariant Zip(nodes, root, w, c, t) && DeleteOk(c, t) && x == Root(t)
        invariant x in nodes && nodes[x].parent == Parent(c)
        invariant x == root <==> c.Top?
        invariant nodes[x].color == Red <==> IsRed(t)
        invariant Kept(old(nodes), nodes)
        decreases Depth(c), !IsRed(t)
      {
        x, c, t := DeletePass(x, w, c, t);
        Peek(nodes, root, w, c, t);
      }
      DeleteDone(c, t);
      hide Plug, RedBlack, Painted;
      Blacken(x, w, c, t);
      tree := Plug(c, Painted(t, Black));
      PlugZip(nodes, root, w, c, Painted(t, Black));
    }

    // transplant: the tree `v` takes the place of `u`, and its root, nil included, learns the new parent.
    method Transplant(u: nat, v: nat, ghost c: Ctx<V>, ghost tv: Tree<V>, ghost q: nat)
      requires RepCtx(nodes, c, u, root) && CtxApart(c) && u != 0 && u in nodes && nodes[u].parent == Parent(c)
               && u !in CtxIds(c)
      requires Rep(nodes, tv, q) && Apart(tv) && v == Root(tv) && v in nodes
      requires Ids(tv) !! CtxIds(c) && 0 !in Ids(tv) && 0 !in CtxIds(c)
      modifies this`nodes, this`root
      ensures Rep(nodes, tv, Parent(c)) && RepCtx(nodes, c, v, root)
      ensures Kept(old(nodes), nodes) && v in nodes && nodes[v] == old(nodes[v]).(parent := Parent(c))
      ensures forall i :: i in nodes && i != v && !(c.Under? && i == Parent(c)) ==> nodes[i] == old(nodes[i])
    {
      ghost var m := nodes;
      ParentIn(c);
      RootIn(tv);
      hide Payload, Rep, RepCtx, Ids, CtxIds, Apart, CtxApart, Linked;
      var parent := nodes[u].parent;
      Relink(parent, Left, u, v, c);
      ghost var linked := nodes;
      SetParent(v, parent);
      LinkedFrame(linked, nodes, root, old(root), c, v);
      Relinked(m, nodes, c, u, v, old(root), root);
      Reparent(m, nodes, tv, q, Parent(c));
    }

    // A node with a missing child gives way to the other child.
    method SpliceOut(u: nat, v: nat, ghost w: Whole<V>, ghost c: Ctx<V>, ghost s: Side, ghost it: Item<V>,
                     ghost tv: Tree<V>)
      requires Zip(nodes, root, w, c, Join(s, Leaf, it, tv)) && u == it.index && v == Root(tv)
      modifies this`nodes, this`root
      ensures Zip(nodes, root, Without(w, it.index, c, tv), c, tv) && Kept(old(nodes), nodes)
      ensures v in nodes && nodes[v].parent == Parent(c)
      ensures u in nodes && nodes[u] == old(nodes[u])
    {
      ghost var t := Join(s, Leaf, it, tv);
      Peek(nodes, root, w, c, t);
      RepJoin(nodes, s, Leaf, it, tv, Parent(c));
      JoinIds(s, Leaf, it, tv);
      InPool(nodes, tv, it.index);
      ParentIn(c);
      RootIn(tv);
      assert NilOk(nodes) && RepCtx(nodes, c, u, root) && Split(w.ids, c, t);
      ghost var m := nodes;
      hide Payload, Zip, Rep, RepCtx, Ids, CtxIds, Apart, CtxApart, Join, Before, After, Entries;
      Transplant(u, v, c, tv, it.index);
      assert Zip(nodes, root, Without(w, it.index, c, tv), c, tv) by { Assembled(nodes, root, w, it.index, c, tv); }
    }

    // minimum_index and maximum_index: all the way down one side.
    method Extreme(start: nat, side: Side, ghost w: Whole<V>, ghost base: Ctx<V>, ghost r: Tree<V>)
      returns (index: nat, ghost spine: Ctx<V>, ghost t: Tree<V>)
      requires Zip(nodes, root, w, base, r) && r.Node? && start == Root(r)
      ensures Zip(nodes, root, w, Append(spine, base), t) && Plug(spine, t) == r && OnSide(spine, side)
      ensures t.Node? && Kid(t, side).Leaf? && index == Root(t) && index in nodes
    {
      index, spine, t := start, Top, r;
      Peek(nodes, root, w, base, r);
      hide Payload, Zip;
      while nodes[index].Child(side) != 0
        invariant Zip(nodes, root, w, Append(spine, base), t) && Plug(spine, t) == r && OnSide(spine, side)
        invariant t.Node? && index == Root(t) && index in nodes && nodes[index].Child(side) == Root(Kid(t, side))
        invariant Root(Kid(t, side)) == 0 <==> Kid(t, side).Leaf?
        decreases t
      {
        ChildZip(nodes, root, w, Append(spine, base), t, side);
        assert Join(side, Kid(t, side), t.item, Kid(t, side.Other())) == t;
        index := nodes[index].Child(side);
        spine, t := DownCtx(t, side, spine), Kid(t, side);
        Peek(nodes, root, w, Append(spine, base), t);
        KidRoot(nodes, root, w, Append(spine, base), t, side);
      }
    }

    // The left subtree and the colour of `z` pass to `y`.
    method AdoptLeft(z: nat, y: nat)
      requires z in nodes && y in nodes && nodes[z].left in nodes && y != z && nodes[z].left != y && nodes[z].left != z
      modifies this`nodes
      ensures var m, left := old(nodes), old(nodes[z].left);
              nodes == m[left := m[left].(parent := y)][y := m[y].(left := left).(color := m[z].color)]
      ensures Kept(old(nodes), nodes)
    {
      hide Payload;
      var zLeft := nodes[z].left;
      SetChild(y, Left, zLeft);
      SetParent(zLeft, y);
      Relabel(nodes, y, nodes[y].(color := nodes[z].color));
      nodes := nodes[y := nodes[y].(color := nodes[z].color)];
    }

    // The detached successor `y` takes the place, the left subtree and the colour of `z`.
    method TakePlace(z: nat, y: nat, ghost ids: set<nat>, ghost c: Ctx<V>, ghost l: Tree<V>, ghost iz: Item<V>,
                     ghost r: Tree<V>, ghost iy: Item<V>)
      requires Ready(nodes, root, ids, c, l, iz, r, iy) && l.Node? && z == iz.index && y == iy.index
      modifies this`nodes, this`root
      ensures Zip(nodes, root, Whole(ids - {z}, Before(c) + Entries(Node(l, iy.(color := iz.color), r)) + After(c)),
                  c, Node(l, iy.(color := iz.color), r))
      ensures Kept(old(nodes), nodes) && z in nodes && nodes[z] == old(nodes[z])
      ensures forall i :: i in nodes && i != y && i != Root(l) && !(c.Under? && i == Parent(c)) ==>
                nodes[i] == old(nodes[i])
    {
      ghost var ty := Node(Leaf, iy, r);
      SingleTree(nodes, iy, r);
      RootIn(l);
      RootIn(r);
      ParentIn(c);
      InPool(nodes, l, z);
      ReadyIds(ids, c, l, z, r, iy);
      hide Payload, Zip, Rep, RepCtx, Ids, CtxIds, Apart, CtxApart, Before, After, Entries, CellOf, Split;
      Transplant(z, y, c, ty, nodes[y].parent);
      ghost var m := nodes;
      AdoptLeft(z, y);
      TookPlace(old(nodes), m, nodes, old(root), root, ids, c, l, iz, r, iy);
    }

    // The successor is not the right child itself: it is spliced out first.
    method UprootFar(z: nat, y: nat, x: nat, ghost w: Whole<V>, ghost c: Ctx<V>, ghost l: Tree<V>, ghost iz: Item<V>,
                     ghost spine: Ctx<V>, ghost iy: Item<V>, ghost t: Tree<V>)
      requires Zip(nodes, root, w, Append(spine, Under(Right, iz, l, c)), Node(Leaf, iy, t)) && l.Node? && spine.Under?
      requires z == iz.index && y == iy.index && x == Root(t)
      modifies this`nodes, this`root
      ensures Ready(nodes, root, w.ids, c, l, iz, Plug(spine, t), iy) && Kept(old(nodes), nodes)
      ensures x in nodes && nodes[x].parent == Parent(spine)
    {
      ghost var full, ty := Append(spine, Under(Right, iz, l, c)), Node(Leaf, iy, t);
      ghost var w1, r := Without(w, y, full, t), Plug(spine, t);
      Peek(nodes, root, w, full, ty);
      ZipSplit(nodes, root, w, full, ty);
      SuccessorSpots(w.ids, spine, c, l, iz, iy, t);
      SpineSpots(w.ids, spine, c, l, iz, iy, t);
      assert ty == Join(Left, Leaf, iy, t) && 0 !in w.ids;
      hide Payload, Zip, Plug, Append, Split, Ready, Before, After, Entries;
      SpliceOut(y, x, w, full, Left, iy, t);
      ghost var m := nodes;
      Raised(m, root, w1, c, l, iz, spine, t);
      Peek(m, root, w1, c, Node(l, iz, r));
      RootInPool(m, root, w1, c, l, iz, r);
      var zRight := nodes[z].right;
      SetChild(y, Right, zRight);
      SetParent(zRight, y);
      ReadyFar(m, nodes, root, w, w1, c, l, iz, r, iy, Root(t));
    }

    // The successor `y` leaves its place: its right child `x` goes up, and `y` takes the rest of the right subtree.
    method Uproot(z: nat, y: nat, ghost w: Whole<V>, ghost c: Ctx<V>, ghost l: Tree<V>, ghost iz: Item<V>,
                  ghost r: Tree<V>,
                  ghost spine: Ctx<V>, ghost iy: Item<V>, ghost t: Tree<V>) returns (x: nat)
      requires Zip(nodes, root, w, c, Node(l, iz, r)) && z == iz.index && y == iy.index && l.Node?
      requires r == Plug(spine, Node(Leaf, iy, t))
      modifies this`nodes, this`root
      ensures Ready(nodes, root, w.ids, c, l, iz, Plug(spine, t), iy) && Kept(old(nodes), nodes)
      ensures x == Root(t) && x in nodes && nodes[x].parent == if spine.Top? then y else Parent(spine)
      ensures z in nodes && nodes[z].value == iz.value
    {
      ghost var zc, ty := Under(Right, iz, l, c), Node(Leaf, iy, t);
      ghost var full := Append(spine, zc);
      Lowered(nodes, root, w, c, l, iz, r, spine, ty);
      Peek(nodes, root, w, c, Node(l, iz, r));
      Peek(nodes, root, w, full, ty);
      PeekKids(nodes, root, w, full, ty);
      ZipSplit(nodes, root, w, full, ty);
      SuccessorSpots(w.ids, spine, c, l, iz, iy, t);
      SpineSpots(w.ids, spine, c, l, iz, iy, t);
      ParentBelow(spine, iz, l, c);
      hide Payload, Zip, Plug, Append, Split, Ready, CellOf;
      x := nodes[y].right;
      if nodes[y].parent == z {
        ghost var m := nodes;
        SetParent(x, y);
        ReadyNear(m, nodes, root, w, c, l, iz, iy, t, spine);
      } else {
        UprootFar(z, y, x, w, c, l, iz, spine, iy, t);
      }
      KeptAt(old(nodes), nodes, z);
    }

    // The successor moves into the place of `z`.
    method Relocate(z: nat, y: nat, ghost w: Whole<V>, ghost c: Ctx<V>, ghost l: Tree<V>, ghost iz: Item<V>,
                    ghost r: Tree<V>,
                    ghost spine: Ctx<V>, ghost iy: Item<V>, ghost t: Tree<V>) returns (x: nat)
      requires Zip(nodes, root, w, c, Node(l, iz, r)) && z == iz.index && y == iy.index && l.Node?
      requires r == Plug(spine, Node(Leaf, iy, t))
      modifies this`nodes, this`root
      ensures var t' := Node(l, iy.(color := iz.color), Plug(spine, t));
              Zip(nodes, root, Whole(w.ids - {z}, Before(c) + Entries(t') + After(c)), c, t')
      ensures x == Root(t) && x in nodes
              && nodes[x].parent == Parent(Append(spine, Under(Right, iy.(color := iz.color), l, c)))
      ensures Kept(old(nodes), nodes) && z in nodes && nodes[z].value == iz.value
    {
      ghost var full := Append(spine, Under(Right, iz, l, c));
      Lowered(nodes, root, w, c, l, iz, r, spine, Node(Leaf, iy, t));
      ZipSplit(nodes, root, w, full, Node(Leaf, iy, t));
      SuccessorSpots(w.ids, spine, c, l, iz, iy, t);
      ParentBelow(spine, iy.(color := iz.color), l, c);
      hide Payload, Zip, Plug, Append, Ready, Before, After, Entries, Split;
      x := Uproot(z, y, w, c, l, iz, r, spine, iy, t);
      TakePlace(z, y, w.ids, c, l, iz, Plug(spine, t), iy);
    }

    // The two-child branch of remove, up to the fixup at `x`.
    method Succeed(z: nat, ghost w: Whole<V>, ghost c: Ctx<V>, ghost l: Tree<V>, ghost iz: Item<V>, ghost r: Tree<V>)
      returns (x: nat, color: Color, ghost c': Ctx<V>, ghost t': Tree<V>)
      requires Zip(nodes, root, w, c, Node(l, iz, r)) && l.Node? && r.Node? && z == iz.index
      requires RedBlack(Plug(c, Node(l, iz, r)))
      modifies this`nodes, this`root
      ensures Zip(nodes, root, Whole(w.ids - {z}, Before(c) + (Entries(l) + Entries(r)) + After(c)), c', t')
      ensures x == Root(t') && x in nodes && nodes[x].parent == Parent(c')
      ensures if color == Black then DeleteOk(c', t') else RedBlack(Plug(c', t'))
      ensures Kept(old(nodes), nodes) && z in nodes && nodes[z].value == iz.value
    {
      ghost var zc := Under(Right, iz, l, c);
      Peek(nodes, root, w, c, Node(l, iz, r));
      hide Payload, Zip, RedBlack, DeleteOk, Plug, Append, Ready, Before, After, Entries, Split, CellOf;
      ZipUp(nodes, root, w, zc, r);
      assert Join(Right, r, iz, l) == Node(l, iz, r);
      ghost var spine, ty;
      var y;
      y, spine, ty := Extreme(nodes[z].right, Left, w, zc, r);
      ghost var iy, full := ty.item, Append(spine, zc);
      t' := ty.right;
      assert ty == Node(Leaf, iy, t');
      Peek(nodes, root, w, full, ty);
      TwoChildren(c, l, iz, spine, iy, t');
      SpineEntries(spine, iy, t');
      color := nodes[y].color;
      x := Relocate(z, y, w, c, l, iz, r, spine, iy, t');
      ghost var below := Under(Right, iy.(color := iz.color), l, c);
      c' := Append(spine, below);
      NewEntries(c, l, iz, r, Plug(spine, t'), iy);
      Lowered(nodes, root, Whole(w.ids - {z}, Before(c) + (Entries(l) + Entries(r)) + After(c)),
              c, l, iy.(color := iz.color), Plug(spine, t'), spine, t');
    }

    // The three branches of remove, up to the fixup at `x`.
    method Unhook(z: nat, ghost w: Whole<V>, ghost c: Ctx<V>, ghost t: Tree<V>)
      returns (x: nat, color: Color, ghost c': Ctx<V>, ghost t': Tree<V>)
      requires Zip(nodes, root, w, c, t) && t.Node? && z == t.item.index && RedBlack(Plug(c, t))
      modifies this`nodes, this`root
      ensures Zip(nodes, root, Whole(w.ids - {z}, Lower(c, t) + Upper(c, t)), c', t')
      ensures x == Root(t') && x in nodes && nodes[x].parent == Parent(c')
      ensures if color == Black then DeleteOk(c', t') else RedBlack(Plug(c', t'))
      ensures Kept(old(nodes), nodes) && z in nodes && nodes[z].value == t.item.value
    {
      Peek(nodes, root, w, c, t);
      PeekKids(nodes, root, w, c, t);
      KidRoot(nodes, root, w, c, t, Left);
      KidRoot(nodes, root, w, c, t, Right);
      ghost var l, it, r := t.left, t.item, t.right;
      SplicedEntries(c, t);
      hide Payload, Zip, RedBlack, DeleteOk, Plug, Before, After, Entries, Lower, Upper;
      color := nodes[z].color;
      if nodes[z].left == 0 {
        assert t == Join(Left, Leaf, it, r);
        OneChild(c, Left, it, r);
        x := nodes[z].right;
        SpliceOut(z, x, w, c, Left, it, r);
        c', t' := c, r;
      } else if nodes[z].right == 0 {
        assert t == Join(Right, Leaf, it, l);
        OneChild(c, Right, it, l);
        x := nodes[z].left;
        SpliceOut(z, x, w, c, Right, it, l);
        c', t' := c, l;
      } else {
        x, color, c', t' := Succeed(z, w, c, l, it, r);
      }
    }

    // The found branch of remove.
    method RemoveAt(z: nat, key: int, ghost c: Ctx<V>, ghost t: Tree<V>) returns (value: V)
      requires Valid() && Searching(nodes, root, tree, c, t, key) && t.Node? && t.item.key == key && z == t.item.index
      modifies this
      ensures Valid() && Contents() == old(Contents()) - {key} && value == t.item.value
    {
      hide Payload, Zip, Searching, Sorted, AsMap, Entries, RedBlack, Ids, Plug, DeleteOk, Lower, Upper;
      RemovedEntries(nodes, root, tree, c, t, key);
      ghost var ids := Ids(tree);
      ghost var w' := Whole(ids - {z}, Lower(c, t) + Upper(c, t));
      var x, color;
      ghost var c', t';
      x, color, c', t' := Unhook(z, Summary(tree), c, t);
      ghost var unhooked := nodes;
      if color == Black {
        DeleteFixup(x, w', c', t');
      } else {
        PlugZip(nodes, root, w', c', t');
        tree := Plug(c', t');
      }
      KeptAt(unhooked, nodes, z);
      value := nodes[z].value;
      Dropped(nodes, root, w', tree, z);
      nodes := nodes - {z};
      SummaryOf(nodes, root, w', tree);
      assert nodes.Keys == (ids - {z}) + {0};
    }

    method Remove(key: int) returns (removed: Option<V>)
      requires Valid()
      modifies this
      ensures Valid() && Contents() == old(Contents()) - {key}
      ensures removed == if key in old(Contents()) then Some(old(Contents())[key]) else None
    {
      var found;
      ghost var c, t;
      found, c, t := FindNode(key);
      Located(nodes, root, tree, c, t, key);
      hide Payload, Valid, Searching, AsMap;
      if found.None? {
        NothingRemoved(Contents(), key);
        return None;
      }
      var value := RemoveAt(found.value, key, c, t);
      removed := Some(value);
    }

    // new, with the default value that fills the nil slot
    constructor (blank: V)
      ensures Valid() && Contents() == map[]
    {
      nodes := map[0 := Cell(Black, 0, 0, 0, 0, blank)];
      root := 0;
      tree := Leaf;
    }

    // len
    method Len() returns (n: nat)
      requires Valid()
      ensures n == |Contents()|
    {
      IdsCount(tree);
      MapSize(Entries(tree));
      SizeOfPool(nodes, root, tree);
      n := |nodes| - 1;
    }

    // first is the edge on the left, last the edge on the right
    method Edge(side: Side) returns (edge: Option<Entry<V>>)
      requires Valid()
      ensures edge.None? <==> Contents() == map[]
      ensures edge.Some? ==>
                && edge.value.key in Contents() && Contents()[edge.value.key] == edge.value.value
                && forall k :: k in Contents() ==> if side == Left then edge.value.key <= k else k <= edge.value.key
    {
      EmptyMap(tree);
      if root == 0 {
        Peek(nodes, root, Summary(tree), Top, tree);
        return None;
      }
      Peek(nodes, root, Summary(tree), Top, tree);
      var index;
      ghost var spine, t;
      index, spine, t := Extreme(root, side, Summary(tree), Top, tree);
      Peek(nodes, root, Summary(tree), Append(spine, Top), t);
      hide Payload, Zip, Sorted, AsMap, Entries, Plug, RedBlack;
      EdgeEntry(spine, t, side, tree);
      edge := Some(Entry(nodes[index].key, nodes[index].value));
    }

    // predecessor_index
    method Predecessor(key: int) returns (nearest: Option<Entry<V>>)
      requires Valid()
      ensures IsPredecessor(Contents(), key, nearest)
    {
      ghost var c: Ctx<V>, t := Top, tree;
      var cursor, candidate := root, 0;
      Peek(nodes, root, Summary(tree), c, t);
      assert SeekBelow(nodes, root, tree, c, t, key, candidate);
      hide Zip, SeekBelow, Valid, IsPredecessor, AsMap;
      while cursor != 0
        invariant SeekBelow(nodes, root, tree, c, t, key, candidate) && cursor == Root(t) && (cursor == 0 <==> t.Leaf?)
        decreases t
      {
        SeekBelowStep(nodes, root, tree, c, t, key, candidate);
        var node := nodes[cursor];
        var side := if key <= node.key then Left else Right;
        if side == Right { candidate := cursor; }
        cursor := node.Child(side);
        c, t := DownCtx(t, side, c), Kid(t, side);
      }
      SeekBelowDone(nodes, root, tree, c, key, candidate);
      nearest := if candidate != 0 then Some(Entry(nodes[candidate].key, nodes[candidate].value)) else None;
    }

    // successor_index
    method Successor(key: int) returns (nearest: Option<Entry<V>>)
      requires Valid()
      ensures IsSuccessor(Contents(), key, nearest)
    {
      ghost var c: Ctx<V>, t := Top, tree;
      var cursor, candidate := root, 0;
      Peek(nodes, root, Summary(tree), c, t);
      assert SeekAbove(nodes, root, tree, c, t, key, candidate);
      hide Zip, SeekAbove, Valid, IsSuccessor, AsMap;
      while cursor != 0
        invariant SeekAbove(nodes, root, tree, c, t, key, candidate) && cursor == Root(t) && (cursor == 0 <==> t.Leaf?)
        decreases t
      {
        SeekAboveStep(nodes, root, tree, c, t, key, candidate);
        var node := nodes[cursor];
        var side := if key < node.key then Left else Right;
        if side == Left { candidate := cursor; }
        cursor := node.Child(side);
        c, t := DownCtx(t, side, c), Kid(t, side);
      }
      SeekAboveDone(nodes, root, tree, c, key, candidate);
      nearest := if candidate != 0 then Some(Entry(nodes[candidate].key, nodes[candidate].value)) else None;
    }
  }
}
