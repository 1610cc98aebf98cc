// In-order iteration over a red-black tree with an explicit stack of node indices.
module RbIters {
  import opened Common
  import opened RbShapes
  import opened RbFacts
  import opened RbTrees

  // The entries still to come: each stacked node, then its right subtree, the top of the stack first.
  ghost function Rest<V>(pending: seq<Tree<V>>): seq<Entry<V>>
    requires forall i :: 0 <= i < |pending| ==> pending[i].Node?
  {
    if pending == [] then []
    else
      var t := pending[|pending| - 1];
      [t.item.AsEntry()] + Entries(t.right) + Rest(pending[..|pending| - 1])
  }

  ghost predicate Stacked<V>(m: Pool<V>, stack: seq<nat>, pending: seq<Tree<V>>, parents: seq<nat>) {
    && |stack| == |pending| == |parents|
    && forall i :: 0 <= i < |pending| ==>
       pending[i].Node? && stack[i] == pending[i].item.index && Rep(m, pending[i], parents[i])
  }

  // Pushing a node puts it and its right subtree in front.
  lemma Pushed<V>(m: Pool<V>, stack: seq<nat>, pending: seq<Tree<V>>, parents: seq<nat>, t: Tree<V>, p: nat)
    requires Stacked(m, stack, pending, parents) && t.Node? && Rep(m, t, p)
    ensures Stacked(m, stack + [t.item.index], pending + [t], parents + [p])
    ensures Entries(t) + Rest(pending) == Entries(t.left) + Rest(pending + [t])
    ensures t.item.index in m && m[t.item.index].left == Root(t.left) && Rep(m, t.left, t.item.index)
  {
    RestPushed(pending, t);
    TopOf(m, t, p);
    hide Entries, Rest, Rep;
  }

  lemma RestPushed<V>(pending: seq<Tree<V>>, t: Tree<V>)
    requires t.Node? && forall i :: 0 <= i < |pending| ==> pending[i].Node?
    ensures Entries(t) + Rest(pending) == Entries(t.left) + Rest(pending + [t])
  {
    hide Entries, Rest;
    NodeEntries(t);
    RestTop(pending, t);
    Reassociate(Entries(t.left), [t.item.AsEntry()], Entries(t.right), Rest(pending));
  }

  lemma NodeEntries<V>(t: Tree<V>)
    requires t.Node?
    ensures Entries(t) == Entries(t.left) + [t.item.AsEntry()] + Entries(t.right)
  {
  }

  lemma RestTop<V>(pending: seq<Tree<V>>, t: Tree<V>)
    requires t.Node? && forall i :: 0 <= i < |pending| ==> pending[i].Node?
    ensures Rest(pending + [t]) == [t.item.AsEntry()] + Entries(t.right) + Rest(pending)
  {
    hide Entries;
    assert (pending + [t])[..|pending|] == pending;
  }

  lemma Reassociate<T>(a: seq<T>, b: seq<T>, c: seq<T>, d: seq<T>)
    ensures a + b + c + d == a + (b + c + d)
  {
  }

  lemma TopOf<V>(m: Pool<V>, t: Tree<V>, p: nat)
    requires t.Node? && Rep(m, t, p)
    ensures t.item.index in m && m[t.item.index].left == Root(t.left) && Rep(m, t.left, t.item.index)
  {
  }

  class RbIter<V> {
    const nodes: map<nat, Cell<V>>
    var stack: seq<nat>
    ghost var pending: seq<Tree<V>>
    ghost var parents: seq<nat>

    ghost predicate Valid()
      reads this
    {
      Stacked(nodes, stack, pending, parents)
    }

    ghost function Remaining(): seq<Entry<V>>
      requires Valid()
      reads this
    {
      Rest(pending)
    }

    // iter
    constructor (tree: RbTree<V>)
      requires tree.Valid()
      ensures Valid() && Remaining() == Entries(tree.tree)
    {
      nodes := tree.nodes;
      stack, pending, parents := [], [], [];
      new;
      PushLeft(tree.root, tree.tree, 0);
    }

    // The inner loop of iter and next: the left edge of a subtree goes onto the stack.
    method PushLeft(start: nat, ghost t0: Tree<V>, ghost p0: nat)
      requires Valid() && Rep(nodes, t0, p0) && start == Root(t0)
      modifies this
      ensures Valid() && Remaining() == Entries(t0) + old(Remaining())
    {
      var cursor := start;
      ghost var t, p := t0, p0;
      hide Entries, Rest;
      while cursor != 0
        invariant Valid() && Rep(nodes, t, p) && cursor == Root(t)
        invariant Entries(t) + Remaining() == Entries(t0) + old(Remaining())
        decreases t
      {
        Pushed(nodes, stack, pending, parents, t, p);
        stack, pending, parents := stack + [cursor], pending + [t], parents + [p];
        p, t := cursor, t.left;
        cursor := nodes[cursor].left;
      }
      assert Entries(t) == [] by { NoEntries(t); }
    }

    // next
    method Next() returns (entry: Option<Entry<V>>)
      requires Valid()
      modifies this
      ensures Valid()
      ensures old(Remaining()) == [] ==> entry == None && Remaining() == []
      ensures old(Remaining()) != [] ==> entry == Some(old(Remaining())[0]) && Remaining() == old(Remaining())[1..]
    {
      if stack == [] { return None; }
      var index := stack[|stack| - 1];
      ghost var t := pending[|pending| - 1];
      assert Rep(nodes, t, parents[|parents| - 1]);
      Regroup([], [], [t.item.AsEntry()], Entries(t.right), Rest(pending[..|pending| - 1]));
      stack, pending, parents := stack[..|stack| - 1], pending[..|pending| - 1], parents[..|parents| - 1];
      PushLeft(nodes[index].right, t.right, index);
      entry := Some(Entry(nodes[index].key, nodes[index].value));
    }
  }

  lemma NoEntries<V>(t: Tree<V>)
    requires t.Leaf?
    ensures Entries(t) == []
  {
  }
}
