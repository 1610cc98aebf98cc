// The colour discipline of a red-black tree, for whole trees and for trees with a hole.
module RbBalance {
  import opened RbShapes

  predicate IsRed<V>(t: Tree<V>) {
    t.Node? && t.item.color == Red
  }

  function Step<V>(it: Item<V>): nat {
    if it.color == Black then 1 else 0
  }

  // Black nodes on the way down (every way, in a sound tree).
  function BlackHeight<V>(t: Tree<V>): nat {
    if t.Leaf? then 0 else BlackHeight(t.left) + Step(t.item)
  }

  // Equal black heights everywhere, and no red node with a red child.
  predicate Sound<V>(t: Tree<V>) {
    t.Node? ==>
      && Sound(t.left) && Sound(t.right) && BlackHeight(t.left) == BlackHeight(t.right)
      && (t.item.color == Red ==> !IsRed(t.left) && !IsRed(t.right))
  }

  // The same of a context whose hole takes a tree of black height `h` that is red only if `red`.
  predicate CtxSound<V>(c: Ctx<V>, h: nat, red: bool) {
    c.Under? ==>
      && Sound(c.other) && BlackHeight(c.other) == h
      && (c.item.color == Red ==> !red && !IsRed(c.other))
      && CtxSound(c.up, h + Step(c.item), c.item.color == Red)
  }

  predicate TopBlack<V>(c: Ctx<V>) {
    c.Under? ==> if c.up.Top? then c.item.color == Black else TopBlack(c.up)
  }

  predicate RedBlack<V>(t: Tree<V>) {
    Sound(t) && !IsRed(t)
  }

  function Plug<V>(c: Ctx<V>, t: Tree<V>): Tree<V> {
    if c.Top? then t else Plug(c.up, Join(c.side, t, c.item, c.other))
  }

  // Soundness splits at any subtree.
  lemma {:induction false} PlugSound<V>(c: Ctx<V>, t: Tree<V>)
    ensures Sound(Plug(c, t)) <==> Sound(t) && CtxSound(c, BlackHeight(t), IsRed(t))
    decreases c
  {
    if c.Under? {
      PlugSound(c.up, Join(c.side, t, c.item, c.other));
    } else {
      assert Plug(c, t) == t;
    }
  }

  lemma {:induction false} PlugTop<V>(c: Ctx<V>, t: Tree<V>)
    ensures c.Under? ==> (TopBlack(c) <==> !IsRed(Plug(c, t)))
    decreases c
  {
    if c.Under? {
      PlugTop(c.up, Join(c.side, t, c.item, c.other));
    }
  }

  lemma {:induction false} PlugZip<V>(m: Pool<V>, root: nat, w: Whole<V>, c: Ctx<V>, t: Tree<V>)
    requires Zip(m, root, w, c, t)
    ensures Zip(m, root, w, Top, Plug(c, t))
    decreases c
  {
    hide Zip;
    if c.Under? {
      ZipUp(m, root, w, c, t);
      PlugZip(m, root, w, c.up, Join(c.side, t, c.item, c.other));
    }
  }

  // A black hole is at least as easy to fill as a red one.
  lemma Weaken<V>(c: Ctx<V>, h: nat)
    ensures CtxSound(c, h, true) ==> CtxSound(c, h, false)
    ensures c.Under? && c.item.color == Black && CtxSound(c, h, false) ==> CtxSound(c, h, true)
  {
  }

  // ---- insertion: all is well except perhaps between the red focus and its parent

  predicate InsertOk<V>(c: Ctx<V>, t: Tree<V>) {
    Sound(t) && IsRed(t) && CtxSound(c, BlackHeight(t), false) && TopBlack(c)
  }

  lemma Grandparent<V>(c: Ctx<V>, t: Tree<V>)
    requires InsertOk(c, t) && c.Under? && c.item.color == Red
    ensures c.up.Under? && c.up.item.color == Black && !IsRed(c.other)
    ensures CtxSound(c.up, BlackHeight(t), true) && TopBlack(c.up) && TopBlack(c.up.up)
    ensures CtxSound(c.up.up, BlackHeight(t) + 1, false)
  {
    assert CtxSound(c.up, BlackHeight(t), true);
    assert TopBlack(c.up);
  }

  lemma RedUncle<V>(s1: Side, p: Item<V>, o1: Tree<V>, s2: Side, g: Item<V>, o2: Tree<V>, up: Ctx<V>, t: Tree<V>)
    requires InsertOk(Under(s1, p, o1, Under(s2, g, o2, up)), t) && p.color == Red && IsRed(o2)
    ensures InsertOk(up, Join(s2, Join(s1, t, p.(color := Black), o1), g.(color := Red), Painted(o2, Black)))
  {
    var c := Under(s1, p, o1, Under(s2, g, o2, up));
    Grandparent(c, t);
    assert Sound(Join(s1, t, p.(color := Black), o1));
    assert BlackHeight(Painted(o2, Black)) == BlackHeight(t) + 1;
    assert Sound(Painted(o2, Black));
  }

  lemma InnerChild<V>(s: Side, p: Item<V>, o: Tree<V>, c: Ctx<V>, a: Tree<V>, z: Item<V>, b: Tree<V>)
    requires InsertOk(Under(s.Other(), p, o, c), Join(s, a, z, b)) && p.color == Red
    ensures InsertOk(Under(s, z, b, c), Join(s, o, p, a)) && z.color == Red
  {
    Grandparent(Under(s.Other(), p, o, c), Join(s, a, z, b));
  }

  lemma BlackUncle<V>(s: Side, p: Item<V>, o1: Tree<V>, g: Item<V>, o2: Tree<V>, up: Ctx<V>, t: Tree<V>)
    requires InsertOk(Under(s, p, o1, Under(s, g, o2, up)), t) && p.color == Red && !IsRed(o2)
    ensures InsertOk(Under(s, p.(color := Black), Join(s, o1, g.(color := Red), o2), up), t)
  {
    var c := Under(s, p, o1, Under(s, g, o2, up));
    Grandparent(c, t);
    assert Sound(Join(s, o1, g.(color := Red), o2));
  }

  lemma InsertDone<V>(c: Ctx<V>, t: Tree<V>)
    requires InsertOk(c, t) && (c.Under? ==> c.item.color == Black)
    ensures RedBlack(Painted(Plug(c, t), Black)) && (c.Under? ==> Painted(Plug(c, t), Black) == Plug(c, t))
  {
    PlugSound(c, t);
    PlugTop(c, t);
    Weaken(c, BlackHeight(t));
  }

  // ---- removal: the focus is one black node short, and may be red under a red parent

  predicate DeleteOk<V>(c: Ctx<V>, t: Tree<V>) {
    && Sound(Painted(t, Black)) && CtxSound(c, BlackHeight(t) + 1, false) && TopBlack(c)
  }

  lemma SiblingIsNode<V>(c: Ctx<V>, t: Tree<V>)
    requires DeleteOk(c, t) && c.Under?
    ensures c.other.Node?
  {
  }

  // Red sibling: after the rotation the sibling is black and the parent red.
  lemma RedSibling<V>(s: Side, p: Item<V>, b: Tree<V>, q: Item<V>, d: Tree<V>, up: Ctx<V>, t: Tree<V>)
    requires DeleteOk(Under(s, p, Join(s, b, q, d), up), t) && q.color == Red
    ensures DeleteOk(Under(s, p.(color := Red), b, Under(s, q.(color := Black), d, up)), t)
    ensures b.Node? && !IsRed(b)
  {
    assert Sound(Join(s, b, q, d));
    assert BlackHeight(b) == BlackHeight(d) == BlackHeight(t) + 1;
    assert CtxSound(up, BlackHeight(t) + 2, false);
  }

  // Black sibling with black children: the shortage moves up.
  lemma BlackNephews<V>(s: Side, p: Item<V>, b: Tree<V>, q: Item<V>, d: Tree<V>, up: Ctx<V>, t: Tree<V>)
    requires DeleteOk(Under(s, p, Join(s, b, q, d), up), t) && q.color == Black && !IsRed(b) && !IsRed(d) && !IsRed(t)
    ensures DeleteOk(up, Join(s, t, p, Join(s, b, q.(color := Red), d)))
  {
    assert Sound(Join(s, b, q, d));
    assert Sound(t);
    var far := Join(s, b, q.(color := Red), d);
    assert Sound(far) && BlackHeight(far) == BlackHeight(t);
    Weaken(up, BlackHeight(t) + 1 + Step(p));
  }

  // Black sibling with only its near child red: the rotation puts a red child on the far side.
  lemma NearNephew<V>(s: Side, p: Item<V>, b: Tree<V>, n: Item<V>, e: Tree<V>, q: Item<V>, d: Tree<V>, up: Ctx<V>,
                      t: Tree<V>)
    requires DeleteOk(Under(s, p, Join(s, Join(s, b, n, e), q, d), up), t) && q.color == Black && n.color == Red
             && !IsRed(d)
    ensures DeleteOk(Under(s, p, Join(s, b, n.(color := Black), Join(s, e, q.(color := Red), d)), up), t)
  {
    assert Sound(Join(s, Join(s, b, n, e), q, d));
    assert Sound(Join(s, b, n, e));
    assert Sound(Join(s, e, q.(color := Red), d));
    var sibling := Join(s, b, n.(color := Black), Join(s, e, q.(color := Red), d));
    assert Sound(sibling) && BlackHeight(sibling) == BlackHeight(t) + 1;
  }

  // Black sibling with a red far child: one rotation makes up the shortage.
  lemma FarNephew<V>(s: Side, p: Item<V>, b: Tree<V>, q: Item<V>, d: Tree<V>, up: Ctx<V>, t: Tree<V>)
    requires DeleteOk(Under(s, p, Join(s, b, q, d), up), t) && q.color == Black && IsRed(d) && !IsRed(t)
    ensures var whole := Plug(up, Join(s, Join(s, t, p.(color := Black), b), q.(color := p.color), Painted(d, Black)));
            Sound(whole) && !IsRed(whole)
  {
    var fixed := Join(s, Join(s, t, p.(color := Black), b), q.(color := p.color), Painted(d, Black));
    assert Sound(Join(s, b, q, d));
    assert Sound(Join(s, t, p.(color := Black), b));
    assert Sound(d);
    assert Sound(Painted(d, Black)) && BlackHeight(Painted(d, Black)) == BlackHeight(t) + 1;
    assert Sound(fixed) && BlackHeight(fixed) == BlackHeight(t) + 1 + Step(p);
    PlugSound(up, fixed);
    PlugTop(up, fixed);
  }

  lemma DeleteDone<V>(c: Ctx<V>, t: Tree<V>)
    requires DeleteOk(c, t) && (c.Under? ==> IsRed(t))
    ensures RedBlack(Plug(c, Painted(t, Black)))
  {
    PlugSound(c, Painted(t, Black));
    PlugTop(c, Painted(t, Black));
  }

  // ---- paths below a context

  function Append<V>(c: Ctx<V>, base: Ctx<V>): Ctx<V> {
    if c.Top? then base else Under(c.side, c.item, c.other, Append(c.up, base))
  }

  lemma {:induction false} PlugAppend<V>(c: Ctx<V>, base: Ctx<V>, t: Tree<V>)
    ensures Plug(Append(c, base), t) == Plug(base, Plug(c, t))
    decreases c
  {
    if c.Under? { PlugAppend(c.up, base, Join(c.side, t, c.item, c.other)); }
  }

  lemma {:induction false} AppendZip<V>(m: Pool<V>, root: nat, w: Whole<V>, c: Ctx<V>, base: Ctx<V>, t: Tree<V>)
    ensures Zip(m, root, w, Append(c, base), t) <==> Zip(m, root, w, base, Plug(c, t))
    decreases c
  {
    hide Zip;
    if c.Under? {
      ZipUp(m, root, w, Append(c, base), t);
      AppendZip(m, root, w, c.up, base, Join(c.side, t, c.item, c.other));
    }
  }

  // Colours are all that matters about the item of a frame.
  lemma {:induction false} SwapItem<V>(c: Ctx<V>, s: Side, x: Item<V>, y: Item<V>, o: Tree<V>, up: Ctx<V>, h: nat,
                                       red: bool)
    requires x.color == y.color
    ensures CtxSound(Append(c, Under(s, x, o, up)), h, red) <==> CtxSound(Append(c, Under(s, y, o, up)), h, red)
    ensures TopBlack(Append(c, Under(s, x, o, up))) <==> TopBlack(Append(c, Under(s, y, o, up)))
    decreases c
  {
    if c.Under? {
      SwapItem(c.up, s, x, y, o, up, h + Step(c.item), c.item.color == Red);
    }
  }

  // A node with one child gives way to that child.
  lemma OneChild<V>(c: Ctx<V>, s: Side, z: Item<V>, t: Tree<V>)
    requires RedBlack(Plug(c, Join(s, Leaf, z, t)))
    ensures z.color == Black ==> DeleteOk(c, t)
    ensures z.color == Red ==> RedBlack(Plug(c, t))
  {
    var u := Join(s, Leaf, z, t);
    PlugSound(c, u);
    PlugTop(c, u);
    assert Sound(t) && BlackHeight(u) == BlackHeight(t) + Step(z);
    PlugSound(c, t);
    PlugTop(c, t);
    Weaken(c, BlackHeight(t));
    Weaken(c, BlackHeight(t) + 1);
  }

  // A node with two children gives way to its successor, which takes its colour.
  lemma TwoChildren<V>(c: Ctx<V>, l: Tree<V>, z: Item<V>, spine: Ctx<V>, y: Item<V>, t: Tree<V>)
    requires RedBlack(Plug(c, Node(l, z, Plug(spine, Node(Leaf, y, t)))))
    ensures var c' := Append(spine, Under(Right, y.(color := z.color), l, c));
            (y.color == Black ==> DeleteOk(c', t)) && (y.color == Red ==> RedBlack(Plug(c', t)))
  {
    var below := Under(Right, z, l, c);
    var full := Append(spine, below);
    var full' := Append(spine, Under(Right, y.(color := z.color), l, c));
    PlugAppend(spine, below, Node(Leaf, y, t));
    assert Plug(full, Node(Leaf, y, t)) == Plug(c, Node(l, z, Plug(spine, Node(Leaf, y, t))));
    assert Join(Left, Leaf, y, t) == Node(Leaf, y, t);
    OneChild(full, Left, y, t);
    PlugSound(full, t);
    PlugTop(full, t);
    SwapItem(spine, Right, z, y.(color := z.color), l, c, BlackHeight(t) + 1, false);
    SwapItem(spine, Right, z, y.(color := z.color), l, c, BlackHeight(t), IsRed(t));
    PlugSound(full', t);
    PlugTop(full', t);
    AppendUnder(spine, Right, z, l, c);
    AppendUnder(spine, Right, y.(color := z.color), l, c);
    hide Plug, Sound, CtxSound, TopBlack, Append;
  }

  lemma AppendUnder<V>(c: Ctx<V>, s: Side, it: Item<V>, o: Tree<V>, up: Ctx<V>)
    ensures Append(c, Under(s, it, o, up)).Under?
  {
  }
}
