// The index-pool form of a red-black tree, and the zipper that reads it.
// Mirrored code of the source is written once, over a side.
module RbShapes {

  datatype Color = Red | Black

  datatype Side = Left | Right {
    function Other(): Side {
      if this == Left then Right else Left
    }
  }

  // A pool slot. Index 0 is the nil sentinel.
  datatype Cell<V> = Cell(color: Color, parent: nat, left: nat, right: nat, key: int, value: V) {
    function Child(s: Side): nat {
      if s == Left then left else right
    }

    function WithChild(s: Side, i: nat): Cell<V> {
      if s == Left then this.(left := i) else this.(right := i)
    }
  }

  datatype Entry<V> = Entry(key: int, value: V)

  datatype Item<V> = Item(index: nat, color: Color, key: int, value: V) {
    function AsEntry(): Entry<V> {
      Entry(key, value)
    }
  }

  datatype Tree<V> = Leaf | Node(left: Tree<V>, item: Item<V>, right: Tree<V>)

  // The way from a subtree up to the root: which side the hole is on, and the other subtree.
  datatype Ctx<V> = Top | Under(side: Side, item: Item<V>, other: Tree<V>, up: Ctx<V>)

  function Join<V>(s: Side, near: Tree<V>, it: Item<V>, far: Tree<V>): (t: Tree<V>)
    ensures t.Node? && t.item == it
  {
    if s == Left then Node(near, it, far) else Node(far, it, near)
  }

  lemma Flip<V>(s: Side, a: Tree<V>, it: Item<V>, b: Tree<V>)
    ensures Join(s, a, it, b) == Join(s.Other(), b, it, a)
  {
  }

  function Depth<V>(c: Ctx<V>): nat {
    if c.Top? then 0 else 1 + Depth(c.up)
  }

  function Root<V>(t: Tree<V>): nat {
    if t.Leaf? then 0 else t.item.index
  }

  function Parent<V>(c: Ctx<V>): nat {
    if c.Top? then 0 else c.item.index
  }

  function Ids<V>(t: Tree<V>): set<nat> {
    if t.Leaf? then {} else Ids(t.left) + {t.item.index} + Ids(t.right)
  }

  function CtxIds<V>(c: Ctx<V>): set<nat> {
    if c.Top? then {} else Ids(c.other) + {c.item.index} + CtxIds(c.up)
  }

  ghost predicate Apart<V>(t: Tree<V>) {
    t.Node? ==>
      && Apart(t.left) && Apart(t.right)
      && Ids(t.left) !! Ids(t.right) && t.item.index !in Ids(t.left) && t.item.index !in Ids(t.right)
  }

  ghost predicate CtxApart<V>(c: Ctx<V>) {
    c.Under? ==>
      && Apart(c.other) && CtxApart(c.up)
      && Ids(c.other) !! CtxIds(c.up) && c.item.index !in Ids(c.other) && c.item.index !in CtxIds(c.up)
  }

  // The entries in key order, and those to either side of a hole.
  function Entries<V>(t: Tree<V>): seq<Entry<V>> {
    if t.Leaf? then [] else Entries(t.left) + [t.item.AsEntry()] + Entries(t.right)
  }

  function Before<V>(c: Ctx<V>): seq<Entry<V>> {
    if c.Top? then [] else if c.side == Left then Before(c.up) else Before(c.up) + Entries(c.other) + [c.item.AsEntry()]
  }

  function After<V>(c: Ctx<V>): seq<Entry<V>> {
    if c.Top? then [] else if c.side == Left then [c.item.AsEntry()] + Entries(c.other) + After(c.up) else After(c.up)
  }

  function CellOf<V>(it: Item<V>, p: nat, s: Side, near: nat, far: nat): Cell<V> {
    if s == Left then Cell(it.color, p, near, far, it.key, it.value) else Cell(it.color, p, far, near, it.key, it.value)
  }

  lemma CellFacts<V>(it: Item<V>, p: nat, s: Side, near: nat, far: nat, i: nat)
    ensures CellOf(it, p, s, near, far).Child(s) == near && CellOf(it, p, s, near, far).Child(s.Other()) == far
    ensures CellOf(it, p, s, near, far).WithChild(s, i) == CellOf(it, p, s, i, far)
    ensures CellOf(it, p, s, near, far).WithChild(s.Other(), i) == CellOf(it, p, s, near, i)
    ensures CellOf(it, p, s, near, far).(parent := i) == CellOf(it, i, s, near, far)
    ensures CellOf(it, p, s, near, far).parent == p
    ensures CellOf(it, p, s, near, far) == CellOf(it, p, s.Other(), far, near)
  {
  }

  type Pool<V> = map<nat, Cell<V>>

  // The pool holds tree `t` below parent `p`. Nothing is said about the nil slot.
  ghost predicate Rep<V>(m: Pool<V>, t: Tree<V>, p: nat) {
    t.Node? ==>
      && t.item.index != 0 && t.item.index in m
      && m[t.item.index] == CellOf(t.item, p, Left, Root(t.left), Root(t.right))
      && Rep(m, t.left, t.item.index) && Rep(m, t.right, t.item.index)
  }

  ghost predicate RepCtx<V>(m: Pool<V>, c: Ctx<V>, hole: nat, root: nat) {
    if c.Top? then root == hole
    else
      && c.item.index != 0 && c.item.index in m
      && m[c.item.index] == CellOf(c.item, Parent(c.up), c.side, hole, Root(c.other))
      && Rep(m, c.other, c.item.index) && RepCtx(m, c.up, c.item.index, root)
  }

  // What every rearrangement of one tree keeps.
  datatype Whole<V> = Whole(ids: set<nat>, entries: seq<Entry<V>>)

  ghost predicate Placed<V>(m: Pool<V>, root: nat, c: Ctx<V>, t: Tree<V>) {
    Rep(m, t, Parent(c)) && RepCtx(m, c, Root(t), root)
  }

  ghost predicate Split<V>(ids: set<nat>, c: Ctx<V>, t: Tree<V>) {
    && Apart(t) && CtxApart(c) && Ids(t) !! CtxIds(c)
    && ids == Ids(t) + CtxIds(c) && 0 !in ids
  }

  ghost predicate NilOk<V>(m: Pool<V>) {
    0 in m && m[0].color == Black
  }

  // The pool holds a tree seen at one subtree `t`.
  ghost predicate Zip<V>(m: Pool<V>, root: nat, w: Whole<V>, c: Ctx<V>, t: Tree<V>) {
    && Placed(m, root, c, t) && Split(w.ids, c, t) && NilOk(m)
    && w.entries == Before(c) + Entries(t) + After(c)
  }

  // ---- frames

  lemma {:induction false} RepFrame<V>(m: Pool<V>, n: Pool<V>, t: Tree<V>, p: nat)
    requires Rep(m, t, p)
    requires forall i :: i in Ids(t) && i in m ==> i in n && n[i] == m[i]
    ensures Rep(n, t, p)
  {
    if t.Node? {
      RepFrame(m, n, t.left, t.item.index);
      RepFrame(m, n, t.right, t.item.index);
    }
  }

  lemma {:induction false} RepCtxFrame<V>(m: Pool<V>, n: Pool<V>, c: Ctx<V>, hole: nat, root: nat)
    requires RepCtx(m, c, hole, root)
    requires forall i :: i in CtxIds(c) && i in m ==> i in n && n[i] == m[i]
    ensures RepCtx(n, c, hole, root)
  {
    if c.Under? {
      RepFrame(m, n, c.other, c.item.index);
      RepCtxFrame(m, n, c.up, c.item.index, root);
    }
  }

  // A subtree moves below another parent by one write to its root.
  lemma Reparent<V>(m: Pool<V>, n: Pool<V>, t: Tree<V>, p: nat, q: nat)
    requires Rep(m, t, p) && Apart(t)
    requires t.Node? ==> t.item.index in m && t.item.index in n && n[t.item.index] == m[t.item.index].(parent := q)
    requires forall i :: i in Ids(t) && i != Root(t) && i in m ==> i in n && n[i] == m[i]
    ensures Rep(n, t, q)
  {
    if t.Node? {
      RepFrame(m, n, t.left, t.item.index);
      RepFrame(m, n, t.right, t.item.index);
    }
  }

  // The link that points at the hole now points at `hole`.
  ghost predicate Linked<V>(n: Pool<V>, root: nat, oldRoot: nat, c: Ctx<V>, hole: nat) {
    if c.Top? then root == hole
    else
      && root == oldRoot && c.item.index in n
      && n[c.item.index] == CellOf(c.item, Parent(c.up), c.side, hole, Root(c.other))
  }

  lemma Relinked<V>(m: Pool<V>, n: Pool<V>, c: Ctx<V>, was: nat, hole: nat, oldRoot: nat, root: nat)
    requires RepCtx(m, c, was, oldRoot) && CtxApart(c) && Linked(n, root, oldRoot, c, hole)
    requires forall i :: i in CtxIds(c) && i != Parent(c) && i in m ==> i in n && n[i] == m[i]
    ensures RepCtx(n, c, hole, root)
  {
    if c.Under? {
      RepFrame(m, n, c.other, c.item.index);
      RepCtxFrame(m, n, c.up, c.item.index, root);
    }
  }

  // ---- moving the focus

  lemma RepJoin<V>(m: Pool<V>, s: Side, a: Tree<V>, it: Item<V>, b: Tree<V>, p: nat)
    ensures Rep(m, Join(s, a, it, b), p) <==>
            && it.index != 0 && it.index in m && m[it.index] == CellOf(it, p, s, Root(a), Root(b))
            && Rep(m, a, it.index) && Rep(m, b, it.index)
  {
  }

  lemma ZipUp<V>(m: Pool<V>, root: nat, w: Whole<V>, c: Ctx<V>, t: Tree<V>)
    requires c.Under?
    ensures Zip(m, root, w, c, t) <==> Zip(m, root, w, c.up, Join(c.side, t, c.item, c.other))
  {
    RepJoin(m, c.side, t, c.item, c.other, Parent(c.up));
    SplitUp(w.ids, c, t);
    EntriesUp(c, t);
    hide Rep, RepCtx, Split, Before, After, Entries, NilOk;
    assert Placed(m, root, c, t)
           <==> Placed(m, root, c.up, Join(c.side, t, c.item, c.other)) by { PlacedUp(m, root, c, t); }
  }

  lemma PlacedUp<V>(m: Pool<V>, root: nat, c: Ctx<V>, t: Tree<V>)
    requires c.Under?
    ensures Placed(m, root, c, t) <==> Placed(m, root, c.up, Join(c.side, t, c.item, c.other))
  {
    RepJoin(m, c.side, t, c.item, c.other, Parent(c.up));
    hide Rep;
  }

  lemma SplitUp<V>(ids: set<nat>, c: Ctx<V>, t: Tree<V>)
    requires c.Under?
    ensures Split(ids, c, t) <==> Split(ids, c.up, Join(c.side, t, c.item, c.other))
  {
  }

  lemma EntriesUp<V>(c: Ctx<V>, t: Tree<V>)
    requires c.Under?
    ensures Before(c) + Entries(t) + After(c)
         == Before(c.up) + Entries(Join(c.side, t, c.item, c.other)) + After(c.up)
  {
  }

  // ---- reading the pool at the focus

  lemma {:induction false} RootAbove<V>(m: Pool<V>, c: Ctx<V>, hole: nat, root: nat)
    requires RepCtx(m, c, hole, root)
    ensures c.Under? ==> root in CtxIds(c) && root != 0
  {
    if c.Under? { RootAbove(m, c.up, c.item.index, root); }
  }

  lemma Peek<V>(m: Pool<V>, root: nat, w: Whole<V>, c: Ctx<V>, t: Tree<V>)
    requires Zip(m, root, w, c, t)
    ensures Root(t) in m && (t.Leaf? <==> Root(t) == 0)
    ensures t.Node? ==> m[Root(t)] == CellOf(t.item, Parent(c), Left, Root(t.left), Root(t.right))
    ensures t.Leaf? ==> m[Root(t)].color == Black
    ensures root == Root(t) <==> c.Top?
    ensures Parent(c) in m && (Parent(c) != 0 <==> c.Under?)
    ensures c.Under? ==>
              && m[Parent(c)] == CellOf(c.item, Parent(c.up), c.side, Root(t), Root(c.other))
              && (c.other.Node? ==> Root(c.other) != Root(t)) && (t.Node? ==> Root(c.other) != Root(t))
  {
    RootAbove(m, c, Root(t), root);
    RootIn(t);
    if c.Under? { RootIn(c.other); }
    hide Before, After, Entries;
  }

  // ---- rearrangements

  lemma JoinIds<V>(s: Side, a: Tree<V>, it: Item<V>, b: Tree<V>)
    ensures Ids(Join(s, a, it, b)) == Ids(a) + {it.index} + Ids(b)
    ensures Apart(Join(s, a, it, b)) <==>
            Apart(a) && Apart(b) && Ids(a) !! Ids(b) && it.index !in Ids(a) && it.index !in Ids(b)
  {
  }

  // The pieces of a two-node tree share no slot.
  ghost predicate Pieces<V>(ids: set<nat>, c: Ctx<V>, a: Tree<V>, x: nat, b: Tree<V>, y: nat, d: Tree<V>) {
    && Apart(a) && Apart(b) && Apart(d) && CtxApart(c) && x != y
    && Ids(a) !! Ids(b) && Ids(b) !! Ids(d) && Ids(a) !! Ids(d)
    && Ids(a) !! CtxIds(c) && Ids(b) !! CtxIds(c) && Ids(d) !! CtxIds(c)
    && x !in Ids(a) && x !in Ids(b) && x !in Ids(d) && x !in CtxIds(c)
    && y !in Ids(a) && y !in Ids(b) && y !in Ids(d) && y !in CtxIds(c)
    && ids == Ids(a) + Ids(b) + Ids(d) + CtxIds(c) + {x, y} && 0 !in ids
  }

  lemma SplitPieces<V>(ids: set<nat>, c: Ctx<V>, s: Side, a: Tree<V>, x: Item<V>, b: Tree<V>, y: Item<V>, d: Tree<V>)
    ensures Split(ids, c, Join(s, a, x, Join(s, b, y, d))) ==> Pieces(ids, c, a, x.index, b, y.index, d)
    ensures Pieces(ids, c, a, x.index, b, y.index, d) ==> Split(ids, c, Join(s, Join(s, a, x, b), y, d))
  {
    JoinIds(s, a, x, Join(s, b, y, d));
    JoinIds(s, b, y, d);
    JoinIds(s, Join(s, a, x, b), y, d);
    JoinIds(s, a, x, b);
    hide Ids, Apart, CtxIds, CtxApart, Join;
  }

  lemma RotatedEntries<V>(s: Side, a: Tree<V>, x: Item<V>, b: Tree<V>, y: Item<V>, d: Tree<V>)
    ensures Entries(Join(s, a, x, Join(s, b, y, d))) == Entries(Join(s, Join(s, a, x, b), y, d))
  {
  }

  lemma ParentIn<V>(c: Ctx<V>)
    ensures c.Under? ==> Parent(c) in CtxIds(c)
  {
  }

  lemma RootIn<V>(t: Tree<V>)
    ensures t.Node? ==> Root(t) in Ids(t)
  {
  }

  lemma LinkedFrame<V>(m: Pool<V>, n: Pool<V>, root: nat, oldRoot: nat, c: Ctx<V>, hole: nat)
    requires Linked(m, root, oldRoot, c, hole)
    requires Parent(c) in m && c.Under? ==> Parent(c) in n && n[Parent(c)] == m[Parent(c)]
    ensures Linked(n, root, oldRoot, c, hole)
  {
  }

  lemma RotationSpots<V>(ids: set<nat>, c: Ctx<V>, a: Tree<V>, x: nat, b: Tree<V>, y: nat, d: Tree<V>)
    requires Pieces(ids, c, a, x, b, y, d)
    ensures x != y && x != 0 && y != 0 && Root(b) != x && Root(b) != y
    ensures c.Under? ==> Parent(c) != x && Parent(c) != y && Parent(c) != Root(b) && Parent(c) != 0
    ensures forall i :: i in CtxIds(c) ==> i != x && i != y && i != Root(b) && i != 0
  {
    RootIn(b);
    ParentIn(c);
    hide Ids, CtxIds, Apart, CtxApart;
  }

  // One rotation: exactly these cells change.
  ghost predicate RotatesTo<V>(m: Pool<V>, n: Pool<V>, c: Ctx<V>, s: Side, a: Tree<V>, x: Item<V>, b: Tree<V>,
                               y: Item<V>, d: Tree<V>)
  {
    && n.Keys == m.Keys && x.index in n && y.index in n
    && n[x.index] == CellOf(x, y.index, s, Root(a), Root(b))
    && n[y.index] == CellOf(y, Parent(c), s, x.index, Root(d))
    && (b.Node? ==> b.item.index in m && b.item.index in n && n[b.item.index] == m[b.item.index].(parent := x.index))
    && (forall i :: i in m && i != x.index && i != y.index && i != Root(b) && i != Parent(c) && i != 0 ==> n[i] == m[i])
  }

  // The three stages of a rotation together: below, at the parent, and the new pair.
  lemma RotationStages<V>(m: Pool<V>, below: Pool<V>, linked: Pool<V>, n: Pool<V>, c: Ctx<V>,
                          s: Side, a: Tree<V>, x: Item<V>, b: Tree<V>, y: Item<V>, d: Tree<V>)
    requires m.Keys == below.Keys == linked.Keys && x.index in m && y.index in m && Root(b) in m
    requires forall i :: i in below && i != x.index && i != y.index && i != Root(b) ==> below[i] == m[i]
    requires forall i :: i in below && !(i == Parent(c) && c.Under?) ==> linked[i] == below[i]
    requires below[Root(b)] == m[Root(b)].(parent := x.index)
    requires n
             == linked[y.index := CellOf(y, Parent(c), s, x.index, Root(d))][x.index := CellOf(x, y.index, s, Root(a),
                                                                                               Root(b))]
    requires x.index != y.index && x.index != 0 && y.index != 0 && Root(b) != x.index && Root(b) != y.index
    requires c.Under? ==> Parent(c) != x.index && Parent(c) != y.index && Parent(c) != Root(b) && Parent(c) != 0
    requires NilOk(m)
    ensures RotatesTo(m, n, c, s, a, x, b, y, d) && NilOk(n)
  {
    hide CellOf;
  }

  lemma Rotated<V>(m: Pool<V>, n: Pool<V>, root: nat, newRoot: nat, w: Whole<V>, c: Ctx<V>,
                   s: Side, a: Tree<V>, x: Item<V>, b: Tree<V>, y: Item<V>, d: Tree<V>)
    requires Zip(m, root, w, c, Join(s, a, x, Join(s, b, y, d)))
    requires RotatesTo(m, n, c, s, a, x, b, y, d) && Linked(n, newRoot, root, c, y.index) && NilOk(n)
    ensures Zip(n, newRoot, w, c, Join(s, Join(s, a, x, b), y, d))
  {
    RepJoin(m, s, a, x, Join(s, b, y, d), Parent(c));
    RepJoin(m, s, b, y, d, x.index);
    SplitPieces(w.ids, c, s, a, x, b, y, d);
    RotatedEntries(s, a, x, b, y, d);
    RepJoin(n, s, Join(s, a, x, b), y, d, Parent(c));
    RepJoin(n, s, a, x, b, y.index);
    hide Rep, RepCtx, Split, Before, After, Entries, NilOk, Join, Ids, CtxIds, Apart, CtxApart, CellOf, Linked;
    RotatedParts(m, n, root, newRoot, w.ids, c, s, a, x, b, y, d);
  }

  lemma RotatedParts<V>(m: Pool<V>, n: Pool<V>, root: nat, newRoot: nat, ids: set<nat>, c: Ctx<V>,
                        s: Side, a: Tree<V>, x: Item<V>, b: Tree<V>, y: Item<V>, d: Tree<V>)
    requires Pieces(ids, c, a, x.index, b, y.index, d) && RotatesTo(m, n, c, s, a, x, b, y, d)
    requires Rep(m, a, x.index) && Rep(m, b, y.index) && Rep(m, d, y.index) && RepCtx(m, c, x.index, root)
    requires Linked(n, newRoot, root, c, y.index)
    ensures Rep(n, a, x.index) && Rep(n, b, x.index) && Rep(n, d, y.index) && RepCtx(n, c, y.index, newRoot)
  {
    ParentIn(c);
    RootIn(b);
    hide Rep, RepCtx, Ids, CtxIds, Apart, CtxApart, CellOf, Linked;
    RepFrame(m, n, a, x.index);
    Reparent(m, n, b, y.index, x.index);
    RepFrame(m, n, d, y.index);
    Relinked(m, n, c, x.index, y.index, root, newRoot);
  }

  // ---- colours

  function Painted<V>(t: Tree<V>, color: Color): Tree<V> {
    if t.Leaf? then t else t.(item := t.item.(color := color))
  }

  lemma PaintedZip<V>(m: Pool<V>, root: nat, w: Whole<V>, c: Ctx<V>, t: Tree<V>, color: Color)
    requires t.Node? && Zip(m, root, w, c, t) && t.item.index in m
    ensures Zip(m[t.item.index := m[t.item.index].(color := color)], root, w, c, Painted(t, color))
  {
    var n := m[t.item.index := m[t.item.index].(color := color)];
    assert Split(w.ids, c, t) ==> Apart(t) && t.item.index !in CtxIds(c) && t.item.index != 0;
    RepFrame(m, n, t.left, t.item.index);
    RepFrame(m, n, t.right, t.item.index);
    RepCtxFrame(m, n, c, t.item.index, root);
    PaintedEntries(t, color);
    hide RepCtx, CtxIds, Before, After, Entries;
  }

  lemma PaintedEntries<V>(t: Tree<V>, color: Color)
    ensures Entries(Painted(t, color)) == Entries(t) && Ids(Painted(t, color)) == Ids(t)
            && Root(Painted(t, color)) == Root(t)
    ensures Apart(Painted(t, color)) <==> Apart(t)
  {
  }
}
