// The doubly linked list of chunks of a page, in an index pool.
module ChunkList {
  import opened Common
  import opened PageTiling

  // prev and next are None where the source holds its invalid index.
  datatype Chunk = Chunk(start: nat, prev: Option<nat>, next: Option<nat>, size: nat, used: bool) {
    function AsBlock(): Block {
      Block(start, size, used)
    }
  }

  type Chunks = map<nat, Chunk>

  function Neighbour(order: seq<nat>, i: int): Option<nat> {
    if 0 <= i < |order| then Some(order[i]) else None
  }

  ghost predicate LinkedAt(m: Chunks, order: seq<nat>, i: int)
    requires 0 <= i < |order|
  {
    order[i] in m && m[order[i]].prev == Neighbour(order, i - 1) && m[order[i]].next == Neighbour(order, i + 1)
  }

  ghost predicate Covers(m: Chunks, order: seq<nat>) {
    forall c :: c in m ==> c in order
  }

  ghost predicate Links(m: Chunks, order: seq<nat>) {
    forall i :: 0 <= i < |order| ==> LinkedAt(m, order, i)
  }

  ghost predicate Within(m: Chunks, order: seq<nat>) {
    forall i :: 0 <= i < |order| ==> order[i] in m
  }

  // The pool is one list that runs through `order`.
  ghost predicate Chain(m: Chunks, order: seq<nat>) {
    Distinct(order) && Covers(m, order) && Within(m, order) && Links(m, order)
  }

  ghost function View(m: Chunks, order: seq<nat>): (bs: seq<Block>)
    requires Within(m, order)
    ensures |bs| == |order| && forall i {:trigger bs[i]} :: 0 <= i < |bs| ==> bs[i] == m[order[i]].AsBlock()
  {
    seq(|order|, i requires 0 <= i < |order| => m[order[i]].AsBlock())
  }

  // The chunks handed out, by index.
  ghost function Live(m: Chunks): map<nat, Block> {
    map c | c in m && m[c].used :: m[c].AsBlock()
  }

  // ---- adding a chunk at the end

  ghost predicate AppendsTo(m: Chunks, n: Chunks, last: Option<nat>, added: nat, start: nat, size: nat) {
    && added !in m && n.Keys == m.Keys + {added} && n[added] == Chunk(start, last, None, size, false)
    && (forall c :: c in m ==> n[c] == if last == Some(c) then m[c].(next := Some(added)) else m[c])
  }

  lemma AppendAt(m: Chunks, n: Chunks, order: seq<nat>, added: nat, start: nat, size: nat, k: nat)
    requires Chain(m, order) && AppendsTo(m, n, Neighbour(order, |order| - 1), added, start, size) && k <= |order|
    ensures LinkedAt(n, order + [added], k)
  {
    assert k < |order| ==> LinkedAt(m, order, k);
    assert k < |order| - 1 ==> order[k] != order[|order| - 1];
    hide Links, Covers, Distinct, Within;
  }

  lemma AppendChain(m: Chunks, n: Chunks, order: seq<nat>, added: nat, start: nat, size: nat)
    requires Chain(m, order) && AppendsTo(m, n, Neighbour(order, |order| - 1), added, start, size)
    ensures Chain(n, order + [added]) && View(n, order + [added]) == View(m, order) + [Block(start, size, false)]
    ensures Live(n) == Live(m)
  {
    var o := order + [added];
    forall k | 0 <= k < |o| ensures LinkedAt(n, o, k) {
      AppendAt(m, n, order, added, start, size, k);
    }
    AppendRest(m, n, order, added, start, size);
    hide LinkedAt, Distinct, Covers, Within, View, Live;
  }

  lemma AppendRest(m: Chunks, n: Chunks, order: seq<nat>, added: nat, start: nat, size: nat)
    requires Distinct(order) && Covers(m, order) && Within(m, order)
    requires AppendsTo(m, n, Neighbour(order, |order| - 1), added, start, size)
    ensures var o := order + [added]; Distinct(o) && Covers(n, o) && Within(n, o)
    ensures View(n, order + [added]) == View(m, order) + [Block(start, size, false)] && Live(n) == Live(m)
  {
    var o := order + [added];
    assert o[|order|] == added;
    assert forall k {:trigger o[k]} :: 0 <= k < |order| ==> o[k] == order[k] && n[o[k]].AsBlock() == m[o[k]].AsBlock();
  }

  // ---- cutting a chunk in two

  // `x` is cut at `at` blocks; the new chunk `added` takes the rest.
  ghost predicate SplitsTo(m: Chunks, n: Chunks, x: nat, added: nat, at: nat) {
    && x in m && added !in m && at <= m[x].size && n.Keys == m.Keys + {added}
    && n[added] == Chunk(m[x].start + at, Some(x), m[x].next, m[x].size - at, false)
    && n[x] == m[x].(size := at, next := Some(added))
    && (forall c :: c in m && c != x ==> n[c] == if m[x].next == Some(c) then m[c].(prev := Some(added)) else m[c])
  }

  function Inserted(order: seq<nat>, i: nat, added: nat): (o: seq<nat>)
    requires i < |order|
    ensures |o| == |order| + 1 && o[i + 1] == added
    ensures forall k {:trigger o[k]} :: 0 <= k <= i ==> o[k] == order[k]
    ensures forall k {:trigger o[k]} :: i + 2 <= k < |o| ==> o[k] == order[k - 1]
  {
    order[..i + 1] + [added] + order[i + 1..]
  }

  lemma InsertedMembers(order: seq<nat>, i: nat, added: nat)
    requires i < |order| && Distinct(order)
    ensures added !in order ==> Distinct(Inserted(order, i, added))
    ensures forall c :: c in order || c == added ==> c in Inserted(order, i, added)
  {
    forall c | c in order || c == added ensures c in Inserted(order, i, added) {
      if c == added {
        assert Inserted(order, i, added)[i + 1] == c;
      } else {
        var k :| 0 <= k < |order| && order[k] == c;
        assert Inserted(order, i, added)[if k <= i then k else k + 1] == c;
      }
    }
  }

  // The chunk at old place `k` after the split.
  lemma SplitAtOld(m: Chunks, n: Chunks, order: seq<nat>, i: nat, added: nat, at: nat, k: nat)
    requires Chain(m, order) && i < |order| && k < |order| && SplitsTo(m, n, order[i], added, at)
    ensures LinkedAt(n, Inserted(order, i, added), if k <= i then k else k + 1)
    ensures k != i ==> n[order[k]].AsBlock() == m[order[k]].AsBlock()
  {
    var o := Inserted(order, i, added);
    assert LinkedAt(m, order, k) && LinkedAt(m, order, i);
    assert order[k] == order[i] ==> k == i;
    assert i + 1 < |order| && order[k] == order[i + 1] ==> k == i + 1;
    assert k == 0 || k == i + 1 || k - 1 <= i || o[k] == order[k - 1];
    hide Covers, Links, Inserted, Distinct;
  }

  lemma SplitChain(m: Chunks, n: Chunks, order: seq<nat>, i: nat, added: nat, at: nat)
    requires Chain(m, order) && i < |order| && SplitsTo(m, n, order[i], added, at) && !m[order[i]].used
    ensures Chain(n, Inserted(order, i, added))
    ensures View(n, Inserted(order, i, added)) == Split(View(m, order), i, at)
    ensures Live(n) == Live(m)
  {
    var o := Inserted(order, i, added);
    InsertedMembers(order, i, added);
    SplitLinks(m, n, order, i, added, at);
    SplitCovers(m, n, order, i, added, at);
    SplitView(m, n, order, i, added, at);
    SplitLive(m, n, order[i], added, at);
    hide Links, Covers, Distinct, Within, Inserted, View, Live, Split;
  }

  lemma SplitLinks(m: Chunks, n: Chunks, order: seq<nat>, i: nat, added: nat, at: nat)
    requires Chain(m, order) && i < |order| && SplitsTo(m, n, order[i], added, at)
    ensures Links(n, Inserted(order, i, added))
  {
    var o := Inserted(order, i, added);
    assert LinkedAt(m, order, i);
    assert LinkedAt(n, o, i + 1) by { hide Links, Covers, Distinct, Within; }
    forall k | 0 <= k < |o| ensures LinkedAt(n, o, k) {
      if k != i + 1 { SplitAtOld(m, n, order, i, added, at, if k <= i then k else k - 1); }
    }
  }

  lemma SplitCovers(m: Chunks, n: Chunks, order: seq<nat>, i: nat, added: nat, at: nat)
    requires Chain(m, order) && i < |order| && SplitsTo(m, n, order[i], added, at)
    ensures Covers(n, Inserted(order, i, added)) && Within(n, Inserted(order, i, added))
  {
    InsertedMembers(order, i, added);
    hide Links, Distinct;
  }

  lemma SplitLive(m: Chunks, n: Chunks, x: nat, added: nat, at: nat)
    requires SplitsTo(m, n, x, added, at) && !m[x].used
    ensures Live(n) == Live(m)
  {
  }

  lemma SplitView(m: Chunks, n: Chunks, order: seq<nat>, i: nat, added: nat, at: nat)
    requires Distinct(order) && Within(m, order) && i < |order| && SplitsTo(m, n, order[i], added, at)
             && !m[order[i]].used
    requires Within(n, Inserted(order, i, added))
    ensures View(n, Inserted(order, i, added)) == Split(View(m, order), i, at)
  {
    var was := View(m, order);
    var bs, s := View(n, Inserted(order, i, added)), Split(was, i, at);
    SplitElements(was, i, at);
    assert forall k :: 0 <= k < |order| && k != i ==> order[k] != order[i];
    hide Split, View, Inserted, Distinct;
    forall k | 0 <= k < |bs| ensures bs[k] == s[k] {
    }
  }

  // ---- joining two chunks

  // `y`, the chunk after `x`, is absorbed by it.
  ghost predicate MergesTo(m: Chunks, n: Chunks, x: nat, y: nat) {
    && x in m && y in m && x != y && m[x].next == Some(y) && n.Keys == m.Keys - {y}
    && n[x] == m[x].(size := m[x].size + m[y].size, next := m[y].next)
    && (forall c :: c in m && c != x && c != y ==> n[c] == if m[y].next == Some(c) then m[c].(prev := Some(x))
        else m[c])
  }

  function Removed(order: seq<nat>, i: nat): (o: seq<nat>)
    requires i < |order|
    ensures |o| == |order| - 1
    ensures forall k {:trigger o[k]} :: 0 <= k < i ==> o[k] == order[k]
    ensures forall k {:trigger o[k]} :: i <= k < |o| ==> o[k] == order[k + 1]
  {
    order[..i] + order[i + 1..]
  }

  lemma RemovedMembers(order: seq<nat>, i: nat)
    requires i < |order| && Distinct(order)
    ensures Distinct(Removed(order, i))
    ensures forall c :: c in order && c != order[i] ==> c in Removed(order, i)
  {
    forall c | c in order && c != order[i] ensures c in Removed(order, i) {
      var k :| 0 <= k < |order| && order[k] == c;
      assert Removed(order, i)[if k < i then k else k - 1] == c;
    }
  }

  // The chunk at old place `k` after the merge.
  lemma MergeAtOld(m: Chunks, n: Chunks, order: seq<nat>, i: nat, k: nat)
    requires Chain(m, order) && i + 1 < |order| && k < |order| && k != i + 1 && MergesTo(m, n, order[i], order[i + 1])
    ensures LinkedAt(n, Removed(order, i + 1), if k <= i then k else k - 1)
    ensures k != i ==> n[order[k]].AsBlock() == m[order[k]].AsBlock()
  {
    assert LinkedAt(m, order, k) && LinkedAt(m, order, i) && LinkedAt(m, order, i + 1);
    assert order[k] == order[i] ==> k == i;
    assert order[k] != order[i + 1];
    assert i + 2 < |order| && order[k] == order[i + 2] ==> k == i + 2;
    hide Covers, Links, Removed, Distinct;
  }

  lemma MergeLive(m: Chunks, n: Chunks, x: nat, y: nat)
    requires MergesTo(m, n, x, y) && !m[x].used && !m[y].used
    ensures Live(n) == Live(m)
  {
  }

  lemma MergeChain(m: Chunks, n: Chunks, order: seq<nat>, i: nat)
    requires Chain(m, order) && i + 1 < |order| && MergesTo(m, n, order[i], order[i + 1])
    requires !m[order[i]].used && !m[order[i + 1]].used
    ensures Chain(n, Removed(order, i + 1))
    ensures View(n, Removed(order, i + 1)) == Merge(View(m, order), i)
    ensures Live(n) == Live(m)
  {
    RemovedMembers(order, i + 1);
    MergeLinks(m, n, order, i);
    MergeCovers(m, n, order, i);
    MergeView(m, n, order, i);
    MergeLive(m, n, order[i], order[i + 1]);
    hide Links, Covers, Distinct, Within, Removed, View, Live, Merge;
  }

  lemma MergeLinks(m: Chunks, n: Chunks, order: seq<nat>, i: nat)
    requires Chain(m, order) && i + 1 < |order| && MergesTo(m, n, order[i], order[i + 1])
    ensures Links(n, Removed(order, i + 1))
  {
    var o := Removed(order, i + 1);
    forall k | 0 <= k < |o| ensures LinkedAt(n, o, k) {
      MergeAtOld(m, n, order, i, if k <= i then k else k + 1);
    }
  }

  lemma MergeCovers(m: Chunks, n: Chunks, order: seq<nat>, i: nat)
    requires Chain(m, order) && i + 1 < |order| && MergesTo(m, n, order[i], order[i + 1])
    ensures Covers(n, Removed(order, i + 1)) && Within(n, Removed(order, i + 1))
  {
    RemovedMembers(order, i + 1);
    assert forall k :: 0 <= k < |order| && k != i + 1 ==> order[k] != order[i + 1];
    hide Links, Distinct;
  }

  lemma MergeView(m: Chunks, n: Chunks, order: seq<nat>, i: nat)
    requires Distinct(order) && Within(m, order) && i + 1 < |order| && MergesTo(m, n, order[i], order[i + 1])
    requires Within(n, Removed(order, i + 1))
    ensures View(n, Removed(order, i + 1)) == Merge(View(m, order), i)
  {
    var was := View(m, order);
    var bs, s := View(n, Removed(order, i + 1)), Merge(was, i);
    MergeElements(was, i);
    assert forall k :: 0 <= k < |order| && k != i ==> order[k] != order[i];
    assert forall k :: 0 <= k < |order| && k != i + 1 ==> order[k] != order[i + 1];
    hide Merge, View, Removed, Distinct;
    forall k | 0 <= k < |bs| ensures bs[k] == s[k] {
    }
  }

  // ---- taking and releasing a chunk

  lemma MarkChain(m: Chunks, order: seq<nat>, i: nat, used: bool)
    requires Chain(m, order) && i < |order| && order[i] in m
    ensures var n := m[order[i] := m[order[i]].(used := used)];
            && Chain(n, order) && View(n, order) == Mark(View(m, order), i, used)
            && Live(n) == if used then Live(m)[order[i] := m[order[i]].AsBlock().(used := true)]
               else Live(m) - {order[i]}
  {
    var n := m[order[i] := m[order[i]].(used := used)];
    forall k | 0 <= k < |order| ensures LinkedAt(n, order, k) {
      assert LinkedAt(m, order, k);
    }
    MarkView(m, n, order, i, used);
    MarkLive(m, order[i], used);
    hide LinkedAt, Distinct, View, Live, Mark;
  }

  lemma MarkView(m: Chunks, n: Chunks, order: seq<nat>, i: nat, used: bool)
    requires Distinct(order) && Within(m, order) && i < |order| && n == m[order[i] := m[order[i]].(used := used)]
    ensures View(n, order) == Mark(View(m, order), i, used)
  {
    var bs, s := View(n, order), Mark(View(m, order), i, used);
    assert forall k :: 0 <= k < |order| && k != i ==> order[k] != order[i];
    hide View, Distinct;
    forall k | 0 <= k < |bs| ensures bs[k] == s[k] {
    }
  }

  lemma MarkLive(m: Chunks, x: nat, used: bool)
    requires x in m
    ensures Live(m[x := m[x].(used := used)]) == if used then Live(m)[x := m[x].AsBlock().(used := true)]
            else Live(m) - {x}
  {
  }
}
