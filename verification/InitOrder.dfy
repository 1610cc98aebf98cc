// The order of lifecycle registrations: constraints by name, and the smallest ready registration first.
module InitOrder {
  import opened Common

  datatype Item = Item(name: string, runsBefore: seq<string>, runsAfter: seq<string>)

  datatype InitError =
    | DuplicateName(name: string)
    | UnresolvedDependency(name: string, dep: string)
    | Cycle(name: string)

  // ---- what the registrations ask for

  ghost predicate UniqueNames(items: seq<Item>) {
    forall i, j :: 0 <= i < j < |items| ==> items[i].name != items[j].name
  }

  ghost predicate Known(items: seq<Item>, name: string) {
    exists i :: 0 <= i < |items| && items[i].name == name
  }

  ghost predicate Resolved(items: seq<Item>, item: Item) {
    forall dep :: dep in item.runsAfter || dep in item.runsBefore ==> Known(items, dep)
  }

  ghost predicate AllResolved(items: seq<Item>) {
    forall i :: 0 <= i < |items| ==> Resolved(items, items[i])
  }

  // `p` has to run before `s`.
  predicate Edge(items: seq<Item>, p: nat, s: nat) {
    && p < |items| && s < |items|
    && (items[p].name in items[s].runsAfter || items[s].name in items[p].runsBefore)
  }

  ghost predicate IsCycle(items: seq<Item>, path: seq<nat>) {
    && |path| >= 2 && path[0] == path[|path| - 1]
    && forall i, j :: 0 <= i && j == i + 1 && j < |path| ==> Edge(items, path[i], path[j])
  }

  ghost predicate Acyclic(items: seq<Item>) {
    forall path :: !IsCycle(items, path)
  }

  ghost predicate Ready(items: seq<Item>, done: set<nat>, s: nat) {
    s < |items| && s !in done && forall p :: Edge(items, p, s) ==> p in done
  }

  // Each position holds the smallest registration that is ready there.
  ghost predicate Greedy(items: seq<Item>, order: seq<nat>) {
    forall i :: 0 <= i < |order| ==>
      && Ready(items, Elements(order[..i]), order[i])
      && forall s :: Ready(items, Elements(order[..i]), s) ==> order[i] <= s
  }

  // ---- what a greedy order gives

  // A complete greedy order is a permutation of the registrations.
  lemma GreedyDistinct(items: seq<Item>, order: seq<nat>)
    requires Greedy(items, order)
    ensures Distinct(order) && forall i :: 0 <= i < |order| ==> order[i] < |items|
  {
    forall i, j | 0 <= i < j < |order| ensures order[i] != order[j] {
      assert Ready(items, Elements(order[..j]), order[j]);
      assert order[..j][i] in order[..j];
    }
    forall i | 0 <= i < |order| ensures order[i] < |items| {
      assert Ready(items, Elements(order[..i]), order[i]);
    }
  }

  // Every constraint between placed registrations is respected.
  lemma GreedyRespects(items: seq<Item>, order: seq<nat>, p: nat, j: nat) returns (i: nat)
    requires Greedy(items, order) && j < |order| && Edge(items, p, order[j])
    ensures i < j && order[i] == p
  {
    assert Ready(items, Elements(order[..j]), order[j]);
    assert p in order[..j];
    i :| 0 <= i < j && order[i] == p;
  }

  lemma GreedyComplete(items: seq<Item>, order: seq<nat>)
    requires Greedy(items, order) && |order| == |items|
    ensures Elements(order) == UpTo(|items|)
  {
    GreedyDistinct(items, order);
    DistinctSize(order);
    var all := UpTo(|items|);
    assert Elements(order) <= all;
    SubsetEqual(Elements(order), all);
  }

  lemma SubsetEqual(a: set<nat>, b: set<nat>)
    requires a <= b && |a| == |b|
    ensures a == b
  {
    if x :| x in b && x !in a {
      SubsetSize(a, b - {x});
    }
  }

  // ---- what an order has to give the registrations

  // Everything is placed once, after what it asks to run after and before what it asks to run before.
  ghost predicate Orderly(items: seq<Item>, order: seq<nat>) {
    && |order| == |items| && Distinct(order) && Elements(order) == UpTo(|items|)
    && (forall a :: 0 <= a < |order| ==> order[a] < |items|)
    && forall a, b :: 0 <= a < |order| && 0 <= b < |order| ==>
         (items[order[a]].name in items[order[b]].runsAfter || items[order[b]].name in items[order[a]].runsBefore) ==>
           a < b
  }

  lemma GreedyOrderly(items: seq<Item>, order: seq<nat>)
    requires Greedy(items, order) && |order| == |items|
    ensures Orderly(items, order)
  {
    GreedyComplete(items, order);
    GreedyDistinct(items, order);
    forall a, b | 0 <= a < |order| && 0 <= b < |order| && Edge(items, order[a], order[b]) ensures a < b {
      var i := GreedyRespects(items, order, order[a], b);
    }
  }

  // The place of a path's node in the order.
  lemma Climb(items: seq<Item>, order: seq<nat>, path: seq<nat>, k: nat) returns (i: nat)
    requires Elements(order) == UpTo(|items|) && k < |path| && IsCycle(items, path)
    ensures i < |order| && order[i] == path[k]
  {
    assert k < |path| - 1 ==> Edge(items, path[k], path[k + 1]);
    assert k == |path| - 1 ==> Edge(items, path[k - 1], path[k]);
    assert path[k] in Elements(order);
    i :| 0 <= i < |order| && order[i] == path[k];
  }

  // Along a path the places grow.
  lemma {:induction false} AlongPath(items: seq<Item>, order: seq<nat>, path: seq<nat>, k: nat, i: nat) returns (j: nat)
    requires Orderly(items, order) && IsCycle(items, path) && k < |path| && i < |order| && order[i] == path[0]
    ensures j < |order| && order[j] == path[k] && (k > 0 ==> i < j) && (k == 0 ==> j == i)
    decreases k
  {
    if k == 0 {
      j := i;
    } else {
      var h := AlongPath(items, order, path, k - 1, i);
      j := Climb(items, order, path, k);
      assert Edge(items, path[k - 1], path[k]);
    }
  }

  // With a cycle there is no such order.
  lemma OrderlyAcyclic(items: seq<Item>, order: seq<nat>)
    requires Orderly(items, order)
    ensures Acyclic(items)
  {
    forall path | IsCycle(items, path) ensures false {
      var i := Climb(items, order, path, 0);
      var j := AlongPath(items, order, path, |path| - 1, i);
    }
  }

  // A complete greedy order leaves no room for a cycle.
  lemma GreedyAcyclic(items: seq<Item>, order: seq<nat>)
    requires Greedy(items, order) && |order| == |items|
    ensures Acyclic(items)
  {
    GreedyOrderly(items, order);
    OrderlyAcyclic(items, order);
  }

  // ---- a blocked set holds a cycle

  ghost predicate Waits(items: seq<Item>, b: set<nat>, s: nat) {
    exists p :: p in b && Edge(items, p, s)
  }

  ghost predicate Blocked(items: seq<Item>, b: set<nat>) {
    b != {} && forall s :: s in b ==> Waits(items, b, s)
  }

  lemma Before(items: seq<Item>, b: set<nat>, s: nat) returns (p: nat)
    requires Waits(items, b, s)
    ensures p in b && Edge(items, p, s)
  {
    p :| p in b && Edge(items, p, s);
  }

  ghost predicate Walk(items: seq<Item>, b: set<nat>, path: seq<nat>) {
    && (forall i :: 0 <= i < |path| ==> path[i] in b)
    && (forall i, j :: 0 <= i && j == i + 1 && j < |path| ==> Edge(items, path[i], path[j]))
  }

  // Going back from predecessor to predecessor.
  lemma {:induction false} LongWalk(items: seq<Item>, b: set<nat>, n: nat) returns (path: seq<nat>)
    requires Blocked(items, b)
    ensures |path| == n + 1 && Walk(items, b, path)
  {
    hide Edge, Waits;
    if n == 0 {
      var s :| s in b;
      path := [s];
    } else {
      var rest := LongWalk(items, b, n - 1);
      var p := Before(items, b, rest[0]);
      path := [p] + rest;
      assert forall i {:trigger path[i]} :: 1 <= i < |path| ==> path[i] == rest[i - 1];
    }
  }

  lemma Repeats(path: seq<nat>, b: set<nat>) returns (i: nat, j: nat)
    requires |path| > |b| && forall k :: 0 <= k < |path| ==> path[k] in b
    ensures i < j < |path| && path[i] == path[j]
  {
    if Distinct(path) {
      DistinctSize(path);
      assert Elements(path) <= b;
      SubsetSize(Elements(path), b);
      assert false;
    }
    i, j :| 0 <= i < j < |path| && path[i] == path[j];
  }

  lemma BlockedCycle(items: seq<Item>, b: set<nat>)
    requires Blocked(items, b)
    ensures !Acyclic(items)
  {
    hide Walk, Edge, Waits, IsCycle;
    var path := LongWalk(items, b, |b|);
    InSet(items, b, path);
    var i, j := Repeats(path, b);
    Segment(items, b, path, i, j);
  }

  lemma InSet(items: seq<Item>, b: set<nat>, path: seq<nat>)
    requires Walk(items, b, path)
    ensures forall k :: 0 <= k < |path| ==> path[k] in b
  {
    hide Edge;
  }

  lemma Segment(items: seq<Item>, b: set<nat>, path: seq<nat>, i: nat, j: nat)
    requires Walk(items, b, path) && i < j < |path| && path[i] == path[j]
    ensures IsCycle(items, path[i..j + 1])
  {
    hide Edge;
    var cycle := path[i..j + 1];
    assert forall k {:trigger cycle[k]} :: 0 <= k < |cycle| ==> cycle[k] == path[i + k];
  }
}
