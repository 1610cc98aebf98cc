// topological_order: names, constraints, and the run over ready registrations.
module TopologicalOrder {
  import opened Common
  import opened InitOrder

  // ---- names

  ghost predicate Names(items: seq<Item>, byName: map<string, nat>) {
    && (forall i :: 0 <= i < |items| ==> items[i].name in byName && byName[items[i].name] == i)
    && (forall name :: name in byName ==> byName[name] < |items| && items[byName[name]].name == name)
  }

  // The first name that was registered before.
  ghost predicate FirstDuplicate(items: seq<Item>, name: string) {
    exists j :: 0 <= j < |items| && items[j].name == name && Known(items[..j], name) && UniqueNames(items[..j])
  }

  method IndexNames(items: seq<Item>) returns (r: Result<map<string, nat>, InitError>)
    ensures r.Ok? ==> UniqueNames(items) && Names(items, r.value)
    ensures r.Err? ==> r.error.DuplicateName? && !UniqueNames(items) && FirstDuplicate(items, r.error.name)
  {
    var byName: map<string, nat> := map[];
    for index := 0 to |items|
      invariant UniqueNames(items[..index]) && Names(items[..index], byName)
    {
      var name := items[index].name;
      if name in byName {
        assert items[..index][byName[name]].name == name;
        assert Known(items[..index], name);
        return Err(DuplicateName(name));
      }
      byName := byName[name := index];
      assert items[..index + 1] == items[..index] + [items[index]];
    }
    assert items[..|items|] == items;
    r := Ok(byName);
  }

  // ---- constraints

  type Constraints = set<(nat, nat)>

  ghost function Preds(c: Constraints, s: nat): set<nat> {
    set e | e in c && e.1 == s :: e.0
  }

  ghost predicate ListOk(c: Constraints, p: nat, list: seq<nat>) {
    Distinct(list) && forall s :: s in list <==> (p, s) in c
  }

  // The successor lists and predecessor counts of a set of constraints.
  ghost predicate GraphOk(n: nat, c: Constraints, successors: seq<seq<nat>>, count: seq<nat>) {
    && |successors| == |count| == n
    && (forall e :: e in c ==> e.0 < n && e.1 < n)
    && (forall p :: 0 <= p < n ==> ListOk(c, p, successors[p]))
    && (forall s :: 0 <= s < n ==> count[s] == |Preds(c, s)|)
  }

  lemma PredsMore(c: Constraints, p: nat, s: nat, t: nat)
    requires (p, s) !in c
    ensures Preds(c + {(p, s)}, t) == if t == s then Preds(c, t) + {p} else Preds(c, t)
    ensures p !in Preds(c, s)
  {
    assert (p, s) in c + {(p, s)};
    forall q | q in Preds(c, t) + (if t == s then {p} else {}) ensures q in Preds(c + {(p, s)}, t) {
      if q in Preds(c, t) { assert (q, t) in c; }
    }
  }

  lemma ListMore(c: Constraints, p: nat, s: nat, q: nat, list: seq<nat>)
    requires (p, s) !in c && ListOk(c, q, list)
    ensures ListOk(c + {(p, s)}, q, if q == p then list + [s] else list)
  {
  }

  method AddConstraint(n: nat, p: nat, s: nat, ghost c: Constraints, successors: seq<seq<nat>>, count: seq<nat>)
    returns (successors': seq<seq<nat>>, count': seq<nat>)
    requires GraphOk(n, c, successors, count) && p < n && s < n && (p, s) !in c
    ensures GraphOk(n, c + {(p, s)}, successors', count')
  {
    hide ListOk, Preds;
    successors' := successors[p := successors[p] + [s]];
    count' := count[s := count[s] + 1];
    ghost var more := c + {(p, s)};
    forall q | 0 <= q < n ensures ListOk(more, q, successors'[q]) {
      ListMore(c, p, s, q, successors[q]);
    }
    forall t | 0 <= t < n ensures count'[t] == |Preds(more, t)| {
      PredsMore(c, p, s, t);
    }
  }

  // The constraints asked for by the items before `k`, and by item `k` through the first `a` and `b` of its names.
  ghost predicate Asked(items: seq<Item>, k: nat, a: nat, b: nat, p: nat, s: nat)
    requires k < |items| ==> a <= |items[k].runsAfter| && b <= |items[k].runsBefore|
  {
    && p < |items| && s < |items|
    && (|| (s < k && items[p].name in items[s].runsAfter)
        || (p < k && items[s].name in items[p].runsBefore)
        || (s == k && items[p].name in items[k].runsAfter[..a])
        || (p == k && items[s].name in items[k].runsBefore[..b]))
  }

  ghost predicate Collected(items: seq<Item>, k: nat, a: nat, b: nat, c: Constraints)
    requires k < |items| ==> a <= |items[k].runsAfter| && b <= |items[k].runsBefore|
  {
    forall p: nat, s: nat :: (p, s) in c <==> Asked(items, k, a, b, p, s)
  }

  // One more name of item `k`.
  lemma AskedAfter(items: seq<Item>, byName: map<string, nat>, k: nat, a: nat, c: Constraints)
    requires Names(items, byName) && k < |items| && a < |items[k].runsAfter| && items[k].runsAfter[a] in byName
    requires Collected(items, k, a, 0, c)
    ensures Collected(items, k, a + 1, 0, c + {(byName[items[k].runsAfter[a]], k)})
  {
    var dep, q := items[k].runsAfter[a], byName[items[k].runsAfter[a]];
    assert items[k].runsAfter[..a + 1] == items[k].runsAfter[..a] + [dep];
    forall p: nat, s: nat ensures (p, s) in c + {(q, k)} <==> Asked(items, k, a + 1, 0, p, s) {
      assert p < |items| && items[p].name == dep ==> p == q;
    }
  }

  lemma AskedBefore(items: seq<Item>, byName: map<string, nat>, k: nat, b: nat, c: Constraints)
    requires Names(items, byName) && k < |items| && b < |items[k].runsBefore| && items[k].runsBefore[b] in byName
    requires Collected(items, k, |items[k].runsAfter|, b, c)
    ensures Collected(items, k, |items[k].runsAfter|, b + 1, c + {(k, byName[items[k].runsBefore[b]])})
  {
    var dep, q := items[k].runsBefore[b], byName[items[k].runsBefore[b]];
    assert items[k].runsBefore[..b + 1] == items[k].runsBefore[..b] + [dep];
    forall p: nat, s: nat ensures (p, s) in c + {(k, q)} <==> Asked(items, k, |items[k].runsAfter|, b + 1, p, s) {
      assert s < |items| && items[s].name == dep ==> s == q;
    }
  }

  // The names of an item in the order they are looked at.
  ghost function Asks(item: Item): seq<string> {
    item.runsAfter + item.runsBefore
  }

  // The first name of item `k` that no registration has.
  ghost predicate UnresolvedAt(items: seq<Item>, k: nat, j: nat, dep: string) {
    && k < |items| && j < |Asks(items[k])| && Asks(items[k])[j] == dep && !Known(items, dep)
    && forall i :: 0 <= i < j ==> Known(items, Asks(items[k])[i])
  }

  // The first such name of the first item that has one.
  ghost predicate FirstUnresolved(items: seq<Item>, name: string, dep: string) {
    exists k: nat, j: nat :: UnresolvedAt(items, k, j, dep) && items[k].name == name
                             && forall i :: 0 <= i < k ==> Resolved(items, items[i])
  }

  lemma KnownByName(items: seq<Item>, byName: map<string, nat>, name: string)
    requires Names(items, byName)
    ensures Known(items, name) <==> name in byName
  {
    if name in byName { assert items[byName[name]].name == name; }
  }

  lemma NextItem(items: seq<Item>, k: nat, c: Constraints)
    requires k < |items| && Collected(items, k, |items[k].runsAfter|, |items[k].runsBefore|, c)
    ensures k + 1 < |items| ==> Collected(items, k + 1, 0, 0, c)
    ensures k + 1 == |items| ==> forall p: nat, s: nat :: (p, s) in c <==> Edge(items, p, s)
  {
    assert items[k].runsAfter[..|items[k].runsAfter|] == items[k].runsAfter;
    assert items[k].runsBefore[..|items[k].runsBefore|] == items[k].runsBefore;
  }

  // Where the constraints of one item end.
  datatype Graph = Graph(successors: seq<seq<nat>>, count: seq<nat>, constraints: Constraints)

  ghost predicate GraphHolds(items: seq<Item>, g: Graph) {
    GraphOk(|items|, g.constraints, g.successors, g.count)
  }

  method Insert(items: seq<Item>, g: Graph, p: nat, s: nat) returns (g': Graph)
    requires GraphHolds(items, g) && p < |items| && s < |items|
    ensures GraphHolds(items, g') && g'.constraints == g.constraints + {(p, s)}
  {
    hide GraphOk;
    if (p, s) in g.constraints { return g; }
    var successors, count := AddConstraint(|items|, p, s, g.constraints, g.successors, g.count);
    g' := Graph(successors, count, g.constraints + {(p, s)});
  }

  method CollectItem(items: seq<Item>, byName: map<string, nat>, k: nat, g: Graph) returns (r: Result<Graph, InitError>)
    requires Names(items, byName) && k < |items| && GraphHolds(items, g) && Collected(items, k, 0, 0, g.constraints)
    ensures r.Ok? ==>
              && GraphHolds(items, r.value) && Resolved(items, items[k])
              && Collected(items, k, |items[k].runsAfter|, |items[k].runsBefore|, r.value.constraints)
    ensures r.Err? ==>
              && r.error.UnresolvedDependency? && r.error.name == items[k].name
              && exists j: nat :: UnresolvedAt(items, k, j, r.error.dep)
  {
    hide GraphHolds, Collected, Known;
    var g' := g;
    for a := 0 to |items[k].runsAfter|
      invariant GraphHolds(items, g') && Collected(items, k, a, 0, g'.constraints)
      invariant forall i :: 0 <= i < a ==> Known(items, items[k].runsAfter[i])
    {
      var dep := items[k].runsAfter[a];
      KnownByName(items, byName, dep);
      if dep !in byName {
        assert UnresolvedAt(items, k, a, dep);
        return Err(UnresolvedDependency(items[k].name, dep));
      }
      AskedAfter(items, byName, k, a, g'.constraints);
      g' := Insert(items, g', byName[dep], k);
    }
    for b := 0 to |items[k].runsBefore|
      invariant GraphHolds(items, g') && Collected(items, k, |items[k].runsAfter|, b, g'.constraints)
      invariant forall i :: 0 <= i < b ==> Known(items, items[k].runsBefore[i])
    {
      var dep := items[k].runsBefore[b];
      KnownByName(items, byName, dep);
      if dep !in byName {
        assert UnresolvedAt(items, k, |items[k].runsAfter| + b, dep);
        return Err(UnresolvedDependency(items[k].name, dep));
      }
      AskedBefore(items, byName, k, b, g'.constraints);
      g' := Insert(items, g', k, byName[dep]);
    }
    r := Ok(g');
  }

  // Every constraint, with successor lists and predecessor counts.
  method Collect(items: seq<Item>, byName: map<string, nat>) returns (r: Result<Graph, InitError>)
    requires Names(items, byName)
    ensures r.Ok? ==>
              && GraphHolds(items, r.value) && AllResolved(items)
              && forall p: nat, s: nat :: (p, s) in r.value.constraints <==> Edge(items, p, s)
    ensures r.Err? ==>
              && r.error.UnresolvedDependency? && !AllResolved(items)
                 && FirstUnresolved(items, r.error.name, r.error.dep)
  {
    var g := Graph(seq(|items|, _ => []), seq(|items|, _ => 0), {});
    EmptyGraph(items, g);
    hide GraphHolds, Collected, Edge, Resolved;
    for k := 0 to |items|
      invariant GraphHolds(items, g) && (k < |items| ==> Collected(items, k, 0, 0, g.constraints))
      invariant k == |items| ==> forall p: nat, s: nat :: (p, s) in g.constraints <==> Edge(items, p, s)
      invariant forall i :: 0 <= i < k ==> Resolved(items, items[i])
    {
      var next := CollectItem(items, byName, k, g);
      if next.Err? {
        ghost var j: nat :| UnresolvedAt(items, k, j, next.error.dep);
        NotResolved(items, k, j, next.error.dep);
        return Err(next.error);
      }
      g := next.value;
      NextItem(items, k, g.constraints);
    }
    r := Ok(g);
  }

  lemma NotResolved(items: seq<Item>, k: nat, j: nat, dep: string)
    requires UnresolvedAt(items, k, j, dep)
    ensures !Resolved(items, items[k])
  {
  }

  lemma EmptyGraph(items: seq<Item>, g: Graph)
    requires g == Graph(seq(|items|, _ => []), seq(|items|, _ => 0), {})
    ensures GraphHolds(items, g) && (|items| > 0 ==> Collected(items, 0, 0, 0, g.constraints))
    ensures |items| == 0 ==> forall p: nat, s: nat :: (p, s) in g.constraints <==> Edge(items, p, s)
  {
    forall s | 0 <= s < |items| ensures g.count[s] == |Preds(g.constraints, s)| {
      assert Preds(g.constraints, s) == {};
    }
  }

  // ---- the run

  // pop on a heap of reversed indices
  method PopSmallest(ready: set<nat>) returns (x: nat, rest: set<nat>)
    requires ready != {}
    ensures x in ready && rest == ready - {x} && forall y :: y in ready ==> x <= y
  {
    SmallestExists(ready);
    x :| x in ready && forall y :: y in ready ==> x <= y;
    rest := ready - {x};
  }

  // `list` holds the successors whose counts are still to be lowered for the last registration placed.
  ghost predicate Counted(n: nat, c: Constraints, done: set<nat>, count: seq<nat>, list: seq<nat>) {
    && |count| == n && Distinct(list)
    && forall s :: 0 <= s < n ==> count[s] == |Preds(c, s) - done| + if s in list then 1 else 0
  }

  ghost predicate HeapOk(n: nat, done: set<nat>, count: seq<nat>, ready: set<nat>) {
    |count| == n && forall s :: s in ready <==> 0 <= s < n && s !in done && count[s] == 0
  }

  // The predecessors of every placed registration are placed.
  ghost predicate Closed(c: Constraints, done: set<nat>) {
    forall s :: s in done ==> Preds(c, s) <= done
  }

  lemma PlaceNext(n: nat, c: Constraints, done: set<nat>, count: seq<nat>, index: nat, list: seq<nat>)
    requires Counted(n, c, done, count, []) && Closed(c, done) && index < n && index !in done && count[index] == 0
             && ListOk(c, index, list)
    ensures Counted(n, c, done + {index}, count, list) && Closed(c, done + {index})
    ensures forall s :: s in list ==> s !in done + {index}
  {
    hide Preds;
    forall s | 0 <= s < n ensures count[s] == |Preds(c, s) - (done + {index})| + if s in list then 1 else 0 {
      OnePredLess(c, done, index, s);
    }
    assert Preds(c, index) - done == {};
    forall s | s in list ensures s !in done + {index} {
      PredOf(c, index, s);
    }
  }

  lemma PredOf(c: Constraints, p: nat, s: nat)
    ensures (p, s) in c <==> p in Preds(c, s)
  {
    if (p, s) in c { assert (p, s).0 == p; }
  }

  lemma OnePredLess(c: Constraints, done: set<nat>, index: nat, s: nat)
    requires index !in done
    ensures |Preds(c, s) - done| == |Preds(c, s) - (done + {index})| + if (index, s) in c then 1 else 0
  {
    PredOf(c, index, s);
    var a, b := Preds(c, s) - done, Preds(c, s) - (done + {index});
    hide Preds;
    if (index, s) in c {
      assert a == b + {index};
    } else {
      assert a == b;
    }
  }

  // The inner loop: the counts of the successors go down, and those at zero become ready.
  method Release(n: nat, list: seq<nat>, count0: seq<nat>, ready0: set<nat>, ghost c: Constraints, ghost done: set<nat>)
    returns (count: seq<nat>, ready: set<nat>)
    requires Counted(n, c, done, count0, list) && HeapOk(n, done, count0, ready0)
    requires forall s :: s in list ==> 0 <= s < n && s !in done
    ensures Counted(n, c, done, count, []) && HeapOk(n, done, count, ready)
  {
    hide Preds, Counted, HeapOk;
    assert list[0..] == list;
    CountedSize(n, c, done, count0, list);
    count, ready := count0, ready0;
    for k := 0 to |list|
      invariant Counted(n, c, done, count, list[k..]) && HeapOk(n, done, count, ready) && |count| == n
    {
      var s := list[k];
      assert s in list[k..] && s in list;
      LessOne(n, c, done, count, list, k);
      HeapStep(n, done, count, ready, s);
      count := count[s := count[s] - 1];
      if count[s] == 0 {
        ready := ready + {s};
      }
    }
    assert list[|list|..] == [];
  }

  lemma CountedSize(n: nat, c: Constraints, done: set<nat>, count: seq<nat>, list: seq<nat>)
    requires Counted(n, c, done, count, list)
    ensures |count| == n && Distinct(list)
  {
  }

  lemma HeapStep(n: nat, done: set<nat>, count: seq<nat>, ready: set<nat>, s: nat)
    requires HeapOk(n, done, count, ready) && s < n && |count| == n && s !in done && count[s] > 0
    ensures HeapOk(n, done, count[s := count[s] - 1], if count[s] == 1 then ready + {s} else ready) && s !in ready
  {
  }

  lemma LessOne(n: nat, c: Constraints, done: set<nat>, count: seq<nat>, list: seq<nat>, k: nat)
    requires k < |list| && Counted(n, c, done, count, list[k..]) && list[k] < n && Distinct(list)
    ensures count[list[k]] > 0 && Counted(n, c, done, count[list[k] := count[list[k]] - 1], list[k + 1..])
  {
    hide Preds;
    var s := list[k];
    assert list[k..] == [s] + list[k + 1..];
    assert s !in list[k + 1..];
  }

  ghost predicate SameEdges(items: seq<Item>, c: Constraints) {
    forall p: nat, s: nat :: (p, s) in c <==> Edge(items, p, s)
  }

  ghost predicate RunOk(items: seq<Item>, c: Constraints, order: seq<nat>, count: seq<nat>, ready: set<nat>) {
    && Greedy(items, order) && Closed(c, Elements(order))
    && Counted(|items|, c, Elements(order), count, []) && HeapOk(|items|, Elements(order), count, ready)
  }

  // Zero open predecessors is the same as being ready.
  lemma ReadyIffZero(items: seq<Item>, c: Constraints, done: set<nat>, count: seq<nat>, s: nat)
    requires SameEdges(items, c) && Counted(|items|, c, done, count, []) && s < |items| && s !in done
    ensures count[s] == 0 <==> Ready(items, done, s)
  {
    hide Edge, Preds;
    forall p: nat ensures p in Preds(c, s) <==> Edge(items, p, s) { PredOf(c, p, s); }
    assert count[s] == |Preds(c, s) - done|;
    assert count[s] == 0 <==> Preds(c, s) - done == {};
    assert Preds(c, s) - done == {} <==> forall p :: p in Preds(c, s) ==> p in done by {
      assert forall p :: p in Preds(c, s) && p !in done ==> p in Preds(c, s) - done;
    }
  }

  lemma GreedyMore(items: seq<Item>, order: seq<nat>, index: nat)
    requires Greedy(items, order) && Ready(items, Elements(order), index)
    requires forall s :: Ready(items, Elements(order), s) ==> index <= s
    ensures Greedy(items, order + [index]) && Elements(order + [index]) == Elements(order) + {index}
  {
    hide Ready;
    var more := order + [index];
    forall i | 0 <= i < |more|
      ensures Ready(items, Elements(more[..i]), more[i]) && forall s :: Ready(items, Elements(more[..i]), s) ==>
                more[i] <= s
    {
      if i < |order| { assert more[..i] == order[..i]; } else { assert more[..i] == order; }
    }
  }

  lemma GreedyBounded(items: seq<Item>, order: seq<nat>)
    requires Greedy(items, order)
    ensures |order| <= |items|
  {
    GreedyDistinct(items, order);
    DistinctSize(order);
    assert Elements(order) <= UpTo(|items|);
    SubsetSize(Elements(order), UpTo(|items|));
  }

  // The pass that places one ready registration.
  method PlaceOne(items: seq<Item>, g: Graph, order0: seq<nat>, count0: seq<nat>, ready0: set<nat>)
    returns (order: seq<nat>, count: seq<nat>, ready: set<nat>)
    requires GraphHolds(items, g) && SameEdges(items, g.constraints)
             && RunOk(items, g.constraints, order0, count0, ready0)
    requires ready0 != {}
    ensures RunOk(items, g.constraints, order, count, ready) && |order| == |order0| + 1
  {
    hide Edge, Ready, Greedy, Preds, ListOk;
    var index, rest := PopSmallest(ready0);
    ghost var done := Elements(order0);
    forall s | 0 <= s < |items| && s !in done ensures count0[s] == 0 <==> Ready(items, done, s) {
      ReadyIffZero(items, g.constraints, done, count0, s);
    }
    forall s | Ready(items, done, s) ensures index <= s { InRange(items, done, s); }
    GreedyMore(items, order0, index);
    PlaceNext(|items|, g.constraints, done, count0, index, g.successors[index]);
    order := order0 + [index];
    forall s | s in g.successors[index] ensures 0 <= s < |items| { SuccessorInRange(items, g, index, s); }
    count, ready := Release(|items|, g.successors[index], count0, rest, g.constraints, done + {index});
  }

  lemma InRange(items: seq<Item>, done: set<nat>, s: nat)
    requires Ready(items, done, s)
    ensures s < |items| && s !in done
  {
  }

  lemma SuccessorInRange(items: seq<Item>, g: Graph, p: nat, s: nat)
    requires GraphHolds(items, g) && p < |items| && s in g.successors[p]
    ensures s < |items|
  {
    assert ListOk(g.constraints, p, g.successors[p]);
    assert (p, s) in g.constraints;
  }

  // The registrations left over wait for each other.
  lemma LeftOver(items: seq<Item>, c: Constraints, order: seq<nat>, count: seq<nat>)
    requires SameEdges(items, c) && RunOk(items, c, order, count, {}) && |order| != |items|
    ensures Blocked(items, UpTo(|items|) - Elements(order))
    ensures forall s :: 0 <= s < |items| ==> (count[s] != 0 <==> s !in Elements(order))
  {
    hide Greedy, Edge, Preds, Closed, Counted, HeapOk, Waits;
    var done, b := Elements(order), UpTo(|items|) - Elements(order);
    SomeLeft(items, order);
    CountedSize(|items|, c, done, count, []);
    forall s | s in b ensures Waits(items, b, s) {
      StillWaits(items, c, done, count, s);
    }
    forall s | 0 <= s < |items| ensures count[s] != 0 <==> s !in done {
      if s in done { NothingOpen(|items|, c, done, count, s); } else { StillWaits(items, c, done, count, s); }
    }
  }

  lemma SomeLeft(items: seq<Item>, order: seq<nat>)
    requires Greedy(items, order) && |order| != |items|
    ensures UpTo(|items|) - Elements(order) != {}
  {
    GreedyDistinct(items, order);
    DistinctSize(order);
    var all, placed := UpTo(|items|), Elements(order);
    assert |all| != |placed|;
    assert placed <= all;
  }

  lemma StillWaits(items: seq<Item>, c: Constraints, done: set<nat>, count: seq<nat>, s: nat)
    requires SameEdges(items, c) && Counted(|items|, c, done, count, []) && HeapOk(|items|, done, count, {})
    requires s < |items| && s !in done
    ensures count[s] != 0 && Waits(items, UpTo(|items|) - done, s)
  {
    hide Edge, Preds;
    assert count[s] == |Preds(c, s) - done|;
    var p :| p in Preds(c, s) - done;
    PredOf(c, p, s);
    EdgeRange(items, p, s);
  }

  lemma NothingOpen(n: nat, c: Constraints, done: set<nat>, count: seq<nat>, s: nat)
    requires Counted(n, c, done, count, []) && Closed(c, done) && s < n && s in done
    ensures count[s] == 0
  {
    hide Preds;
    assert Preds(c, s) - done == {};
  }

  lemma EdgeRange(items: seq<Item>, p: nat, s: nat)
    requires Edge(items, p, s)
    ensures p < |items| && s < |items|
  {
  }

  ghost predicate InBlocked(items: seq<Item>, s: nat) {
    exists b :: s in b && Blocked(items, b)
  }

  // The smallest registration that belongs to any set of registrations waiting for each other.
  ghost predicate FirstBlocked(items: seq<Item>, name: string) {
    exists k :: 0 <= k < |items| && items[k].name == name && InBlocked(items, k) && forall s ::
        InBlocked(items, s) ==> k <= s
  }

  // A placed registration waits for nothing that is not placed.
  lemma {:induction false} PlacedUnblocked(items: seq<Item>, order: seq<nat>, b: set<nat>, j: nat)
    requires Greedy(items, order) && Blocked(items, b) && j < |order|
    ensures order[j] !in b
    decreases j
  {
    hide Greedy, Edge;
    if order[j] in b {
      assert Waits(items, b, order[j]);
      var p :| p in b && Edge(items, p, order[j]);
      var i := GreedyRespects(items, order, p, j);
      PlacedUnblocked(items, order, b, i);
    }
  }

  lemma BlockedLeft(items: seq<Item>, order: seq<nat>, s: nat)
    requires Greedy(items, order) && InBlocked(items, s)
    ensures s < |items| && s !in Elements(order)
  {
    hide Greedy;
    var b :| s in b && Blocked(items, b);
    assert Waits(items, b, s);
    forall j | 0 <= j < |order| ensures order[j] != s {
      PlacedUnblocked(items, order, b, j);
    }
  }

  // Why there is no order.
  ghost predicate Fails(items: seq<Item>, error: InitError) {
    match error
    case DuplicateName(name) => FirstDuplicate(items, name)
    case UnresolvedDependency(name, dep) => UniqueNames(items) && FirstUnresolved(items, name, dep)
    case Cycle(name) => UniqueNames(items) && AllResolved(items) && FirstBlocked(items, name)
  }

  method TopologicalOrder(items: seq<Item>) returns (r: Result<seq<nat>, InitError>)
    ensures r.Ok? <==> UniqueNames(items) && AllResolved(items) && Acyclic(items)
    ensures r.Ok? <==> UniqueNames(items) && AllResolved(items) && exists order :: Orderly(items, order)
    ensures r.Ok? ==> Orderly(items, r.value) && Greedy(items, r.value)
    ensures r.Err? ==> Fails(items, r.error)
  {
    hide UniqueNames, AllResolved, Acyclic, GraphHolds, SameEdges, Greedy, RunOk, FirstDuplicate, FirstUnresolved;
    hide Names, Blocked, FirstBlocked, Orderly;
    forall order | Orderly(items, order) ensures Acyclic(items) {
      OrderlyAcyclic(items, order);
    }
    var byName := IndexNames(items);
    if byName.Err? { return Err(byName.error); }
    var graph := Collect(items, byName.value);
    if graph.Err? { return Err(graph.error); }
    var g := graph.value;
    Starts(items, g);
    var count := g.count;
    var ready := Zeros(count);
    var order: seq<nat> := [];
    GreedyBounds(items, g.constraints, order, count, ready);
    while ready != {}
      invariant RunOk(items, g.constraints, order, count, ready) && |order| <= |items| && |count| == |items|
      decreases |items| - |order|
    {
      order, count, ready := PlaceOne(items, g, order, count, ready);
      GreedyBounds(items, g.constraints, order, count, ready);
    }
    if |order| != |items| {
      var blocked := FirstOpen(items, g.constraints, order, count);
      return Err(Cycle(items[blocked].name));
    }
    Finished(items, g.constraints, order, count, ready);
    r := Ok(order);
  }

  lemma Starts(items: seq<Item>, g: Graph)
    requires GraphHolds(items, g) && forall p: nat, s: nat :: (p, s) in g.constraints <==> Edge(items, p, s)
    ensures SameEdges(items, g.constraints) && RunOk(items, g.constraints, [], g.count, Zeros(g.count))
  {
    assert Elements<nat>([]) == {};
    forall s | 0 <= s < |items| ensures g.count[s] == |Preds(g.constraints, s) - {}| {
      assert Preds(g.constraints, s) - {} == Preds(g.constraints, s);
    }
  }

  function Zeros(count: seq<nat>): (z: set<nat>)
    ensures forall s :: s in z <==> 0 <= s < |count| && count[s] == 0
  {
    set s | s in UpTo(|count|) && count[s] == 0
  }

  lemma GreedyBounds(items: seq<Item>, c: Constraints, order: seq<nat>, count: seq<nat>, ready: set<nat>)
    requires RunOk(items, c, order, count, ready)
    ensures |order| <= |items| && |count| == |items|
  {
    GreedyBounded(items, order);
  }

  lemma Finished(items: seq<Item>, c: Constraints, order: seq<nat>, count: seq<nat>, ready: set<nat>)
    requires RunOk(items, c, order, count, ready) && |order| == |items|
    ensures Greedy(items, order) && Acyclic(items) && Orderly(items, order)
  {
    GreedyAcyclic(items, order);
    GreedyOrderly(items, order);
  }

  // The search for a blocked registration.
  method FirstOpen(items: seq<Item>, ghost c: Constraints, ghost order: seq<nat>, count: seq<nat>) returns (k: nat)
    requires SameEdges(items, c) && RunOk(items, c, order, count, {}) && |order| != |items| && |count| == |items|
    ensures k < |items| && FirstBlocked(items, items[k].name) && !Acyclic(items)
  {
    hide Greedy, Edge, SameEdges, Blocked, Counted, HeapOk, Closed;
    ghost var b := UpTo(|items|) - Elements(order);
    LeftOver(items, c, order, count);
    BlockedCycle(items, b);
    assert exists s :: s in b by { SomeBlocked(items, b); }
    k := 0;
    while count[k] == 0
      invariant k < |items| && forall s :: s in b ==> k <= s
      decreases |items| - k
    {
      ghost var s :| s in b;
      assert k != s;
      k := k + 1;
    }
    assert k in b;
    forall s | InBlocked(items, s) ensures k <= s {
      BlockedLeft(items, order, s);
      assert s in b;
    }
  }

  lemma SomeBlocked(items: seq<Item>, b: set<nat>)
    requires Blocked(items, b)
    ensures exists s :: s in b
  {
    var s :| s in b;
  }
}
