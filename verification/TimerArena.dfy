// The circular doubly linked lists that the timer wheel keeps inside its entry vector:
// entries 0..n-1 are list heads, every later entry is a timer slot.
module TimerArena {
  import opened Common

  const INVALID_INDEX: nat := U32_MAX

  datatype Entry<+T> = Entry(
    next: nat,
    prev: nat,
    payload: Option<T>,
    live: bool,
    fastOffset: nat,
    slowOffset: nat,
    expiration: nat)

  function ListHead<T>(index: nat): Entry<T> {
    Entry(index, index, None, false, 0, 0, 0)
  }

  // The links lead from `from` through `list` to `to`, forwards and backwards.
  ghost predicate Path<T>(es: seq<Entry<T>>, from: nat, list: seq<nat>, to: nat)
    decreases list
  {
    && from < |es| && to < |es|
    && var first := First(to, list);
    && first < |es| && es[from].next == first && es[first].prev == from
    && (list != [] ==> Path(es, list[0], list[1..], to))
  }

  // All lists together, list i being circular through head i; `home` says which list a linked timer is in.
  ghost predicate Linked<T>(es: seq<Entry<T>>, n: nat, lists: seq<seq<nat>>, home: map<nat, nat>) {
    && Homed(|es|, n, lists, home)
    && (forall i :: 0 <= i < n ==> Path(es, i, lists[i], i))
  }

  ghost predicate Homed(size: nat, n: nat, lists: seq<seq<nat>>, home: map<nat, nat>) {
    && |lists| == n <= size
    && (forall i, e {:trigger e in lists[i]} :: 0 <= i < n && e in lists[i] ==>
        n <= e < size && e in home && home[e] == i)
    && (forall e :: e in home ==> home[e] < n && e in lists[home[e]])
    && (forall i :: 0 <= i < n ==> Distinct(lists[i]))
  }

  // The chain left behind by take_list: it leads back to `head` through `next`.
  ghost predicate Loose<T>(es: seq<Entry<T>>, head: nat, rest: seq<nat>) {
    rest != [] ==>
      && rest[0] < |es| && es[rest[0]].next == First(head, rest[1..])
      && rest[0] !in rest[1..]
      && Loose(es, head, rest[1..])
  }

  function First(head: nat, rest: seq<nat>): nat {
    if rest == [] then head else rest[0]
  }

  // The two arenas differ only in links.
  ghost predicate SameTimers<T>(a: seq<Entry<T>>, b: seq<Entry<T>>) {
    && |a| == |b|
    && forall e :: 0 <= e < |a| ==> a[e].(next := b[e].next, prev := b[e].prev) == b[e]
  }

  // add_to_list
  function Pushed<T>(es: seq<Entry<T>>, head: nat, e: nat): (r: seq<Entry<T>>)
    requires head < |es| && e < |es| && es[head].next < |es|
    ensures SameTimers(es, r)
  {
    var first := es[head].next;
    var a := es[e := es[e].(next := first, prev := head)];
    var b := a[first := a[first].(prev := e)];
    b[head := b[head].(next := e)]
  }

  // unlink
  function Unlinked<T>(es: seq<Entry<T>>, e: nat): (r: seq<Entry<T>>)
    requires e < |es| && es[e].next < |es| && es[e].prev < |es|
    ensures SameTimers(es, r)
  {
    var prev, next := es[e].prev, es[e].next;
    var a := es[prev := es[prev].(next := next)];
    var b := a[next := a[next].(prev := prev)];
    Detached(b, e)
  }

  // detach_entry
  function Detached<T>(es: seq<Entry<T>>, e: nat): (r: seq<Entry<T>>)
    requires e < |es|
    ensures SameTimers(es, r)
  {
    es[e := es[e].(next := INVALID_INDEX, prev := INVALID_INDEX)]
  }

  // take_list
  function Taken<T>(es: seq<Entry<T>>, head: nat): (r: seq<Entry<T>>)
    requires head < |es|
    ensures SameTimers(es, r)
  {
    es[head := es[head].(next := head, prev := head)]
  }

  lemma {:induction false} PathFrame<T>(es: seq<Entry<T>>, es': seq<Entry<T>>, from: nat, list: seq<nat>, to: nat)
    requires Path(es, from, list, to) && |es| <= |es'|
    requires es'[from].next == es[from].next && es'[to].prev == es[to].prev
    requires forall e :: e in list && e < |es| ==> es'[e].next == es[e].next && es'[e].prev == es[e].prev
    ensures Path(es', from, list, to)
    decreases list
  {
    if list != [] { PathFrame(es, es', list[0], list[1..], to); }
  }

  lemma {:induction false} LooseFrame<T>(es: seq<Entry<T>>, es': seq<Entry<T>>, head: nat, rest: seq<nat>)
    requires Loose(es, head, rest) && |es| <= |es'|
    requires forall e :: e in rest && e < |es| ==> es'[e].next == es[e].next
    ensures Loose(es', head, rest)
  {
    if rest != [] { LooseFrame(es, es', head, rest[1..]); }
  }

  lemma {:induction false} LooseOf<T>(es: seq<Entry<T>>, from: nat, list: seq<nat>, to: nat)
    requires Path(es, from, list, to) && Distinct(list)
    ensures Loose(es, to, list)
    decreases list
  {
    if list != [] { LooseOf(es, list[0], list[1..], to); }
  }

  // Linkedness looks only at the links of heads and of homed entries.
  lemma {:induction false} LinkedFrame<T>(es: seq<Entry<T>>, es': seq<Entry<T>>, n: nat, lists: seq<seq<nat>>,
                                          home: map<nat, nat>)
    requires Linked(es, n, lists, home) && |es| <= |es'|
    requires forall e :: 0 <= e < |es| && (e < n || e in home) ==>
               es'[e].next == es[e].next && es'[e].prev == es[e].prev
    ensures Linked(es', n, lists, home)
  {
    forall i | 0 <= i < n ensures Path(es', i, lists[i], i) {
      PathFrame(es, es', i, lists[i], i);
    }
  }

  lemma {:induction false} PushPath<T>(es: seq<Entry<T>>, head: nat, list: seq<nat>, e: nat)
    requires Path(es, head, list, head) && Distinct(list) && e < |es|
    requires e !in list && head !in list && e != head
    ensures es[head].next < |es| && (es[head].next == head || es[head].next in list)
    ensures Path(Pushed(es, head, e), head, [e] + list, head)
  {
    var r := Pushed(es, head, e);
    var l := [e] + list;
    assert l[1..] == list;
    if list != [] { PathFrame(es, r, list[0], list[1..], head); }
    assert Path(r, e, list, head);
  }

  lemma {:induction false} PushKeepsLinked<T>(es: seq<Entry<T>>, n: nat, lists: seq<seq<nat>>, home: map<nat, nat>,
                                              head: nat, e: nat)
    requires Linked(es, n, lists, home)
    requires head < n <= e < |es| && e !in home
    ensures |lists| == n && es[head].next < |es| && (es[head].next == head || es[head].next in home)
    ensures Linked(Pushed(es, head, e), n, lists[head := [e] + lists[head]], home[e := head])
  {
    hide Path;
    PushPath(es, head, lists[head], e);
    var r := Pushed(es, head, e);
    var lists' := lists[head := [e] + lists[head]];
    forall i | 0 <= i < n ensures Path(r, i, lists'[i], i) {
      if i != head { PathFrame(es, r, i, lists[i], i); }
    }
    assert e in lists'[head];
  }

  lemma {:induction false} Neighbours<T>(es: seq<Entry<T>>, from: nat, list: seq<nat>, to: nat, k: nat)
    requires Path(es, from, list, to) && k < |list|
    ensures list[k] < |es|
    ensures es[list[k]].prev == (if k == 0 then from else list[k - 1]) < |es|
    ensures es[list[k]].next == (if k + 1 == |list| then to else list[k + 1]) < |es|
    decreases list
  {
    if k == 0 {
      assert Path(es, list[0], list[1..], to);
    } else {
      Neighbours(es, list[0], list[1..], to, k - 1);
    }
  }

  lemma {:induction false} UnlinkFirst<T>(es: seq<Entry<T>>, from: nat, list: seq<nat>, to: nat)
    requires Path(es, from, list, to) && Distinct(list) && list != []
    requires from !in list && to !in list
    ensures list[0] < |es| && es[list[0]].next < |es| && es[list[0]].prev < |es|
    ensures Path(Unlinked(es, list[0]), from, list[1..], to)
  {
    Neighbours(es, from, list, to, 0);
    var r, rest := Unlinked(es, list[0]), list[1..];
    assert Path(es, list[0], rest, to);
    if rest != [] {
      assert Path(es, rest[0], rest[1..], to);
      PathFrame(es, r, rest[0], rest[1..], to);
    }
  }

  lemma {:induction false} UnlinkPath<T>(es: seq<Entry<T>>, from: nat, list: seq<nat>, to: nat, k: nat)
    requires Path(es, from, list, to) && Distinct(list) && k < |list|
    requires from !in list && to !in list
    ensures list[k] < |es| && es[list[k]].next < |es| && es[list[k]].prev < |es|
    ensures Path(Unlinked(es, list[k]), from, list[..k] + list[k + 1..], to)
    decreases list
  {
    Neighbours(es, from, list, to, k);
    var rest := list[1..];
    if k == 0 {
      UnlinkFirst(es, from, list, to);
      assert list[..0] + rest == rest;
    } else {
      UnlinkPath(es, list[0], rest, to, k - 1);
      var l := list[..k] + list[k + 1..];
      assert l[0] == list[0] && l[1..] == rest[..k - 1] + rest[k..];
      assert es[list[k]].prev == list[k - 1] != from;
    }
  }

  lemma {:induction false} UnlinkKeepsLinked<T>(es: seq<Entry<T>>, n: nat, lists: seq<seq<nat>>, home: map<nat, nat>,
                                                e: nat)
    returns (lists': seq<seq<nat>>)
    requires Linked(es, n, lists, home) && e in home
    ensures n <= e < |es| && es[e].next < |es| && es[e].prev < |es|
    ensures Linked(Unlinked(es, e), n, lists', home - {e})
  {
    hide Path, Distinct;
    var h := home[e];
    var l := lists[h];
    var k :| 0 <= k < |l| && l[k] == e;
    UnlinkPath(es, h, l, h, k);
    Neighbours(es, h, l, h, k);
    assert (es[e].prev == h || es[e].prev in l) && (es[e].next == h || es[e].next in l);
    lists' := lists[h := l[..k] + l[k + 1..]];
    HomedRemove(|es|, n, lists, home, h, k);
    var r := Unlinked(es, e);
    forall i | 0 <= i < n ensures Path(r, i, lists'[i], i) {
      if i != h { PathFrame(es, r, i, lists[i], i); }
    }
  }

  lemma {:induction false} HomedRemove(size: nat, n: nat, lists: seq<seq<nat>>, home: map<nat, nat>, h: nat, k: nat)
    requires Homed(size, n, lists, home) && h < n && k < |lists[h]|
    ensures Homed(size, n, lists[h := lists[h][..k] + lists[h][k + 1..]], home - {lists[h][k]})
  {
    var e, l' := lists[h][k], lists[h][..k] + lists[h][k + 1..];
    Removed(lists[h], k);
    assert e in lists[h] && home[e] == h;
    var lists' := lists[h := l'];
    forall i, x {:trigger x in lists'[i]} | 0 <= i < n && x in lists'[i]
      ensures n <= x < size && x in home - {e} && home[x] == i
    {
      assert x in lists[i];
    }
    forall x | x in home - {e} ensures x in lists'[home[x]] {
      assert x in lists[home[x]];
    }
  }

  lemma {:induction false} Removed(l: seq<nat>, k: nat)
    requires Distinct(l) && k < |l|
    ensures Distinct(l[..k] + l[k + 1..])
    ensures forall x :: x in l[..k] + l[k + 1..] <==> x in l && x != l[k]
  {
    assert l == l[..k] + [l[k]] + l[k + 1..];
  }

  lemma {:induction false} TakeKeepsLinked<T>(es: seq<Entry<T>>, n: nat, lists: seq<seq<nat>>, home: map<nat, nat>,
                                              head: nat)
    requires Linked(es, n, lists, home) && head < n
    ensures forall e :: e in lists[head] <==> e in home && home[e] == head
    ensures Linked(Taken(es, head), n, lists[head := []], map e | e in home && home[e] != head :: home[e])
    ensures Loose(Taken(es, head), head, lists[head])
    ensures es[head].next == First(head, lists[head])
  {
    var lists' := lists[head := []];
    var r := Taken(es, head);
    forall i | 0 <= i < n ensures Path(r, i, lists'[i], i) {
      if i != head { PathFrame(es, r, i, lists[i], i); }
    }
    LooseOf(es, head, lists[head], head);
    LooseFrame(es, r, head, lists[head]);
  }
}
