// Routes and longest-prefix match, the rule of section 5.2.4.3 of RFC 1812.
module MtrieRoutes {
  import opened Arithmetic
  import opened Common
  import opened MtrieLeaves
  import opened Mtries

  datatype Route = Route(key: nat, len: nat, value: nat)

  ghost predicate Routable(e: Route) {
    e.key <= U32_MAX && e.len <= 32 && e.value <= U32_MAX
  }

  predicate Matches(e: Route, addr: nat) {
    e.len <= 32 && Shares(e.key, e.len, addr)
  }

  // The longest matching prefix; among equally long ones the one given last.
  function Longest(routes: seq<Route>, addr: nat): Option<Route> {
    if routes == [] then None
    else
      var best, e := Longest(routes[..|routes| - 1], addr), routes[|routes| - 1];
      if Matches(e, addr) && (best.None? || best.value.len <= e.len) then Some(e) else best
  }

  // Nothing longer matches, nothing as long that is given later, and there is an answer whenever some route matches.
  lemma {:induction false} LongestIsLongest(routes: seq<Route>, addr: nat)
    ensures Longest(routes, addr).None? <==> forall i :: 0 <= i < |routes| ==> !Matches(routes[i], addr)
    ensures Longest(routes, addr).Some? ==>
              && var b := Longest(routes, addr).value;
              && b in routes && Matches(b, addr)
              && (forall i :: 0 <= i < |routes| && Matches(routes[i], addr) ==> routes[i].len <= b.len)
              && exists i :: 0 <= i < |routes| && LastOfLength(routes, i, addr, b)
  {
    hide Matches;
    if routes != [] {
      var init := routes[..|routes| - 1];
      LongestIsLongest(init, addr);
      assert forall i :: 0 <= i < |init| ==> routes[i] == init[i];
      assert routes[|routes| - 1] in routes;
      assert forall e :: e in init ==> e in routes;
      assert Longest(init, addr).Some? ==> Longest(init, addr).value in routes;
      var k := |routes| - 1;
      if Longest(routes, addr).Some? {
        var b := Longest(routes, addr).value;
        if Matches(routes[k], addr) && (Longest(init, addr).None? || Longest(init, addr).value.len <= routes[k].len) {
          assert LastOfLength(routes, k, addr, b);
        } else {
          var i :| 0 <= i < |init| && LastOfLength(init, i, addr, b);
          assert LastOfLength(routes, i, addr, b);
        }
      }
    }
  }

  // The route is given at i, and every later match is shorter.
  ghost predicate LastOfLength(routes: seq<Route>, i: nat, addr: nat, route: Route)
    requires i < |routes|
  {
    routes[i] == route && forall j :: i < j < |routes| && Matches(routes[j], addr) ==> routes[j].len < route.len
  }

  // sort_by_key on the prefix length, which is stable
  function InsertByLen(s: seq<Route>, e: Route): seq<Route> {
    if s == [] || s[|s| - 1].len <= e.len then s + [e]
    else InsertByLen(s[..|s| - 1], e) + [s[|s| - 1]]
  }

  function SortByLen(routes: seq<Route>): seq<Route> {
    if routes == [] then [] else InsertByLen(SortByLen(routes[..|routes| - 1]), routes[|routes| - 1])
  }

  ghost predicate ByLen(s: seq<Route>) {
    forall i, j :: 0 <= i < j < |s| ==> s[i].len <= s[j].len
  }

  ghost predicate AtMost(s: seq<Route>, len: nat) {
    forall i :: 0 <= i < |s| ==> s[i].len <= len
  }

  lemma {:induction false} InsertedAtMost(s: seq<Route>, e: Route, len: nat)
    requires AtMost(s, len) && e.len <= len
    ensures AtMost(InsertByLen(s, e), len)
  {
    if s != [] && s[|s| - 1].len > e.len { InsertedAtMost(s[..|s| - 1], e, len); }
  }

  lemma {:induction false} InsertedByLen(s: seq<Route>, e: Route)
    requires ByLen(s)
    ensures ByLen(InsertByLen(s, e))
  {
    if s != [] && s[|s| - 1].len > e.len {
      InsertedByLen(s[..|s| - 1], e);
      InsertedAtMost(s[..|s| - 1], e, s[|s| - 1].len);
    }
  }

  lemma {:induction false} InsertedSame(s: seq<Route>, e: Route)
    ensures multiset(InsertByLen(s, e)) == multiset(s) + multiset{e}
  {
    if s != [] && s[|s| - 1].len > e.len {
      InsertedSame(s[..|s| - 1], e);
      assert s == s[..|s| - 1] + [s[|s| - 1]];
    }
  }

  // Sorted by length, and the same routes.
  lemma {:induction false} SortedByLen(routes: seq<Route>)
    ensures ByLen(SortByLen(routes)) && multiset(SortByLen(routes)) == multiset(routes)
  {
    hide InsertByLen, ByLen;
    if routes == [] {
      NoneByLen();
    } else {
      var init, last := routes[..|routes| - 1], routes[|routes| - 1];
      SortedByLen(init);
      InsertedByLen(SortByLen(init), last);
      InsertedSame(SortByLen(init), last);
      assert routes == init + [last];
    }
  }

  lemma NoneByLen()
    ensures ByLen([])
  {
  }

  // The last match in the order of insertion.
  function Last(routes: seq<Route>, addr: nat): Option<Route> {
    if routes == [] then None
    else if Matches(routes[|routes| - 1], addr) then Some(routes[|routes| - 1])
    else Last(routes[..|routes| - 1], addr)
  }

  lemma {:induction false} LastInserted(s: seq<Route>, e: Route, addr: nat)
    requires ByLen(s)
    ensures var b := Last(s, addr);
            Last(InsertByLen(s, e), addr) == if Matches(e, addr) && (b.None? || b.value.len <= e.len) then Some(e)
                else b
  {
    hide Matches;
    if s == [] || s[|s| - 1].len <= e.len {
      LastLen(s, addr);
      assert (s + [e])[..|s|] == s;
    } else {
      var init := s[..|s| - 1];
      LastInserted(init, e, addr);
      assert InsertByLen(s, e)[..|InsertByLen(s, e)| - 1] == InsertByLen(init, e);
    }
  }

  lemma {:induction false} LastLen(s: seq<Route>, addr: nat)
    requires ByLen(s)
    ensures Last(s, addr).Some? ==> Last(s, addr).value.len <= s[|s| - 1].len
  {
    hide Matches;
    if s != [] { LastLen(s[..|s| - 1], addr); }
  }

  // In order of length, the last match is the longest.
  lemma {:induction false} LastOfSorted(routes: seq<Route>, addr: nat)
    ensures Last(SortByLen(routes), addr) == Longest(routes, addr)
  {
    hide Matches;
    if routes != [] {
      var init, last := routes[..|routes| - 1], routes[|routes| - 1];
      LastOfSorted(init, addr);
      SortedByLen(init);
      LastInserted(SortByLen(init), last, addr);
    }
  }

  class Mtrie {
    var root: Ply
    var plies: seq<Ply>
    ghost var owner: seq<Owner>

    ghost predicate Valid()
      reads this
    {
      Shape(root, plies, owner)
    }

    // empty
    constructor ()
      ensures Valid() && plies == []
      ensures forall addr :: 0 <= addr <= U32_MAX ==> Lookup(root, plies, addr) == None
    {
      root := seq(ROOT_LEN, x => MISS);
      plies, owner := [], [];
    }

    // lookup
    method Search(key: nat) returns (value: Option<nat>)
      requires Valid() && key <= U32_MAX
      ensures value == Lookup(root, plies, key)
    {
      StrideBounds(key);
      var leaf := root[RootStride(key)];
      if !IsTerminal(leaf) {
        var i := PlyIndex(leaf);
        if i.None? || i.value >= |plies| { return None; }
        leaf := plies[i.value][FirstStride(key)];
        if !IsTerminal(leaf) {
          var k := PlyIndex(leaf);
          if k.None? || k.value >= |plies| { return None; }
          leaf := plies[k.value][SecondStride(key)];
        }
      }
      value := AdjIndex(leaf);
    }

    method EnsureRootPly(slot: nat) returns (i: nat)
      requires Valid() && slot < ROOT_LEN && |plies| < HALF - 1
      modifies this
      ensures Valid() && SameLookups(old(root), old(plies), root, plies) && |plies| <= |old(plies)| + 1
      ensures PlyIndex(root[slot]) == Some(i) && i < |plies| && owner[i] == AtRoot(slot)
      ensures old(Attached(root, plies, owner)) ==> Attached(root, plies, owner)
      ensures old(AllAtRoot(owner)) ==> AllAtRoot(owner)
    {
      hide Attached, PlyIndex, NonTerminal, AdjIndex, IsTerminal, PlyOwns, Find;
      var leaf := root[slot];
      if PlyIndex(leaf).Some? {
        return PlyIndex(leaf).value;
      }
      RootPlyAdded(root, plies, owner, slot);
      if Attached(root, plies, owner) { RootPlyAttached(root, plies, owner, slot); }
      LeafKinds(leaf, 0, |plies|);
      i := |plies|;
      plies := plies + [Uniform(leaf)];
      root := Put(root, slot, NonTerminal(i));
      owner := owner + [AtRoot(slot)];
    }

    method EnsureChildPly(i: nat, slot: nat) returns (k: nat)
      requires Valid() && i < |plies| && owner[i].AtRoot? && slot < PLY_LEN && |plies| < HALF - 1
      modifies this
      ensures Valid() && SameLookups(old(root), old(plies), root, plies) && |plies| <= |old(plies)| + 1
              && root == old(root)
      ensures i < |plies| && PlyIndex(plies[i][slot]) == Some(k) && k < |plies| && owner[k] == Under(i, slot)
      ensures old(Attached(root, plies, owner)) ==> Attached(root, plies, owner)
    {
      hide Attached, PlyIndex, NonTerminal, AdjIndex, IsTerminal, Find;
      var leaf := plies[i][slot];
      assert PlyOwns(plies[i], i, owner);
      if PlyIndex(leaf).Some? {
        return PlyIndex(leaf).value;
      }
      ChildPlyAdded(root, plies, owner, i, slot);
      if Attached(root, plies, owner) { ChildPlyAttached(root, plies, owner, i, slot); }
      LeafKinds(leaf, 0, |plies|);
      k := |plies|;
      plies := plies + [Uniform(leaf)];
      plies := plies[i := Put(plies[i], slot, NonTerminal(k))];
      owner := owner + [Under(i, slot)];
      assert plies == old(plies)[i := Put(old(plies)[i], slot, NonTerminal(k))] + [Uniform(leaf)];
    }

    // insert
    method Insert(key: nat, len: nat, value: nat)
      requires Valid() && key <= U32_MAX && len <= 32 && value <= U32_MAX
      requires (len > 16 ==> |plies| < HALF - 1) && (len > 24 ==> |plies| < HALF - 2)
      modifies this
      ensures Valid()
      ensures forall addr :: 0 <= addr <= U32_MAX ==>
                Lookup(root, plies, addr) == if Shares(key, len, addr) then Some(value % HALF)
                    else Lookup(old(root), old(plies), addr)
      ensures old(Attached(root, plies, owner) && Level(owner, len)) ==>
                Attached(root, plies, owner) && Level(owner, len)
    {
      ghost var attached := Attached(root, plies, owner) && Level(owner, len);
      hide Attached, PlyIndex, NonTerminal, AdjIndex, IsTerminal, PlyOwns, Find, Shares, InSpan, Pow2, Terminal;
      hide Filled, RootStride, FirstStride, SecondStride;
      StrideBounds(key);
      Lengths();
      forall addr | 0 <= addr <= U32_MAX ensures RootStride(addr) < ROOT_LEN && FirstStride(addr) < PLY_LEN
          && SecondStride(addr) < PLY_LEN {
        StrideBounds(addr);
      }
      var terminal := Terminal(value);
      if len <= 16 {
        RootFilled(root, plies, owner, RootStride(key), Pow2(16 - len), value);
        forall addr | 0 <= addr <= U32_MAX ensures Shares(key, len, addr)
            <==> InSpan(RootStride(key), Pow2(16 - len), RootStride(addr)) {
          SharesRoot(key, len, addr);
        }
        root := FillStride(root, RootStride(key), len, 16, terminal);
        NoPliesAttached(root);
        return;
      }
      var first := EnsureRootPly(RootStride(key));
      if len <= 24 {
        FirstFilled(root, plies, owner, RootStride(key), FirstStride(key), Pow2(24 - len), value);
        forall addr | 0 <= addr <= U32_MAX
          ensures Shares(key, len, addr) <==>
                  && RootStride(key) == RootStride(addr)
                  && InSpan(FirstStride(key), Pow2(24 - len), FirstStride(addr))
        {
          SharesFirst(key, len, addr);
        }
        var ply := FillStride(plies[first], FirstStride(key), len - 16, 8, terminal);
        if attached { FilledAttached(root, plies, owner, first, ply); }
        plies := plies[first := ply];
        return;
      }
      var second := EnsureChildPly(first, FirstStride(key));
      SecondFilled(root, plies, owner, RootStride(key), first, FirstStride(key), second, SecondStride(key),
                   Pow2(32 - len), value);
      forall addr | 0 <= addr <= U32_MAX
        ensures Shares(key, len, addr) <==>
                RootStride(key) == RootStride(addr) && FirstStride(key) == FirstStride(addr)
                    && InSpan(SecondStride(key), Pow2(32 - len), SecondStride(addr))
      {
        SharesSecond(key, len, addr);
      }
      var ply := FillStride(plies[second], SecondStride(key), len - 24, 8, terminal);
      if attached { FilledAttached(root, plies, owner, second, ply); }
      plies := plies[second := ply];
    }

    lemma Lengths()
      ensures Pow2(16) == ROOT_LEN && Pow2(8) == PLY_LEN
    {
      Powers();
    }
  }

  // What a lookup returns for a route: the value without its top bit.
  function Stored(route: Option<Route>): Option<nat> {
    if route.None? then None else Some(route.value.value % HALF)
  }

  lemma {:induction false} SortedRoutable(routes: seq<Route>)
    requires forall i :: 0 <= i < |routes| ==> Routable(routes[i])
    ensures |SortByLen(routes)| == |routes| && forall i :: 0 <= i < |routes| ==> Routable(SortByLen(routes)[i])
  {
    var s := SortByLen(routes);
    SortedByLen(routes);
    assert |s| == |multiset(s)| == |multiset(routes)| == |routes|;
    forall i | 0 <= i < |s| ensures Routable(s[i]) {
      assert s[i] in multiset(s);
      assert s[i] in routes;
    }
  }

  lemma LastStep(s: seq<Route>, i: nat, addr: nat)
    requires i < |s| && s[i].len <= 32
    ensures Last(s[..i + 1], addr) == if Shares(s[i].key, s[i].len, addr) then Some(s[i]) else Last(s[..i], addr)
  {
    assert s[..i + 1][..i] == s[..i];
  }

  // from_entries: the trie answers every address with the longest matching prefix.
  method FromEntries(routes: seq<Route>) returns (trie: Mtrie)
    requires (forall i :: 0 <= i < |routes| ==> Routable(routes[i]))
    ensures fresh(trie) && trie.Valid() && |trie.plies| <= ROOT_LEN * (PLY_LEN + 1)
    ensures forall addr :: 0 <= addr <= U32_MAX ==> Lookup(trie.root, trie.plies, addr) == Stored(Longest(routes, addr))
  {
    hide RootOwns, PlyOwns, Sized, Lookup, Shares, Longest, SortByLen, Last;
    SortedRoutable(routes);
    SortedByLen(routes);
    var sorted := SortByLen(routes);
    trie := new Mtrie();
    assert forall addr :: Last(sorted[..0], addr) == None by { NoLast(sorted[..0]); }
    for i := 0 to |sorted|
      invariant fresh(trie) && trie.Valid() && Attached(trie.root, trie.plies, trie.owner)
      invariant i < |sorted| ==> Level(trie.owner, sorted[i].len)
      invariant forall addr :: 0 <= addr <= U32_MAX ==>
                  Lookup(trie.root, trie.plies, addr) == Stored(Last(sorted[..i], addr))
    {
      forall addr | 0 <= addr <= U32_MAX
        ensures Last(sorted[..i + 1], addr) == if Shares(sorted[i].key, sorted[i].len, addr) then Some(sorted[i])
                else Last(sorted[..i], addr)
      {
        LastStep(sorted, i, addr);
      }
      PlyBound(trie.root, trie.plies, trie.owner);
      trie.Insert(sorted[i].key, sorted[i].len, sorted[i].value);
    }
    PlyBound(trie.root, trie.plies, trie.owner);
    assert sorted[..|sorted|] == sorted;
    forall addr | 0 <= addr <= U32_MAX ensures Last(sorted, addr) == Longest(routes, addr) {
      LastOfSorted(routes, addr);
    }
  }

  lemma NoLast(s: seq<Route>)
    ensures s == [] ==> forall addr :: Last(s, addr) == None
  {
  }

  lemma NoPliesAttached(root: Ply)
    ensures Attached(root, [], [])
  {
  }
}
