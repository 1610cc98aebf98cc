// Sorted sequences of entries as finite maps.
module SortedEntries {
  import opened RbShapes

  ghost predicate Sorted<V>(s: seq<Entry<V>>) {
    forall i, j :: 0 <= i < j < |s| ==> s[i].key < s[j].key
  }

  ghost predicate Below<V>(s: seq<Entry<V>>, key: int) {
    forall i :: 0 <= i < |s| ==> s[i].key < key
  }

  ghost predicate Above<V>(s: seq<Entry<V>>, key: int) {
    forall i :: 0 <= i < |s| ==> key < s[i].key
  }

  function AsMap<V>(s: seq<Entry<V>>): map<int, V> {
    if s == [] then map[] else AsMap(s[..|s| - 1])[s[|s| - 1].key := s[|s| - 1].value]
  }

  lemma {:induction false} MapHolds<V>(s: seq<Entry<V>>)
    requires Sorted(s)
    ensures forall i :: 0 <= i < |s| ==> s[i].key in AsMap(s) && AsMap(s)[s[i].key] == s[i].value
    ensures forall k :: k in AsMap(s) ==> exists i :: 0 <= i < |s| && s[i].key == k
  {
    if s != [] {
      var init := s[..|s| - 1];
      MapHolds(init);
      forall k | k in AsMap(s) ensures exists i :: 0 <= i < |s| && s[i].key == k {
        if k in AsMap(init) {
          var i :| 0 <= i < |init| && init[i].key == k;
          assert s[i].key == k;
        } else {
          assert s[|s| - 1].key == k;
        }
      }
    }
  }

  // The keys of a sorted sequence determine the map, and the other way round.
  lemma {:induction false} MapInjective<V>(s: seq<Entry<V>>, t: seq<Entry<V>>)
    requires Sorted(s) && Sorted(t) && AsMap(s) == AsMap(t)
    ensures s == t
  {
    EmptyTogether(s, t);
    EmptyTogether(t, s);
    hide Sorted, AsMap;
    if s != [] {
      LastIsLargest(s, t);
      LastIsLargest(t, s);
      InitMap(s);
      InitMap(t);
      MapInjective(s[..|s| - 1], t[..|t| - 1]);
      assert s == s[..|s| - 1] + [s[|s| - 1]] && t == t[..|t| - 1] + [t[|t| - 1]];
    }
  }

  lemma EmptyTogether<V>(s: seq<Entry<V>>, t: seq<Entry<V>>)
    requires Sorted(s) && AsMap(s) == AsMap(t)
    ensures t == [] ==> s == []
  {
    MapHolds(s);
    assert s != [] ==> s[0].key in AsMap(t);
  }

  lemma LastIsLargest<V>(s: seq<Entry<V>>, t: seq<Entry<V>>)
    requires Sorted(s) && Sorted(t) && AsMap(s) == AsMap(t) && s != [] && t != []
    ensures s[|s| - 1].key <= t[|t| - 1].key
  {
    MapHolds(s);
    MapHolds(t);
    var k := s[|s| - 1].key;
    assert k in AsMap(t);
    var i :| 0 <= i < |t| && t[i].key == k;
  }

  lemma InitMap<V>(s: seq<Entry<V>>)
    requires Sorted(s) && s != []
    ensures Sorted(s[..|s| - 1]) && AsMap(s[..|s| - 1]) == AsMap(s) - {s[|s| - 1].key}
            && AsMap(s)[s[|s| - 1].key] == s[|s| - 1].value
  {
    Absent(s[..|s| - 1], s[|s| - 1].key);
  }

  lemma {:induction false} MapAppend<V>(lo: seq<Entry<V>>, hi: seq<Entry<V>>)
    ensures AsMap(lo + hi) == AsMap(lo) + AsMap(hi)
  {
    if hi == [] {
      assert lo + hi == lo;
    } else {
      assert (lo + hi)[..|lo + hi| - 1] == lo + hi[..|hi| - 1];
      MapAppend(lo, hi[..|hi| - 1]);
    }
  }

  lemma Absent<V>(s: seq<Entry<V>>, key: int)
    requires Sorted(s) && forall i :: 0 <= i < |s| ==> s[i].key != key
    ensures key !in AsMap(s)
  {
    MapHolds(s);
  }

  // Adding one entry in its place, or taking it away again.
  lemma MapPut<V>(lo: seq<Entry<V>>, e: Entry<V>, hi: seq<Entry<V>>)
    requires Sorted(lo + hi) && Below(lo, e.key) && Above(hi, e.key)
    ensures Sorted(lo + [e] + hi) && AsMap(lo + [e] + hi) == AsMap(lo + hi)[e.key := e.value]
    ensures e.key !in AsMap(lo + hi)
  {
    PutSorted(lo, e, hi);
    hide Sorted, AsMap;
    Absent(hi, e.key);
    Absent(lo, e.key);
    MapAppend(lo, hi);
    MapAppend(lo + [e], hi);
    MapAppend(lo, [e]);
    SingleMap(e);
  }

  lemma SingleMap<V>(e: Entry<V>)
    ensures AsMap([e]) == map[e.key := e.value]
  {
  }

  lemma PutSorted<V>(lo: seq<Entry<V>>, e: Entry<V>, hi: seq<Entry<V>>)
    requires Sorted(lo + hi) && Below(lo, e.key) && Above(hi, e.key)
    ensures Sorted(lo) && Sorted(hi) && Sorted(lo + [e] + hi)
  {
    assert forall i :: 0 <= i < |lo| ==> (lo + hi)[i] == lo[i];
    assert forall i :: 0 <= i < |hi| ==> (lo + hi)[|lo| + i] == hi[i];
  }

  lemma SortedParts<V>(lo: seq<Entry<V>>, e: Entry<V>, hi: seq<Entry<V>>)
    requires Sorted(lo + [e] + hi)
    ensures Sorted(lo + hi) && Below(lo, e.key) && Above(hi, e.key)
  {
    var s := lo + [e] + hi;
    assert s[|lo|] == e;
    assert forall i :: 0 <= i < |lo| ==> s[i] == lo[i] == (lo + hi)[i];
    assert forall i :: 0 <= i < |hi| ==> s[|lo| + 1 + i] == hi[i] == (lo + hi)[|lo| + i];
  }

  // Taking an entry out of a sorted sequence takes its key out of the map.
  lemma MapDrop<V>(lo: seq<Entry<V>>, e: Entry<V>, hi: seq<Entry<V>>)
    requires Sorted(lo + [e] + hi)
    ensures Sorted(lo + hi) && AsMap(lo + hi) == AsMap(lo + [e] + hi) - {e.key}
    ensures e.key in AsMap(lo + [e] + hi) && AsMap(lo + [e] + hi)[e.key] == e.value
  {
    SortedParts(lo, e, hi);
    MapPut(lo, e, hi);
  }

  lemma MapReplace<V>(lo: seq<Entry<V>>, e: Entry<V>, f: Entry<V>, hi: seq<Entry<V>>)
    requires Sorted(lo + [e] + hi) && e.key == f.key
    ensures Sorted(lo + [f] + hi) && AsMap(lo + [f] + hi) == AsMap(lo + [e] + hi)[f.key := f.value]
    ensures e.key in AsMap(lo + [e] + hi) && AsMap(lo + [e] + hi)[e.key] == e.value
  {
    SortedParts(lo, e, hi);
    MapPut(lo, e, hi);
    MapPut(lo, f, hi);
  }
}
