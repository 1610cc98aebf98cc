// Free and live runs of an element space as a row of blocks, indexed by their offsets.
module HeapRuns {
  import opened Common
  import opened PageTiling

  // Offsets are 32-bit, so one subpage of this size holds every run.
  const SPACE: nat := U32_MAX + 1

  type Runs = map<nat, nat>

  // The lengths of the used, or of the free, blocks of a row by offset.
  function RunsOf(row: seq<Block>, used: bool): Runs {
    if row == [] then map[]
    else
      var m, b := RunsOf(row[..|row| - 1], used), row[|row| - 1];
      if b.used == used then m[b.start := b.size] else m
  }

  lemma {:induction false} RunsAppend(a: seq<Block>, b: seq<Block>, used: bool)
    ensures RunsOf(a + b, used) == RunsOf(a, used) + RunsOf(b, used)
  {
    if b == [] {
      assert a + b == a;
    } else {
      assert (a + b)[..|a + b| - 1] == a + b[..|b| - 1];
      RunsAppend(a, b[..|b| - 1], used);
    }
  }

  ghost predicate Avoids(row: seq<Block>, k: nat) {
    forall i :: 0 <= i < |row| ==> row[i].start != k
  }

  lemma {:induction false} RunsAvoid(row: seq<Block>, used: bool, k: nat)
    requires Avoids(row, k)
    ensures k !in RunsOf(row, used)
  {
    if row != [] { RunsAvoid(row[..|row| - 1], used, k); }
  }

  lemma {:induction false} RunsHave(row: seq<Block>, used: bool, k: nat) returns (i: nat)
    requires k in RunsOf(row, used)
    ensures i < |row| && row[i].used == used && row[i].start == k
  {
    if row[|row| - 1].used == used && row[|row| - 1].start == k {
      i := |row| - 1;
    } else {
      i := RunsHave(row[..|row| - 1], used, k);
    }
  }

  lemma RunsOne(b: Block, used: bool)
    ensures RunsOf([b], used) == if b.used == used then map[b.start := b.size] else map[]
  {
    assert [b][..0] == [];
  }

  // One block between others that do not start where it does.
  lemma RunsAround(lo: seq<Block>, b: Block, hi: seq<Block>, used: bool)
    requires Avoids(lo, b.start) && Avoids(hi, b.start)
    ensures var rest := RunsOf(lo, used) + RunsOf(hi, used);
            && b.start !in rest
            && RunsOf(lo + [b] + hi, used) == if b.used == used then rest[b.start := b.size] else rest
  {
    hide RunsOf;
    RunsAppend(lo + [b], hi, used);
    RunsAppend(lo, [b], used);
    RunsOne(b, used);
    RunsAvoid(lo, used, b.start);
    RunsAvoid(hi, used, b.start);
  }

  lemma StartOnce(row: seq<Block>, total: nat, i: nat, j: nat)
    requires Tiled(row, total) && i < |row| && j < |row| && row[i].start == row[j].start
    ensures i == j
  {
    hide Tiled;
    if i < j { TiledStarts(row, total, i, j); } else if j < i { TiledStarts(row, total, j, i); }
  }

  lemma AvoidOthers(row: seq<Block>, total: nat, i: nat)
    requires Tiled(row, total) && i < |row|
    ensures Avoids(row[..i], row[i].start) && Avoids(row[i + 1..], row[i].start)
  {
    hide Tiled;
    forall j | 0 <= j < |row| && j != i ensures row[j].start != row[i].start {
      if row[j].start == row[i].start { StartOnce(row, total, j, i); }
    }
  }

  // What the maps say about one block.
  lemma RunsAt(row: seq<Block>, total: nat, i: nat)
    requires Tiled(row, total) && i < |row|
    ensures var b := row[i];
            b.start in RunsOf(row, b.used) && RunsOf(row, b.used)[b.start] == b.size && b.start !in RunsOf(row, !b.used)
  {
    hide Tiled, RunsOf, Avoids;
    AvoidOthers(row, total, i);
    assert row == row[..i] + [row[i]] + row[i + 1..];
    RunsAround(row[..i], row[i], row[i + 1..], row[i].used);
    RunsAround(row[..i], row[i], row[i + 1..], !row[i].used);
  }

  // ---- the elementary changes of a row, as changes of its maps

  lemma MarkRuns(row: seq<Block>, total: nat, i: nat, used: bool)
    requires Tiled(row, total) && i < |row| && row[i].used == !used
    ensures RunsOf(Mark(row, i, used), !used) == RunsOf(row, !used) - {row[i].start}
    ensures RunsOf(Mark(row, i, used), used) == RunsOf(row, used)[row[i].start := row[i].size]
  {
    hide Tiled, RunsOf, Avoids;
    AvoidOthers(row, total, i);
    var lo, b, hi := row[..i], row[i], row[i + 1..];
    assert row == lo + [b] + hi;
    assert Mark(row, i, used) == lo + [b.(used := used)] + hi;
    RunsAround(lo, b, hi, used);
    RunsAround(lo, b, hi, !used);
    RunsAround(lo, b.(used := used), hi, used);
    RunsAround(lo, b.(used := used), hi, !used);
  }

  // A block cut in two, between others that start elsewhere.
  lemma RunsPair(lo: seq<Block>, b: Block, at: nat, hi: seq<Block>, used: bool)
    requires 0 < at < b.size && Avoids(lo, b.start) && Avoids(hi, b.start) && Avoids(lo, b.start + at)
             && Avoids(hi, b.start + at)
    ensures var x, y := Block(b.start, at, b.used), Block(b.start + at, b.size - at, b.used);
            var was, now := RunsOf(lo + [b] + hi, used), RunsOf(lo + [x] + [y] + hi, used);
            && y.start !in was
            && now == if b.used == used then was[b.start := at][y.start := y.size] else was
  {
    hide RunsOf;
    var x, y := Block(b.start, at, b.used), Block(b.start + at, b.size - at, b.used);
    RunsAround(lo, b, hi, used);
    RunsAppend(lo + [x] + [y], hi, used);
    RunsAppend(lo + [x], [y], used);
    RunsAppend(lo, [x], used);
    RunsOne(x, used);
    RunsOne(y, used);
    RunsAvoid(lo, used, b.start);
    RunsAvoid(hi, used, b.start);
    RunsAvoid(lo, used, y.start);
    RunsAvoid(hi, used, y.start);
  }

  lemma SplitSeqs(row: seq<Block>, i: nat, at: nat)
    requires i < |row| && at <= row[i].size
    ensures var b, s := row[i], Split(row, i, at);
            var x, y := Block(b.start, at, b.used), Block(b.start + at, b.size - at, b.used);
            && row == row[..i] + [b] + row[i + 1..] && s == row[..i] + [x] + [y] + row[i + 1..]
            && |s| == |row| + 1 && s[i + 1] == y && s[..i + 1] == row[..i] + [x] && s[i + 2..] == row[i + 1..]
  {
  }

  lemma SplitRuns(row: seq<Block>, total: nat, i: nat, at: nat)
    requires Tiled(row, total) && i < |row| && 0 < at < row[i].size
    ensures var b, s := row[i], Split(row, i, at);
            && RunsOf(s, b.used) == RunsOf(row, b.used)[b.start := at][b.start + at := b.size - at]
            && RunsOf(s, !b.used) == RunsOf(row, !b.used)
            && b.start + at !in RunsOf(row, b.used)
  {
    hide Tiled, RunsOf, Avoids, Split;
    var b, s := row[i], Split(row, i, at);
    SplitTiled(row, i, at, total);
    SplitSeqs(row, i, at);
    AvoidOthers(row, total, i);
    AvoidOthers(s, total, i + 1);
    AvoidsPart(row[..i], Block(b.start, at, b.used), b.start + at);
    RunsPair(row[..i], b, at, row[i + 1..], b.used);
    RunsPair(row[..i], b, at, row[i + 1..], !b.used);
  }

  lemma AvoidsPart(lo: seq<Block>, x: Block, k: nat)
    requires Avoids(lo + [x], k)
    ensures Avoids(lo, k)
  {
    assert forall i :: 0 <= i < |lo| ==> (lo + [x])[i] == lo[i];
  }

  lemma SplitMerge(row: seq<Block>, total: nat, i: nat)
    requires Tiled(row, total) && i + 1 < |row| && row[i].used == row[i + 1].used
    ensures var a, b, s := row[i], row[i + 1], Merge(row, i);
            && i < |s| && s[i] == Block(a.start, a.size + b.size, a.used) && 0 < a.size < s[i].size
               && b.start == a.start + a.size
            && Split(s, i, a.size) == row
  {
    var a, b, s := row[i], row[i + 1], Merge(row, i);
    assert a.size > 0 && b.size > 0 && b.start == a.End();
    hide Tiled;
    assert s[..i] == row[..i] && s[i + 1..] == row[i + 2..];
    assert row == row[..i] + [a, b] + row[i + 2..];
  }

  lemma MergeRuns(row: seq<Block>, total: nat, i: nat)
    requires Tiled(row, total) && i + 1 < |row| && row[i].used == row[i + 1].used
    ensures var a, b := row[i], row[i + 1];
            && RunsOf(Merge(row, i), a.used) == (RunsOf(row, a.used) - {b.start})[a.start := a.size + b.size]
            && RunsOf(Merge(row, i), !a.used) == RunsOf(row, !a.used)
  {
    hide Tiled, RunsOf, Split, Merge;
    var a, b, s := row[i], row[i + 1], Merge(row, i);
    MergeTiled(row, i, total);
    SplitMerge(row, total, i);
    SplitRuns(s, total, i, a.size);
    RunsAt(s, total, i);
    Rejoined(RunsOf(s, a.used), RunsOf(row, a.used), a.start, b.start, a.size, b.size);
  }

  lemma Rejoined(whole: Runs, parts: Runs, k: nat, l: nat, n: nat, m: nat)
    requires k in whole && whole[k] == n + m && l !in whole && parts == whole[k := n][l := m]
    ensures whole == (parts - {l})[k := n + m]
  {
  }

  // ---- the operations of the heap on its row

  lemma OneSubpage(x: nat)
    requires x < SPACE
    ensures Sub(x, SPACE) == 0
  {
  }

  // Neighbours in the element space merge exactly when both are free.
  lemma MergeableHere(a: Block, b: Block)
    requires a.start < SPACE && b.start < SPACE
    ensures Mergeable(a, b, SPACE) <==> !a.used && !b.used
  {
    OneSubpage(a.start);
    OneSubpage(b.start);
  }

  // Taking the first `n` elements of a free run.
  lemma ReuseRuns(row: seq<Block>, total: nat, i: nat, n: nat)
    requires Tiled(row, total) && i < |row| && !row[i].used && 0 < n <= row[i].size
    ensures var b, now := row[i], Allocated(row, i, 0, n);
            && RunsOf(now, true) == RunsOf(row, true)[b.start := n]
            && RunsOf(now, false) == if b.size > n then (RunsOf(row, false) - {b.start})[b.start + n := b.size - n]
               else RunsOf(row, false) - {b.start}
  {
    hide Tiled, RunsOf, Split, Mark;
    var b, s := row[i], Trimmed(row, i, n);
    assert Allocated(row, i, 0, n) == Mark(s, i, true);
    if b.size > n {
      SplitTiled(row, i, n, total);
      SplitRuns(row, total, i, n);
    }
    MarkRuns(s, total, i, true);
  }

  // A run at the end of the space.
  lemma GrowRuns(row: seq<Block>, total: nat, n: nat)
    requires (row == [] && total == 0) || Laid(row, total, SPACE)
    requires n > 0 && total + n <= U32_MAX
    ensures var now := row + [Block(total, n, true)];
            && Laid(now, total + n, SPACE) && total !in RunsOf(row, true)
            && RunsOf(now, true) == RunsOf(row, true)[total := n] && RunsOf(now, false) == RunsOf(row, false)
  {
    var b := Block(total, n, true);
    OneSubpage(total);
    OneSubpage(total + n - 1);
    assert row != [] ==> row[|row| - 1].End() == total;
    forall i | 0 <= i < |row| ensures row[i].start != total {
      TiledEnd(row, total, i);
    }
    GrowLaid(row, total, n);
    hide Tiled, Settled, RunsOf;
    RunsAround(row, b, [], true);
    RunsAround(row, b, [], false);
    assert row + [b] + [] == row + [b];
    assert RunsOf([], true) == map[] && RunsOf([], false) == map[] by { NoRuns(); }
  }

  lemma NoRuns()
    ensures RunsOf([], true) == map[] && RunsOf([], false) == map[]
  {
  }

  lemma GrowLaid(row: seq<Block>, total: nat, n: nat)
    requires (row == [] && total == 0) || Laid(row, total, SPACE)
    requires n > 0 && Sub(total, SPACE) == Sub(total + n - 1, SPACE)
    ensures Laid(row + [Block(total, n, true)], total + n, SPACE)
  {
    hide Sub;
    var now := row + [Block(total, n, true)];
    assert forall i {:trigger now[i]} :: 0 <= i < |row| ==> now[i] == row[i];
  }

  // What remove makes of the free runs: the run joined with a free run ending there and one starting at its end.
  function Returned(free: Runs, k: nat, n: nat, before: Option<nat>, after: Option<nat>): Runs
    requires (before.Some? ==> before.value in free) && (after.Some? ==> after.value in free)
  {
    var start, length := if before.Some? then before.value else k, n + if before.Some? then free[before.value] else 0;
    var rest := if before.Some? then free - {before.value} else free;
    if after.Some? then (rest - {after.value})[start := length + free[after.value]] else rest[start := length]
  }

  ghost function FreeBefore(row: seq<Block>, j: nat): Option<nat>
    requires j < |row|
  {
    if j > 0 && !row[j - 1].used then Some(row[j - 1].start) else None
  }

  ghost function FreeAfter(row: seq<Block>, j: nat): Option<nat>
    requires j < |row|
  {
    if j + 1 < |row| && !row[j + 1].used then Some(row[j + 1].start) else None
  }

  lemma FreedRuns(row: seq<Block>, total: nat, j: nat)
    requires Tiled(row, total) && total <= U32_MAX && j < |row| && row[j].used
    requires FreeBefore(row, j).Some? ==> FreeBefore(row, j).value in RunsOf(row, false)
    requires FreeAfter(row, j).Some? ==> FreeAfter(row, j).value in RunsOf(row, false)
    ensures var now := Freed(row, j, SPACE);
            && RunsOf(now, true) == RunsOf(row, true) - {row[j].start}
            && RunsOf(now, false)
               == Returned(RunsOf(row, false), row[j].start, row[j].size, FreeBefore(row, j), FreeAfter(row, j))
  {
    hide Tiled, RunsOf, Mark, MergedNext, MergedPrev, Returned;
    var k, n, s1 := row[j].start, row[j].size, Mark(row, j, false);
    MarkElements(row, j, false);
    MarkTiled(row, j, false, total);
    MarkRuns(row, total, j, false);
    RunsAt(row, total, j);
    JoinedNext(s1, total, j);
    JoinedPrev(MergedNext(s1, j, SPACE), total, j);
    if j > 0 { RunsAt(row, total, j - 1); }
    if j + 1 < |row| { RunsAt(row, total, j + 1); }
    if j > 0 && j + 1 < |row| { TiledStarts(row, total, j - 1, j + 1); }
    ReturnedSteps(RunsOf(row, false), k, n, FreeBefore(row, j), FreeAfter(row, j));
  }

  lemma MarkElements(row: seq<Block>, j: nat, used: bool)
    requires j < |row|
    ensures var s := Mark(row, j, used);
            |s| == |row| && s[j] == row[j].(used := used) && forall i {:trigger s[i]} :: 0 <= i < |row| && i != j ==>
                s[i] == row[i]
  {
  }

  // Marking, joining the next and joining the previous, on the map of free runs.
  lemma ReturnedSteps(free: Runs, k: nat, n: nat, before: Option<nat>, after: Option<nat>)
    requires k !in free && (before.Some? ==> before.value in free) && (after.Some? ==> after.value in free)
    requires before.Some? && after.Some? ==> before.value != after.value
    ensures var f1 := free[k := n];
            var size := n + if after.Some? then free[after.value] else 0;
            var f2 := if after.Some? then (f1 - {after.value})[k := size] else f1;
            var f3 := if before.Some? then (f2 - {k})[before.value := free[before.value] + size] else f2;
            f3 == Returned(free, k, n, before, after)
  {
  }

  // MergedNext and its maps.
  lemma JoinedNext(s: seq<Block>, total: nat, j: nat)
    requires Tiled(s, total) && total <= U32_MAX && j < |s| && !s[j].used
    ensures var t, next := MergedNext(s, j, SPACE), j + 1 < |s| && !s[j + 1].used;
            && Tiled(t, total) && j < |t| && (forall i :: 0 <= i < j ==> t[i] == s[i])
            && t[j] == Block(s[j].start, s[j].size + (if next then s[j + 1].size else 0), false)
            && RunsOf(t, true) == RunsOf(s, true)
            && RunsOf(t, false) == if next then (RunsOf(s, false) - {s[j + 1].start})[s[j].start := t[j].size]
               else RunsOf(s, false)
  {
    hide Tiled, RunsOf, Merge, Mergeable;
    TiledEnd(s, total, j);
    if j + 1 < |s| {
      TiledEnd(s, total, j + 1);
      MergeableHere(s[j], s[j + 1]);
      if !s[j + 1].used {
        MergeElements(s, j);
        MergeTiled(s, j, total);
        MergeRuns(s, total, j);
      }
    }
  }

  lemma JoinedPrev(s: seq<Block>, total: nat, j: nat)
    requires Tiled(s, total) && total <= U32_MAX && j < |s| && !s[j].used
    ensures var t, prev := MergedPrev(s, j, SPACE), j > 0 && !s[j - 1].used;
            && RunsOf(t, true) == RunsOf(s, true)
            && RunsOf(t, false) == if prev
               then (RunsOf(s, false) - {s[j].start})[s[j - 1].start := s[j - 1].size + s[j].size] else RunsOf(s, false)
  {
    hide Tiled, RunsOf, Merge, Mergeable;
    TiledEnd(s, total, j);
    if j > 0 {
      TiledEnd(s, total, j - 1);
      MergeableHere(s[j - 1], s[j]);
      if !s[j - 1].used {
        MergeRuns(s, total, j - 1);
      }
    }
  }
}
