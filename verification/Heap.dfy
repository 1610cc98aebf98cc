// An element space allocated in runs that are named by the offset of their first element.
module Heaps {
  import opened Common
  import opened PageTiling
  import opened HeapRuns

  // ---- ordered-map queries

  // The smallest key whose run has at least `n` elements.
  method FirstAtLeast(m: Runs, n: nat) returns (k: Option<nat>)
    ensures k.None? ==> forall x :: x in m ==> m[x] < n
    ensures k.Some? ==> k.value in m && m[k.value] >= n && forall x :: x in m && m[x] >= n ==> k.value <= x
  {
    var fits := set x | x in m && m[x] >= n;
    assert forall x :: x in m && m[x] >= n ==> x in fits;
    if fits == {} { return None; }
    SmallestExists(fits);
    var least :| least in fits && forall y :: y in fits ==> least <= y;
    k := Some(least);
  }

  // range(..bound).next_back()
  method LastBelow(m: Runs, bound: nat) returns (k: Option<nat>)
    ensures k.None? ==> forall x :: x in m ==> x >= bound
    ensures k.Some? ==> k.value in m && k.value < bound && forall x :: x in m && x < bound ==> x <= k.value
  {
    var below := set x | x in m && x < bound;
    assert forall x :: x in m && x < bound ==> x in below;
    if below == {} { return None; }
    LargestExists(below);
    var most :| most in below && forall y :: y in below ==> y <= most;
    k := Some(most);
  }

  // range(bound..).next()
  method FirstFrom(m: Runs, bound: nat) returns (k: Option<nat>)
    ensures k.None? ==> forall x :: x in m ==> x < bound
    ensures k.Some? ==> k.value in m && k.value >= bound && forall x :: x in m && x >= bound ==> k.value <= x
  {
    var above := set x | x in m && x >= bound;
    assert forall x :: x in m && x >= bound ==> x in above;
    if above == {} { return None; }
    SmallestExists(above);
    var least :| least in above && forall y :: y in above ==> least <= y;
    k := Some(least);
  }

  // ---- the queries on a row

  ghost predicate Spaced(row: seq<Block>, total: nat) {
    total <= U32_MAX && if row == [] then total == 0 else Laid(row, total, SPACE)
  }

  // The block of a key.
  lemma BlockOf(row: seq<Block>, total: nat, used: bool, k: nat) returns (i: nat)
    requires Spaced(row, total) && k in RunsOf(row, used)
    ensures i < |row| && row[i].used == used && row[i].start == k && row[i].size == RunsOf(row, used)[k]
            && Tiled(row, total)
    ensures row[i].size > 0 && row[i].End() <= total
  {
    i := RunsHave(row, used, k);
    RunsAt(row, total, i);
    TiledEnd(row, total, i);
  }

  // The smallest free key that is large enough is the first free block that fits.
  lemma FirstRunFits(row: seq<Block>, total: nat, n: nat, k: nat) returns (i: nat)
    requires Spaced(row, total) && k in RunsOf(row, false) && RunsOf(row, false)[k] >= n
    requires forall x :: x in RunsOf(row, false) && RunsOf(row, false)[x] >= n ==> k <= x
    ensures i < |row| && row[i].start == k && row[i].size == RunsOf(row, false)[k] && !row[i].used && Tiled(row, total)
    ensures forall j :: 0 <= j < i ==> row[j].used || row[j].size < n
  {
    hide Spaced, RunsOf, Tiled;
    i := BlockOf(row, total, false, k);
    forall j | 0 <= j < i ensures row[j].used || row[j].size < n {
      RunsAt(row, total, j);
      TiledStarts(row, total, j, i);
    }
  }

  // The last free key below a used block ends there exactly when the block before is free.
  lemma BeforeIs(row: seq<Block>, total: nat, j: nat, k: Option<nat>)
    requires Spaced(row, total) && Tiled(row, total) && j < |row|
    requires k.None? ==> forall x :: x in RunsOf(row, false) ==> x >= row[j].start
    requires k.Some? ==>
               && k.value in RunsOf(row, false) && k.value < row[j].start
               && forall x :: x in RunsOf(row, false) && x < row[j].start ==> x <= k.value
    ensures FreeBefore(row, j) == if k.Some? && k.value + RunsOf(row, false)[k.value] == row[j].start then k else None
  {
    if j > 0 {
      RunsAt(row, total, j - 1);
      TiledOrder(row, total, j - 1, j);
      assert row[j].start == row[j - 1].End();
      TiledEnd(row, total, j - 1);
    } else {
      assert row[0].start == 0;
    }
    hide Spaced, RunsOf, Tiled;
    if k.Some? {
      var i := BlockOf(row, total, false, k.value);
      if j <= i {
        if j < i { TiledStarts(row, total, j, i); }
      } else if i < j - 1 {
        TiledOrder(row, total, i, j - 1);
        TiledOrder(row, total, j - 1, j);
      }
    }
  }

  // The first free key from the end of a used block on starts there exactly when the block after is free.
  lemma AfterIs(row: seq<Block>, total: nat, j: nat, k: Option<nat>)
    requires Spaced(row, total) && Tiled(row, total) && j < |row|
    requires k.None? ==> forall x :: x in RunsOf(row, false) ==> x < row[j].End()
    requires k.Some? ==>
               && k.value in RunsOf(row, false) && k.value >= row[j].End()
               && forall x :: x in RunsOf(row, false) && x >= row[j].End() ==> k.value <= x
    ensures FreeAfter(row, j) == if k.Some? && k.value == row[j].End() then k else None
  {
    TiledEnd(row, total, j);
    if j + 1 < |row| {
      RunsAt(row, total, j + 1);
      assert row[j + 1].start == row[j].End();
    } else {
      assert row[j].End() == total;
    }
    hide Spaced, RunsOf, Tiled;
    if k.Some? {
      var i := BlockOf(row, total, false, k.value);
      if k.value == row[j].End() && j + 1 < |row| { StartOnce(row, total, i, j + 1); }
    }
  }

  // Every element of a live run is initialised.
  ghost predicate Initialised<T>(values: seq<Option<T>>, row: seq<Block>) {
    forall i :: 0 <= i < |row| && row[i].used ==> RunSet(values, row[i])
  }

  ghost predicate RunSet<T>(values: seq<Option<T>>, b: Block) {
    b.End() <= |values| && forall p :: b.start <= p < b.End() ==> values[p].Some?
  }

  // A free run is long enough, or the grown space still has 32-bit offsets.
  ghost predicate RoomFor(free: Runs, total: nat, n: nat) {
    (exists k :: k in free && free[k] >= n) || total + n <= U32_MAX
  }

  class Heap<T> {
    var values: seq<Option<T>>
    var allocations: Runs
    var freeRuns: Runs
    ghost var row: seq<Block>

    // Live and free runs partition the space, no two free runs touch, and live elements are initialised.
    ghost predicate Valid()
      reads this
    {
      && Spaced(row, |values|) && Initialised(values, row)
      && allocations == RunsOf(row, true) && freeRuns == RunsOf(row, false)
    }

    constructor ()
      ensures Valid() && values == [] && allocations == map[] && freeRuns == map[]
    {
      values, allocations, freeRuns, row := [], map[], map[], [];
    }

    // Where a new run goes: the first free run that is large enough, or the end of the space.
    method Reserve(n: nat) returns (offset: nat, ghost i: nat)
      requires Valid() && n > 0 && RoomFor(freeRuns, |values|, n)
      modifies this`values, this`freeRuns
      ensures freeRuns == RunsOf(NextRow(row, old(|values|), i, n), false) && offset !in allocations
      ensures RunsOf(NextRow(row, old(|values|), i, n), true) == allocations[offset := n]
      ensures Spaced(NextRow(row, old(|values|), i, n), |values|) && offset + n <= |values|
      ensures if i < |row| then FirstFree(row, i, n) && offset == row[i].start && values == old(values)
              else
                && NoneFree(row, n) && offset == old(|values|) && |values| == old(|values|) + n
                && values[..offset] == old(values)
    {
      hide Laid, RunsOf, Tiled, Allocated, Avoids;
      var reusable := FirstAtLeast(freeRuns, n);
      if reusable.Some? {
        offset := reusable.value;
        var length := freeRuns[offset];
        i := FirstRunFits(row, |values|, n, offset);
        ReuseRuns(row, |values|, i, n);
        ReuseLaid(row, |values|, i, n);
        RunsAt(row, |values|, i);
        TiledEnd(row, |values|, i);
        freeRuns := freeRuns - {offset};
        if length != n {
          freeRuns := freeRuns[offset + n := length - n];
        }
      } else {
        i := |row|;
        NoRunFits(row, |values|, n);
        GrowRuns(row, |values|, n);
        offset := |values|;
        values := values + seq(n, _ => None);
      }
    }

    // alloc
    method Alloc(elements: nat, element: T) returns (offset: nat, ghost i: nat)
      requires Valid() && elements > 0 && RoomFor(freeRuns, |values|, elements)
      modifies this
      ensures Valid() && row == NextRow(old(row), old(|values|), i, elements)
      ensures if i < |old(row)|
              then FirstFree(old(row), i, elements) && offset == old(row)[i].start && |values| == old(|values|)
              else NoneFree(old(row), elements) && offset == old(|values|) && |values| == old(|values|) + elements
      ensures offset !in old(allocations) && allocations == old(allocations)[offset := elements]
      ensures offset + elements <= |values| && forall p :: offset <= p < offset + elements ==>
                values[p] == Some(element)
      ensures forall p :: 0 <= p < old(|values|) && !(offset <= p < offset + elements) ==> values[p] == old(values)[p]
    {
      hide Spaced, RunsOf, Initialised, NextRow, NoneFree;
      ghost var total := |values|;
      offset, i := Reserve(elements);
      ghost var before := values;
      for position := offset to offset + elements
        modifies this`values
        invariant |values| == |before|
        invariant forall p :: 0 <= p < |values| ==> values[p] == if offset <= p < position then Some(element)
                  else before[p]
      {
        values := values[position := Some(element)];
      }
      allocations := allocations[offset := elements];
      StillInitialised(old(values), values, old(row), total, i, elements, offset);
      row := NextRow(row, total, i, elements);
    }

    // The run joined with its free neighbours, as the free runs are searched for them.
    method Coalesce(offset: nat, elements: nat, ghost j: nat)
      requires Spaced(row, |values|) && freeRuns == RunsOf(row, false) && j < |row|
               && row[j] == Block(offset, elements, true)
      modifies this`freeRuns
      ensures freeRuns == RunsOf(Freed(row, j, SPACE), false)
    {
      hide Spaced, RunsOf, Tiled, Freed;
      ghost var free := freeRuns;
      SpacedTiled(row, |values|, j);
      var start, length := offset, elements;
      var before := LastBelow(freeRuns, offset);
      BeforeIs(row, |values|, j, before);
      if before.Some? && before.value + freeRuns[before.value] == offset {
        start := before.value;
        length := length + freeRuns[before.value];
        freeRuns := freeRuns - {before.value};
      }
      var after := FirstFrom(freeRuns, start);
      FromStart(row, |values|, j, free, freeRuns, start, after);
      AfterIs(row, |values|, j, after);
      Neighbours(row, |values|, j);
      FreedRuns(row, |values|, j);
      if after.Some? && start + length == after.value {
        length := length + freeRuns[after.value];
        freeRuns := freeRuns - {after.value};
      }
      freeRuns := freeRuns[start := length];
    }

    // remove
    method Remove(offset: nat) returns (ghost j: nat)
      requires Valid() && offset in allocations
      modifies this
      ensures Valid() && |values| == old(|values|) && allocations == old(allocations) - {offset}
      ensures j < |old(row)| && old(row)[j] == Block(offset, old(allocations)[offset], true)
              && row == Freed(old(row), j, SPACE)
      ensures forall p :: 0 <= p < |values| && !(offset <= p < offset + old(allocations)[offset]) ==>
                values[p] == old(values)[p]
    {
      hide Spaced, RunsOf, Initialised, Freed;
      var elements := allocations[offset];
      j := BlockOf(row, |values|, true, offset);
      allocations := allocations - {offset};
      ghost var before := values;
      for position := offset to offset + elements
        modifies this`values
        invariant |values| == |before|
        invariant forall p :: 0 <= p < |values| ==> values[p] == if offset <= p < position then None else before[p]
      {
        values := values[position := None];
      }
      Coalesce(offset, elements, j);
      FreedSpaced(row, |values|, j);
      FreedInitialised(before, values, row, |values|, j);
      row := Freed(row, j, SPACE);
    }

    // allocation_end
    method AllocationEnd(offset: nat) returns (end: Option<nat>)
      requires Valid()
      ensures end.Some? ==> exists a :: a in allocations && a <= offset < end.value && end.value == a + allocations[a]
      ensures end.None? ==> forall a :: a in allocations && a <= offset ==> a + allocations[a] <= offset
      ensures end.Some? ==> forall a :: a in allocations && a <= offset < a + allocations[a] ==>
                a + allocations[a] == end.value
    {
      hide Spaced, RunsOf, Initialised;
      var start := LastBelow(allocations, offset + 1);
      if start.None? { return None; }
      forall a | a in allocations && a < start.value ensures a + allocations[a] <= start.value {
        LiveOrder(row, |values|, a, start.value);
      }
      var last := start.value + allocations[start.value];
      if offset < last { return Some(last); }
      end := None;
    }

    // get_slice
    method GetSlice(offset: nat, elements: nat) returns (slice: Option<seq<Option<T>>>)
      requires Valid()
      ensures slice.Some? <==>
              && elements > 0
              && exists a :: a in allocations && a <= offset && offset + elements <= a + allocations[a]
      ensures slice.Some? ==>
                && offset + elements <= |values| && slice.value == values[offset..offset + elements]
                && forall v :: v in slice.value ==> v.Some?
    {
      hide Spaced, RunsOf, Initialised;
      var end := AllocationEnd(offset);
      if end.None? { return None; }
      if elements == 0 || offset + elements > end.value { return None; }
      ghost var a :| a in allocations && a <= offset < end.value && end.value == a + allocations[a];
      LiveSet(values, row, a);
      slice := Some(values[offset..offset + elements]);
    }
  }

  lemma SpacedTiled(row: seq<Block>, total: nat, j: nat)
    requires Spaced(row, total) && j < |row|
    ensures Tiled(row, total) && total <= U32_MAX
  {
  }

  lemma Neighbours(row: seq<Block>, total: nat, j: nat)
    requires Tiled(row, total) && j < |row|
    ensures FreeBefore(row, j).Some? ==> FreeBefore(row, j).value in RunsOf(row, false)
    ensures FreeAfter(row, j).Some? ==> FreeAfter(row, j).value in RunsOf(row, false)
    ensures FreeBefore(row, j).Some? && FreeAfter(row, j).Some? ==> FreeBefore(row, j).value != FreeAfter(row, j).value
  {
    hide Tiled, RunsOf;
    if j > 0 { RunsAt(row, total, j - 1); }
    if j + 1 < |row| { RunsAt(row, total, j + 1); }
    if j > 0 && j + 1 < |row| { TiledStarts(row, total, j - 1, j + 1); }
  }

  // No free run lies between the start of the joined run and the end of the released one.
  lemma FromStart(row: seq<Block>, total: nat, j: nat, free: Runs, rest: Runs, start: nat, k: Option<nat>)
    requires Spaced(row, total) && Tiled(row, total) && j < |row| && row[j].used && free == RunsOf(row, false)
    requires var before := FreeBefore(row, j);
             if before.Some? then before.value in free && rest == free - {before.value} && start == before.value
                 else rest == free && start == row[j].start
    requires k.None? ==> forall x :: x in rest ==> x < start
    requires k.Some? ==> k.value in rest && k.value >= start && forall x :: x in rest && x >= start ==> k.value <= x
    ensures k.None? ==> forall x :: x in free ==> x < row[j].End()
    ensures k.Some? ==> k.value in free && k.value >= row[j].End() && forall x :: x in free && x >= row[j].End() ==>
              k.value <= x
  {
    hide Spaced, RunsOf, Tiled;
    forall x | x in rest && x >= start ensures x >= row[j].End() {
      BeyondEnd(row, total, j, start, x);
    }
    StartInside(row, total, j);
    assert forall x :: x in free && x >= row[j].End() ==> x in rest;
  }

  lemma StartInside(row: seq<Block>, total: nat, j: nat)
    requires Tiled(row, total) && j < |row|
    ensures FreeBefore(row, j).Some? ==> FreeBefore(row, j).value < row[j].start
    ensures row[j].start < row[j].End()
  {
    TiledEnd(row, total, j);
    if j > 0 { TiledStarts(row, total, j - 1, j); }
  }

  lemma BeyondEnd(row: seq<Block>, total: nat, j: nat, start: nat, x: nat)
    requires Spaced(row, total) && Tiled(row, total) && j < |row| && row[j].used && x in RunsOf(row, false)
             && x >= start
    requires var before := FreeBefore(row, j); if before.Some? then start == before.value && x != start
             else start == row[j].start
    ensures x >= row[j].End()
  {
    hide Spaced, RunsOf, Tiled;
    var i := BlockOf(row, total, false, x);
    if i < j {
      TiledStarts(row, total, i, j);
      if i < j - 1 { TiledStarts(row, total, i, j - 1); }
    } else {
      TiledOrder(row, total, j, i);
    }
  }

  lemma FreedSpaced(row: seq<Block>, total: nat, j: nat)
    requires Spaced(row, total) && j < |row| && row[j].used
    ensures Spaced(Freed(row, j, SPACE), total)
            && RunsOf(Freed(row, j, SPACE), true) == RunsOf(row, true) - {row[j].start}
  {
    SpacedTiled(row, total, j);
    hide Tiled, RunsOf, Settled, Freed;
    FreedLaid(row, j, total, SPACE);
    Neighbours(row, total, j);
    FreedRuns(row, total, j);
    assert Tiled(Freed(row, j, SPACE), total);
    TiledNonempty(Freed(row, j, SPACE), total);
  }

  lemma TiledNonempty(row: seq<Block>, total: nat)
    requires Tiled(row, total)
    ensures row != []
  {
  }

  // The used blocks after a release are the others.
  lemma FreedInitialised<T>(was: seq<Option<T>>, now: seq<Option<T>>, row: seq<Block>, total: nat, j: nat)
    requires Spaced(row, total) && j < |row| && row[j].used && Initialised(was, row) && |now| == |was| == total
    requires forall p :: 0 <= p < |now| && !(row[j].start <= p < row[j].End()) ==> now[p] == was[p]
    ensures Initialised(now, Freed(row, j, SPACE))
  {
    hide Tiled, RunsOf, Freed, Spaced, RunSet;
    var next := Freed(row, j, SPACE);
    FreedSpaced(row, total, j);
    forall k | 0 <= k < |next| && next[k].used ensures RunSet(now, next[k]) {
      SpacedTiled(next, total, k);
      RunsAt(next, total, k);
      var i := BlockOf(row, total, true, next[k].start);
      OtherRun(was, now, row, total, i, j);
    }
  }

  lemma OtherRun<T>(was: seq<Option<T>>, now: seq<Option<T>>, row: seq<Block>, total: nat, i: nat, j: nat)
    requires Tiled(row, total) && i < |row| && j < |row| && i != j && RunSet(was, row[i]) && |now| == |was|
    requires forall p :: 0 <= p < |now| && !(row[j].start <= p < row[j].End()) ==> now[p] == was[p]
    ensures RunSet(now, row[i])
  {
    hide Tiled;
    if i < j { TiledOrder(row, total, i, j); } else { TiledOrder(row, total, j, i); }
  }

  lemma LiveOrder(row: seq<Block>, total: nat, a: nat, b: nat)
    requires Spaced(row, total) && a in RunsOf(row, true) && b in RunsOf(row, true) && a < b
    ensures a + RunsOf(row, true)[a] <= b
  {
    hide Spaced, RunsOf, Tiled;
    var i := BlockOf(row, total, true, a);
    var j := BlockOf(row, total, true, b);
    if i < j { TiledOrder(row, total, i, j); } else if j < i { TiledStarts(row, total, j, i); }
  }

  lemma LiveSet<T>(values: seq<Option<T>>, row: seq<Block>, a: nat)
    requires Spaced(row, |values|) && Initialised(values, row) && a in RunsOf(row, true)
    ensures RunSet(values, Block(a, RunsOf(row, true)[a], true))
  {
    hide Spaced, RunsOf;
    var i := BlockOf(row, |values|, true, a);
    assert RunSet(values, row[i]);
  }

  // An allocation served from a free run and then removed leaves the runs as they were.
  lemma AllocRemove(row: seq<Block>, total: nat, i: nat, n: nat, j: nat)
    requires Spaced(row, total) && n > 0 && FirstFree(row, i, n)
    requires j < |NextRow(row, total, i, n)| && NextRow(row, total, i, n)[j].used
             && NextRow(row, total, i, n)[j].start == row[i].start
    ensures Freed(NextRow(row, total, i, n), j, SPACE) == row
  {
    ReuseLaid(row, total, i, n);
    var now := Allocated(row, i, 0, n);
    assert i < |now| && now[i] == Block(row[i].start, n, true);
    hide Tiled, Settled, Allocated, Freed;
    StartOnce(now, total, i, j);
    AllocThenFree(row, i, 0, n, j, total, SPACE);
  }

  // The row after an allocation of `n` elements at block `i`, or at the end.
  ghost function NextRow(row: seq<Block>, total: nat, i: nat, n: nat): seq<Block> {
    if i < |row| && 0 < n <= row[i].size then Allocated(row, i, 0, n) else row + [Block(total, n, true)]
  }

  ghost predicate FirstFree(row: seq<Block>, i: nat, n: nat) {
    i < |row| && !row[i].used && n <= row[i].size && forall j :: 0 <= j < i ==> row[j].used || row[j].size < n
  }

  ghost predicate NoneFree(row: seq<Block>, n: nat) {
    forall j :: 0 <= j < |row| ==> row[j].used || row[j].size < n
  }

  lemma NoRunFits(row: seq<Block>, total: nat, n: nat)
    requires Spaced(row, total) && forall x :: x in RunsOf(row, false) ==> RunsOf(row, false)[x] < n
    ensures NoneFree(row, n)
  {
    hide RunsOf;
    forall j | 0 <= j < |row| ensures row[j].used || row[j].size < n {
      RunsAt(row, total, j);
    }
  }

  lemma ReuseLaid(row: seq<Block>, total: nat, i: nat, n: nat)
    requires Spaced(row, total) && i < |row| && !row[i].used && 0 < n <= row[i].size
    ensures Laid(Allocated(row, i, 0, n), total, SPACE) && Allocated(row, i, 0, n) != []
  {
    hide Tiled, Settled;
    AllocatedLaid(row, i, 0, n, total, SPACE);
    assert Allocated(row, i, 0, n)[i] == Block(row[i].start, n, true);
  }

  // The used blocks of the next row are the old ones and the new run.
  lemma StillInitialised<T>(was: seq<Option<T>>, now: seq<Option<T>>, row: seq<Block>, total: nat, i: nat, n: nat,
                            offset: nat)
    requires Initialised(was, row) && |was| <= |now| && total == |was| && n > 0
    requires if i < |row| then !row[i].used && n <= row[i].size && offset == row[i].start else offset == total
    requires offset + n <= |now| && forall p :: offset <= p < offset + n ==> now[p].Some?
    requires forall p :: 0 <= p < |was| && !(offset <= p < offset + n) ==> now[p] == was[p]
    ensures Initialised(now, NextRow(row, total, i, n))
  {
    var next := NextRow(row, total, i, n);
    forall j | 0 <= j < |next| && next[j].used ensures RunSet(now, next[j]) {
      NextBlocks(row, total, i, n, j);
      if next[j] != Block(offset, n, true) {
        var k :| 0 <= k < |row| && row[k] == next[j];
        assert RunSet(was, row[k]);
      }
    }
  }

  lemma NextBlocks(row: seq<Block>, total: nat, i: nat, n: nat, j: nat)
    requires n > 0 && (i < |row| ==> !row[i].used && n <= row[i].size)
    requires j < |NextRow(row, total, i, n)| && NextRow(row, total, i, n)[j].used
    ensures var b, offset := NextRow(row, total, i, n)[j], if i < |row| then row[i].start else total;
            b == Block(offset, n, true) || exists k :: 0 <= k < |row| && row[k] == b
  {
    var b := NextRow(row, total, i, n)[j];
    if i >= |row| {
      if j < |row| { assert row[j] == b; }
    } else if row[i].size > n {
      SplitElements(row, i, n);
      if j < i { assert row[j] == b; } else if j > i + 1 { assert row[j - 1] == b; }
    } else {
      if j != i { assert row[j] == b; }
    }
  }
}
