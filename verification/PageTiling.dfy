// A page of the allocator as a row of blocks, and what splitting and merging do to it.
module PageTiling {
  import opened Arithmetic

  datatype Block = Block(start: nat, size: nat, used: bool) {
    function End(): nat {
      start + size
    }
  }

  // The blocks cover [0, total) from left to right without gaps or overlaps.
  ghost predicate Tiled(bs: seq<Block>, total: nat) {
    && bs != [] && bs[0].start == 0 && bs[|bs| - 1].End() == total
    && (forall i :: 0 <= i < |bs| ==> bs[i].size > 0)
    && (forall i, j :: 0 <= i && j == i + 1 && j < |bs| ==> bs[j].start == bs[i].End())
  }

  // The subpage a block number lies in.
  function Sub(x: nat, sub: nat): nat
    requires sub > 0
  {
    x / sub
  }

  ghost predicate InSubpage(b: Block, sub: nat)
    requires sub > 0
  {
    b.size > 0 && Sub(b.start, sub) == Sub(b.End() - 1, sub)
  }

  predicate Mergeable(a: Block, b: Block, sub: nat)
    requires sub > 0
  {
    !a.used && !b.used && Sub(a.start, sub) == Sub(b.start, sub)
  }

  // No block crosses a subpage, and no two free neighbours share one.
  ghost predicate Settled(bs: seq<Block>, sub: nat)
    requires sub > 0
  {
    && (forall i :: 0 <= i < |bs| ==> InSubpage(bs[i], sub))
    && (forall i, j :: 0 <= i && j == i + 1 && j < |bs| ==> !Mergeable(bs[i], bs[j], sub))
  }

  // How many blocks lie free, and in how many pieces.
  function FreeBlocks(bs: seq<Block>): nat {
    if bs == [] then 0 else FreeBlocks(bs[..|bs| - 1]) + FreeSize(bs[|bs| - 1])
  }

  function FreeSize(b: Block): nat {
    if b.used then 0 else b.size
  }

  function FreeChunks(bs: seq<Block>): nat {
    if bs == [] then 0 else FreeChunks(bs[..|bs| - 1]) + FreeCount(bs[|bs| - 1])
  }

  function FreeCount(b: Block): nat {
    if b.used then 0 else 1
  }

  // ---- the three elementary changes

  function Split(bs: seq<Block>, i: nat, at: nat): seq<Block>
    requires i < |bs| && at <= bs[i].size
  {
    var b := bs[i];
    bs[..i] + [Block(b.start, at, b.used), Block(b.start + at, b.size - at, b.used)] + bs[i + 1..]
  }

  function Merge(bs: seq<Block>, i: nat): seq<Block>
    requires i + 1 < |bs|
  {
    bs[..i] + [Block(bs[i].start, bs[i].size + bs[i + 1].size, bs[i].used)] + bs[i + 2..]
  }

  function Mark(bs: seq<Block>, i: nat, used: bool): seq<Block>
    requires i < |bs|
  {
    bs[i := bs[i].(used := used)]
  }

  lemma SplitElements(bs: seq<Block>, i: nat, at: nat)
    requires i < |bs| && at <= bs[i].size
    ensures var s, b := Split(bs, i, at), bs[i];
            && |s| == |bs| + 1 && s[i] == Block(b.start, at, b.used)
               && s[i + 1] == Block(b.start + at, b.size - at, b.used)
            && (forall k {:trigger s[k]} :: 0 <= k < i ==> s[k] == bs[k])
               && (forall k {:trigger s[k]} :: i + 2 <= k < |s| ==> s[k] == bs[k - 1])
  {
  }

  lemma MergeElements(bs: seq<Block>, i: nat)
    requires i + 1 < |bs|
    ensures var s := Merge(bs, i);
            && |s| == |bs| - 1 && s[i] == Block(bs[i].start, bs[i].size + bs[i + 1].size, bs[i].used)
            && (forall k {:trigger s[k]} :: 0 <= k < i ==> s[k] == bs[k])
               && (forall k {:trigger s[k]} :: i < k < |s| ==> s[k] == bs[k + 1])
  {
  }

  lemma MergeSplit(bs: seq<Block>, i: nat, at: nat)
    requires i < |bs| && at <= bs[i].size
    ensures |Split(bs, i, at)| == |bs| + 1
    ensures Merge(Split(bs, i, at), i) == bs
  {
    var s := Split(bs, i, at);
    assert s[..i] == bs[..i] && s[i + 2..] == bs[i + 1..];
  }

  lemma SplitTiled(bs: seq<Block>, i: nat, at: nat, total: nat)
    requires Tiled(bs, total) && i < |bs| && 0 < at < bs[i].size
    ensures Tiled(Split(bs, i, at), total)
  {
    var s := Split(bs, i, at);
    assert forall k :: 0 <= k < i ==> s[k] == bs[k];
    assert forall k :: i + 2 <= k < |s| ==> s[k] == bs[k - 1];
    assert i + 1 == |bs| ==> s[|s| - 1] == s[i + 1];
    assert i + 1 < |bs| ==> s[|s| - 1] == bs[|bs| - 1];
  }

  lemma MergeTiled(bs: seq<Block>, i: nat, total: nat)
    requires Tiled(bs, total) && i + 1 < |bs|
    ensures Tiled(Merge(bs, i), total)
  {
    var s := Merge(bs, i);
    assert forall k :: 0 <= k < i ==> s[k] == bs[k];
    assert forall k :: i + 1 <= k < |s| ==> s[k] == bs[k + 1];
    assert i + 2 == |bs| ==> s[|s| - 1] == s[i];
  }

  lemma MarkTiled(bs: seq<Block>, i: nat, used: bool, total: nat)
    requires Tiled(bs, total) && i < |bs|
    ensures Tiled(Mark(bs, i, used), total)
  {
  }

  // ---- counters

  lemma {:induction false} CountsAppend(a: seq<Block>, b: seq<Block>)
    ensures FreeBlocks(a + b) == FreeBlocks(a) + FreeBlocks(b)
    ensures FreeChunks(a + b) == FreeChunks(a) + FreeChunks(b)
  {
    if b == [] {
      assert a + b == a;
    } else {
      assert (a + b)[..|a + b| - 1] == a + b[..|b| - 1];
      CountsAppend(a, b[..|b| - 1]);
    }
  }

  lemma CountsOne(b: Block)
    ensures FreeBlocks([b]) == FreeSize(b) && FreeChunks([b]) == FreeCount(b)
  {
    assert [b][..0] == [];
  }

  lemma CountsAround(lo: seq<Block>, b: Block, hi: seq<Block>)
    ensures FreeBlocks(lo + [b] + hi) == FreeBlocks(lo) + FreeSize(b) + FreeBlocks(hi)
    ensures FreeChunks(lo + [b] + hi) == FreeChunks(lo) + FreeCount(b) + FreeChunks(hi)
  {
    hide FreeBlocks, FreeChunks;
    CountsAppend(lo + [b], hi);
    CountsAppend(lo, [b]);
    CountsOne(b);
  }

  lemma MergeCounts(bs: seq<Block>, i: nat)
    requires i + 1 < |bs| && !bs[i].used && !bs[i + 1].used
    ensures FreeBlocks(Merge(bs, i)) == FreeBlocks(bs) && FreeChunks(Merge(bs, i)) + 1 == FreeChunks(bs)
  {
    hide FreeBlocks, FreeChunks;
    var x, y := bs[i], bs[i + 1];
    assert bs == bs[..i] + [x] + ([y] + bs[i + 2..]);
    CountsAround(bs[..i], x, [y] + bs[i + 2..]);
    CountsAppend([y], bs[i + 2..]);
    CountsOne(y);
    CountsAround(bs[..i], Block(x.start, x.size + y.size, x.used), bs[i + 2..]);
  }

  lemma SplitCounts(bs: seq<Block>, i: nat, at: nat)
    requires i < |bs| && at <= bs[i].size && !bs[i].used
    ensures FreeBlocks(Split(bs, i, at)) == FreeBlocks(bs) && FreeChunks(Split(bs, i, at)) == FreeChunks(bs) + 1
  {
    MergeSplit(bs, i, at);
    MergeCounts(Split(bs, i, at), i);
  }

  lemma MarkCounts(bs: seq<Block>, i: nat, used: bool)
    requires i < |bs|
    ensures FreeBlocks(Mark(bs, i, used)) == FreeBlocks(bs) - FreeSize(bs[i]) + FreeSize(bs[i].(used := used))
    ensures FreeChunks(Mark(bs, i, used)) == FreeChunks(bs) - FreeCount(bs[i]) + FreeCount(bs[i].(used := used))
  {
    hide FreeBlocks, FreeChunks;
    var b := bs[i];
    assert bs == bs[..i] + [b] + bs[i + 1..];
    assert Mark(bs, i, used) == bs[..i] + [b.(used := used)] + bs[i + 1..];
    CountsAround(bs[..i], b, bs[i + 1..]);
    CountsAround(bs[..i], b.(used := used), bs[i + 1..]);
  }

  // ---- allocation and release of a block

  // Blocks to skip for alignment; `&` with a power of two less one is the remainder.
  function Offset(start: nat, align: nat): nat
    requires align > 0
  {
    (align - start % align) % align
  }

  // The offset is the least one that aligns the start.
  lemma OffsetAligns(start: nat, align: nat)
    requires align > 0
    ensures (start + Offset(start, align)) % align == 0 && Offset(start, align) < align
  {
    var q, r := start / align, start % align;
    if r == 0 {
      MultipleOf(align, 1, align);
    } else {
      NextMultiple(start, align, q, r);
    }
  }

  lemma NextMultiple(start: nat, align: nat, q: nat, r: nat)
    requires align > 0 && start == q * align + r && 0 < r < align
    ensures (start + (align - r)) % align == 0 && (align - r) % align == align - r
  {
    var x := start + (align - r);
    assert x == (q + 1) * align;
    MultipleOf(x, q + 1, align);
    SmallRemainder(align - r, align);
  }

  predicate Fits(b: Block, n: nat, align: nat)
    requires align > 0
  {
    !b.used && n + Offset(b.start, align) <= b.size
  }

  // Block b is free, and `n` blocks from x on, aligned, lie inside it.
  predicate RoomAt(b: Block, x: int, n: nat, align: nat)
    requires align > 0
  {
    !b.used && b.start <= x && x % align == 0 && x + n <= b.End()
  }

  // A block fits exactly when there is room for the blocks somewhere in it; the place given is the lowest.
  lemma FitsMeans(b: Block, n: nat, align: nat)
    requires align > 0
    ensures Fits(b, n, align) <==> exists x :: RoomAt(b, x, n, align)
    ensures Fits(b, n, align) ==> RoomAt(b, b.start + Offset(b.start, align), n, align)
    ensures forall x :: RoomAt(b, x, n, align) ==> b.start + Offset(b.start, align) <= x
  {
    hide Offset;
    OffsetAligns(b.start, align);
    forall x | RoomAt(b, x, n, align) ensures b.start + Offset(b.start, align) <= x {
      OffsetLeast(b.start, align, x);
    }
    assert Fits(b, n, align) ==> RoomAt(b, b.start + Offset(b.start, align), n, align);
  }

  lemma OffsetLeast(start: nat, align: nat, x: nat)
    requires align > 0 && start <= x && x % align == 0
    ensures start + Offset(start, align) <= x
  {
    hide Offset;
    OffsetAligns(start, align);
    var y := start + Offset(start, align);
    var p, q := x / align, y / align;
    assert x == align * p && y == align * q;
    if p < q { Monotone(align, p, q); }
    if q <= p { assert align * q <= align * p; }
  }

  // Where the allocated block ends up after a leading piece of `off` blocks is split off.
  function Place(i: nat, off: nat): nat {
    if off > 0 then i + 1 else i
  }

  function Headed(bs: seq<Block>, i: nat, off: nat): (s: seq<Block>)
    requires i < |bs| && off < bs[i].size
    ensures Place(i, off) < |s| && s[Place(i, off)] == Block(bs[i].start + off, bs[i].size - off, bs[i].used)
  {
    if off > 0 then Split(bs, i, off) else bs
  }

  function Trimmed(bs: seq<Block>, j: nat, n: nat): (s: seq<Block>)
    requires j < |bs| && n <= bs[j].size
    ensures j < |s| && s[j] == Block(bs[j].start, n, bs[j].used)
  {
    if bs[j].size > n then Split(bs, j, n) else bs
  }

  function Allocated(bs: seq<Block>, i: nat, off: nat, n: nat): seq<Block>
    requires i < |bs| && n > 0 && off + n <= bs[i].size
  {
    Mark(Trimmed(Headed(bs, i, off), Place(i, off), n), Place(i, off), true)
  }

  function MergedNext(bs: seq<Block>, j: nat, sub: nat): (s: seq<Block>)
    requires j < |bs| && sub > 0
    ensures j < |s|
  {
    if j + 1 < |bs| && Mergeable(bs[j], bs[j + 1], sub) then Merge(bs, j) else bs
  }

  function MergedPrev(bs: seq<Block>, j: nat, sub: nat): seq<Block>
    requires j < |bs| && sub > 0
  {
    if j > 0 && Mergeable(bs[j - 1], bs[j], sub) then Merge(bs, j - 1) else bs
  }

  function Freed(bs: seq<Block>, j: nat, sub: nat): seq<Block>
    requires j < |bs| && sub > 0
  {
    MergedPrev(MergedNext(Mark(bs, j, false), j, sub), j, sub)
  }

  ghost predicate Laid(bs: seq<Block>, total: nat, sub: nat) {
    sub > 0 && Tiled(bs, total) && Settled(bs, sub)
  }

  lemma DivBetween(lo: nat, x: nat, hi: nat, sub: nat)
    requires sub > 0 && lo <= x <= hi && lo / sub == hi / sub
    ensures x / sub == lo / sub
  {
    var q := lo / sub;
    assert q * sub <= lo && hi < q * sub + sub;
    QuotientIs(x, q, sub);
  }

  // The two parts of a block stay in its subpage.
  lemma PartsInSubpage(b: Block, at: nat, sub: nat)
    requires sub > 0 && InSubpage(b, sub) && 0 < at < b.size
    ensures InSubpage(Block(b.start, at, b.used), sub) && InSubpage(Block(b.start + at, b.size - at, b.used), sub)
    ensures (b.start + at) / sub == b.start / sub
  {
    DivBetween(b.start, b.start + at - 1, b.End() - 1, sub);
    DivBetween(b.start, b.start + at, b.End() - 1, sub);
  }

  // Like Settled, but neighbours k, k + 1 with lo <= k < hi may be mergeable.
  ghost predicate SettledOutside(bs: seq<Block>, lo: int, hi: int, sub: nat)
    requires sub > 0
  {
    && (forall i :: 0 <= i < |bs| ==> InSubpage(bs[i], sub))
    && (forall i, j :: 0 <= i && j == i + 1 && j < |bs| && !(lo <= i < hi) ==> !Mergeable(bs[i], bs[j], sub))
  }

  lemma SplitSettled(bs: seq<Block>, i: nat, at: nat, lo: int, sub: nat)
    requires sub > 0 && i < |bs| && 0 < at < bs[i].size && lo <= i && SettledOutside(bs, lo, i, sub)
    ensures SettledOutside(Split(bs, i, at), lo, i + 1, sub)
  {
    PartsInSubpage(bs[i], at, sub);
    hide Sub;
    var s := Split(bs, i, at);
    assert forall k :: 0 <= k < i ==> s[k] == bs[k];
    assert forall k :: i + 2 <= k < |s| ==> s[k] == bs[k - 1];
    assert i > 0 ==> Mergeable(s[i - 1], s[i], sub) == Mergeable(bs[i - 1], bs[i], sub);
    assert i + 1 < |bs| ==> Mergeable(s[i + 1], s[i + 2], sub) == Mergeable(bs[i], bs[i + 1], sub);
  }

  lemma MergeSettled(bs: seq<Block>, i: nat, lo: int, total: nat, sub: nat)
    requires sub > 0 && i + 1 < |bs| && lo <= i && SettledOutside(bs, lo, i + 1, sub)
    requires Tiled(bs, total) && Mergeable(bs[i], bs[i + 1], sub)
    ensures SettledOutside(Merge(bs, i), lo, i, sub)
  {
    hide Sub;
    var s := Merge(bs, i);
    assert forall k :: 0 <= k < i ==> s[k] == bs[k];
    assert forall k :: i + 1 <= k < |s| ==> s[k] == bs[k + 1];
    assert s[i].End() == bs[i + 1].End();
    assert i > 0 ==> Mergeable(s[i - 1], s[i], sub) == Mergeable(bs[i - 1], bs[i], sub);
    assert i + 2 < |bs| ==> Mergeable(s[i], s[i + 1], sub) == Mergeable(bs[i + 1], bs[i + 2], sub);
  }

  lemma SettledWider(bs: seq<Block>, lo: int, hi: int, sub: nat)
    requires sub > 0
    ensures SettledOutside(bs, lo, hi, sub) ==> SettledOutside(bs, lo, hi + 1, sub)
  {
  }

  lemma MarkUsedSettled(bs: seq<Block>, i: nat, j: nat, sub: nat)
    requires sub > 0 && i <= j <= i + 1 && j < |bs| && SettledOutside(bs, i, j + 1, sub)
    ensures Settled(Mark(bs, j, true), sub)
  {
    hide Sub;
    var s := Mark(bs, j, true);
    assert forall k :: 0 <= k < |s| ==>
             s[k].start == bs[k].start && s[k].size == bs[k].size && (bs[k].used ==> s[k].used);
  }

  lemma MarkFreeSettled(bs: seq<Block>, j: nat, sub: nat)
    requires sub > 0 && j < |bs| && Settled(bs, sub)
    ensures SettledOutside(Mark(bs, j, false), j - 1, j + 1, sub)
  {
    hide Sub;
  }

  // ---- what allocation keeps

  lemma AllocatedLaid(bs: seq<Block>, i: nat, off: nat, n: nat, total: nat, sub: nat)
    requires Laid(bs, total, sub) && i < |bs| && n > 0 && off + n <= bs[i].size && !bs[i].used
    ensures Laid(Allocated(bs, i, off, n), total, sub)
    ensures FreeBlocks(Allocated(bs, i, off, n)) == FreeBlocks(bs) - n
    ensures FreeChunks(Allocated(bs, i, off, n)) + 1
         == FreeChunks(bs) + (if off > 0 then 1 else 0) + (if off + n < bs[i].size then 1 else 0)
  {
    var j, s1 := Place(i, off), Headed(bs, i, off);
    assert SettledOutside(bs, i, i, sub);
    if off > 0 {
      SplitTiled(bs, i, off, total);
      SplitSettled(bs, i, off, i, sub);
      SplitCounts(bs, i, off);
    }
    assert Tiled(s1, total) && SettledOutside(s1, i, j, sub);
    TrimmedLaid(s1, i, j, n, total, sub);
  }

  lemma TrimmedLaid(bs: seq<Block>, i: nat, j: nat, n: nat, total: nat, sub: nat)
    requires sub > 0 && Tiled(bs, total) && i <= j <= i + 1 && j < |bs| && SettledOutside(bs, i, j, sub)
    requires 0 < n <= bs[j].size && !bs[j].used
    ensures var s := Mark(Trimmed(bs, j, n), j, true);
            && Laid(s, total, sub) && FreeBlocks(s) == FreeBlocks(bs) - n
            && FreeChunks(s) + 1 == FreeChunks(bs) + if n < bs[j].size then 1 else 0
  {
    var s2 := Trimmed(bs, j, n);
    if n < bs[j].size {
      SplitTiled(bs, j, n, total);
      SplitSettled(bs, j, n, i, sub);
      SplitCounts(bs, j, n);
    }
    hide Sub, Tiled, Settled, SettledOutside, Mark, Split, FreeBlocks, FreeChunks;
    MarkTiled(s2, j, true, total);
    MarkCounts(s2, j, true);
    SettledWider(s2, i, j, sub);
    MarkUsedSettled(s2, i, j, sub);
  }

  // ---- what release keeps

  lemma FreedLaid(bs: seq<Block>, j: nat, total: nat, sub: nat)
    requires Laid(bs, total, sub) && j < |bs| && bs[j].used
    ensures Laid(Freed(bs, j, sub), total, sub)
    ensures FreeBlocks(Freed(bs, j, sub)) == FreeBlocks(bs) + bs[j].size
    ensures FreeChunks(Freed(bs, j, sub)) + |bs| == FreeChunks(bs) + 1 + |Freed(bs, j, sub)|
  {
    var s1 := Mark(bs, j, false);
    var s2 := MergedNext(s1, j, sub);
    assert s1[j] == bs[j].(used := false);
    hide Sub, Tiled, Settled, SettledOutside, Mark, Merge, FreeBlocks, FreeChunks, Mergeable;
    MarkTiled(bs, j, false, total);
    MarkCounts(bs, j, false);
    MarkFreeSettled(bs, j, sub);
    NextLaid(s1, j, total, sub);
    PrevLaid(s2, j, total, sub);
  }

  lemma NextLaid(bs: seq<Block>, j: nat, total: nat, sub: nat)
    requires sub > 0 && j < |bs| && Tiled(bs, total) && SettledOutside(bs, j - 1, j + 1, sub)
    ensures Tiled(MergedNext(bs, j, sub), total) && SettledOutside(MergedNext(bs, j, sub), j - 1, j, sub)
    ensures FreeBlocks(MergedNext(bs, j, sub)) == FreeBlocks(bs)
    ensures FreeChunks(MergedNext(bs, j, sub)) + |bs| == FreeChunks(bs) + |MergedNext(bs, j, sub)|
  {
    if j + 1 < |bs| && Mergeable(bs[j], bs[j + 1], sub) {
      MergeTiled(bs, j, total);
      MergeSettled(bs, j, j - 1, total, sub);
      MergeCounts(bs, j);
    }
    hide Sub, Merge;
  }

  lemma PrevLaid(bs: seq<Block>, j: nat, total: nat, sub: nat)
    requires sub > 0 && j < |bs| && Tiled(bs, total) && SettledOutside(bs, j - 1, j, sub)
    ensures Laid(MergedPrev(bs, j, sub), total, sub)
    ensures FreeBlocks(MergedPrev(bs, j, sub)) == FreeBlocks(bs)
    ensures FreeChunks(MergedPrev(bs, j, sub)) + |bs| == FreeChunks(bs) + |MergedPrev(bs, j, sub)|
  {
    if j > 0 && Mergeable(bs[j - 1], bs[j], sub) {
      MergeTiled(bs, j - 1, total);
      MergeSettled(bs, j - 1, j - 1, total, sub);
      MergeCounts(bs, j - 1);
      SettledNow(Merge(bs, j - 1), j - 1, sub);
    }
    hide Sub, Merge;
  }

  lemma SettledNow(bs: seq<Block>, lo: int, sub: nat)
    requires sub > 0 && SettledOutside(bs, lo, lo, sub)
    ensures Settled(bs, sub)
  {
  }

  // Allocating a block and releasing it again restores the page.
  lemma AllocFree(bs: seq<Block>, i: nat, off: nat, n: nat, total: nat, sub: nat)
    requires Laid(bs, total, sub) && i < |bs| && n > 0 && off + n <= bs[i].size && !bs[i].used
    ensures Place(i, off) < |Allocated(bs, i, off, n)|
    ensures Freed(Allocated(bs, i, off, n), Place(i, off), sub) == bs
  {
    var j, s1 := Place(i, off), Headed(bs, i, off);
    var s2 := Trimmed(s1, j, n);
    assert Mark(Mark(s2, j, true), j, false) == s2;
    HeadUndone(bs, i, off, total, sub);
    hide Sub, Tiled, Settled, SettledOutside, Mark, Merge, Split, Mergeable, Headed, Trimmed, MergedNext, MergedPrev;
    TrimUndone(s1, i, j, n, sub);
  }

  lemma HeadUndone(bs: seq<Block>, i: nat, off: nat, total: nat, sub: nat)
    requires Laid(bs, total, sub) && i < |bs| && off < bs[i].size && !bs[i].used
    ensures MergedPrev(Headed(bs, i, off), Place(i, off), sub) == bs
    ensures SettledOutside(Headed(bs, i, off), i, Place(i, off), sub)
  {
    assert SettledOutside(bs, i, i, sub);
    if off > 0 {
      SplitSettled(bs, i, off, i, sub);
      PartsInSubpage(bs[i], off, sub);
      MergeSplit(bs, i, off);
    }
    hide Sub;
  }

  lemma TrimUndone(bs: seq<Block>, i: nat, j: nat, n: nat, sub: nat)
    requires sub > 0 && i <= j <= i + 1 && j < |bs| && SettledOutside(bs, i, j, sub) && 0 < n <= bs[j].size
             && !bs[j].used
    ensures MergedNext(Trimmed(bs, j, n), j, sub) == bs
  {
    if n < bs[j].size {
      PartsInSubpage(bs[j], n, sub);
      MergeSplit(bs, j, n);
    }
    hide Sub;
  }

  // ---- order of a tiled row

  lemma {:induction false} TiledOrder(bs: seq<Block>, total: nat, i: nat, j: nat)
    requires Tiled(bs, total) && i < j < |bs|
    ensures bs[i].End() <= bs[j].start
    decreases j
  {
    if i < j - 1 {
      TiledOrder(bs, total, i, j - 1);
    }
    assert bs[j].start == bs[j - 1].End();
  }

  lemma TiledEnd(bs: seq<Block>, total: nat, i: nat)
    requires Tiled(bs, total) && i < |bs|
    ensures bs[i].size > 0 && bs[i].End() <= total
  {
    if i < |bs| - 1 { TiledOrder(bs, total, i, |bs| - 1); }
  }

  lemma TiledStarts(bs: seq<Block>, total: nat, i: nat, j: nat)
    requires Tiled(bs, total) && i < j < |bs|
    ensures bs[i].start < bs[j].start
  {
    TiledOrder(bs, total, i, j);
  }

  // Releasing the block that an allocation handed out restores the page.
  lemma AllocThenFree(bs: seq<Block>, i: nat, off: nat, n: nat, j: nat, total: nat, sub: nat)
    requires Laid(bs, total, sub) && i < |bs| && n > 0 && off + n <= bs[i].size && !bs[i].used
    requires j < |Allocated(bs, i, off, n)| && Allocated(bs, i, off, n)[j] == Block(bs[i].start + off, n, true)
    ensures Freed(Allocated(bs, i, off, n), j, sub) == bs
  {
    var now, k := Allocated(bs, i, off, n), Place(i, off);
    assert now[k] == Block(bs[i].start + off, n, true);
    hide Allocated, Place, Freed, Settled, Tiled;
    AllocatedLaid(bs, i, off, n, total, sub);
    if j < k {
      TiledStarts(now, total, j, k);
    } else if k < j {
      TiledStarts(now, total, k, j);
    }
    AllocFree(bs, i, off, n, total, sub);
  }
}
