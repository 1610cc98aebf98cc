// The page allocator: the chunks inside one page.
module Pmalloc {
  import opened Arithmetic
  import opened Common
  import opened PageTiling
  import opened ChunkList

  // An untouched page: one free chunk per subpage.
  function Untouched(subpages: nat, sub: nat): (bs: seq<Block>)
    ensures |bs| == subpages && forall k {:trigger bs[k]} :: 0 <= k < subpages ==>
              bs[k] == Block(Times(k, sub), sub, false)
  {
    seq(subpages, k requires 0 <= k < subpages => Block(Times(k, sub), sub, false))
  }

  function Times(k: nat, sub: nat): nat {
    k * sub
  }

  lemma TimesNext(k: nat, sub: nat)
    ensures Times(k + 1, sub) == Times(k, sub) + sub && Times(0, sub) == 0
    ensures sub > 0 ==> Sub(Times(k, sub), sub) == k && Sub(Times(k, sub) + sub - 1, sub) == k
  {
    if sub > 0 {
      QuotientIs(k * sub, k, sub);
      QuotientIs(k * sub + sub - 1, k, sub);
    }
  }

  lemma UntouchedLaid(subpages: nat, sub: nat)
    requires subpages > 0 && sub > 0
    ensures Laid(Untouched(subpages, sub), Times(subpages, sub), sub)
  {
    var bs := Untouched(subpages, sub);
    forall k | 0 <= k < subpages
      ensures Times(k + 1, sub) == Times(k, sub) + sub && InSubpage(bs[k], sub) && Sub(bs[k].start, sub) == k
    {
      TimesNext(k, sub);
    }
    TimesNext(0, sub);
    hide Times, Sub, Untouched;
    assert bs[|bs| - 1].End() == Times(subpages, sub);
  }

  lemma {:induction false} UntouchedCounts(subpages: nat, sub: nat)
    ensures FreeBlocks(Untouched(subpages, sub)) == Times(subpages, sub)
            && FreeChunks(Untouched(subpages, sub)) == subpages
  {
    TimesNext(0, sub);
    if subpages > 0 {
      var bs := Untouched(subpages, sub);
      assert bs[..subpages - 1] == Untouched(subpages - 1, sub);
      UntouchedCounts(subpages - 1, sub);
      TimesNext(subpages - 1, sub);
    }
  }

  lemma {:induction false} FreeAtLeast(bs: seq<Block>, k: nat)
    requires k < |bs|
    ensures FreeSize(bs[k]) <= FreeBlocks(bs)
  {
    if k < |bs| - 1 { FreeAtLeast(bs[..|bs| - 1], k); }
  }

  class Page {
    const blocks: nat
    const subpages: nat
    const sub: nat
    var chunks: Chunks
    var first: nat
    var nFreeChunks: nat
    var nFreeBlocks: nat
    ghost var order: seq<nat>

    ghost predicate Listed()
      reads this
    {
      Chain(chunks, order)
    }

    ghost function Row(): seq<Block>
      requires Listed()
      reads this
    {
      View(chunks, order)
    }

    ghost predicate Valid()
      reads this
    {
      && subpages > 0 && sub > 0 && blocks == Times(subpages, sub) && Listed()
      && (order == [] ==> nFreeBlocks == blocks)
      && (order != [] ==>
            && first == order[0] && Laid(Row(), blocks, sub)
            && nFreeBlocks == FreeBlocks(Row()) && nFreeChunks == FreeChunks(Row()))
    }

    // The blocks of the page; a page whose chunks are not yet made counts as untouched.
    ghost function Blocks(): seq<Block>
      requires Valid()
      reads this
    {
      if order == [] then Untouched(subpages, sub) else Row()
    }

    constructor (subpages: nat, sub: nat)
      requires subpages > 0 && sub > 0
      ensures Valid() && Blocks() == Untouched(subpages, sub) && Live(chunks) == map[]
      ensures this.subpages == subpages && this.sub == sub
    {
      this.subpages, this.sub, this.blocks := subpages, sub, Times(subpages, sub);
      chunks, order, first, nFreeChunks, nFreeBlocks := map[], [], 0, 0, Times(subpages, sub);
    }

    // A free chunk at the end of the list.
    method AppendChunk(previous: Option<nat>, start: nat, size: nat) returns (index: nat)
      requires Listed() && previous == Neighbour(order, |order| - 1)
      modifies this`chunks, this`first, this`order
      ensures Listed() && order == old(order) + [index] && Row() == old(Row()) + [Block(start, size, false)]
      ensures Live(chunks) == old(Live(chunks)) && first == if previous.None? then index else old(first)
    {
      assert previous.Some? ==> previous.value in chunks;
      ghost var m := chunks;
      FreshIndex(chunks.Keys);
      hide Chain, View, Live;
      index :| index !in chunks;
      chunks := chunks[index := Chunk(start, previous, None, size, false)];
      if previous.None? {
        first := index;
      } else {
        chunks := chunks[previous.value := chunks[previous.value].(next := Some(index))];
      }
      AppendChain(m, chunks, order, index, start, size);
      order := order + [index];
    }

    // One chunk per subpage, on the first allocation.
    method MakeChunks()
      requires Valid() && order == []
      modifies this
      ensures Valid() && order != [] && Blocks() == old(Blocks()) && Live(chunks) == old(Live(chunks))
    {
      var perChunk := nFreeBlocks / subpages;
      assert perChunk == sub by { QuotientIs(sub * subpages, sub, subpages); }
      var previous: Option<nat> := None;
      assert chunks == map[] by { assert forall c :: c in chunks ==> c in order; }
      TimesNext(0, sub);
      hide Chain, View, Live, Times, Laid, FreeBlocks, FreeChunks;
      assert Row() == [] == Untouched(0, sub);
      for number := 0 to subpages
        invariant Listed() && Row() == Untouched(number, sub) && |order| == number
        invariant previous == Neighbour(order, |order| - 1) && (number > 0 ==> first == order[0])
        invariant Live(chunks) == old(Live(chunks)) && nFreeBlocks == old(nFreeBlocks)
      {
        var index := AppendChunk(previous, Times(number, perChunk), perChunk);
        previous := Some(index);
        assert Row() == Untouched(number + 1, sub);
      }
      nFreeChunks := subpages;
      UntouchedLaid(subpages, sub);
      UntouchedCounts(subpages, sub);
    }

    // Cuts chunk `x`, at place `i`, after `at` blocks.
    method SplitAfter(x: nat, at: nat, ghost i: nat) returns (added: nat)
      requires Listed() && i < |order| && order[i] == x && at <= Row()[i].size && !Row()[i].used
      modifies this`chunks, this`nFreeChunks, this`order
      ensures Listed() && order == Inserted(old(order), i, added) && Row() == Split(old(Row()), i, at)
      ensures Live(chunks) == old(Live(chunks)) && nFreeChunks == old(nFreeChunks) + 1
    {
      ghost var m := chunks;
      RowAt(i);
      LinksAt(m, order, i);
      FreshIndex(chunks.Keys);
      hide Chain, View, Live, Split, Inserted, Neighbour;
      var chunk := chunks[x];
      added :| added !in chunks;
      chunks := chunks[added := Chunk(chunk.start + at, Some(x), chunk.next, chunk.size - at, false)];
      chunks := chunks[x := chunks[x].(size := at)];
      chunks := chunks[x := chunks[x].(next := Some(added))];
      if chunk.next.Some? {
        chunks := chunks[chunk.next.value := chunks[chunk.next.value].(prev := Some(added))];
      }
      nFreeChunks := nFreeChunks + 1;
      SplitChain(m, chunks, order, i, added, at);
      order := Inserted(order, i, added);
    }

    // Joins chunk `x`, at place `i`, with the chunk after it.
    method AbsorbNext(x: nat, ghost i: nat)
      requires Listed() && i + 1 < |order| && order[i] == x && !Row()[i].used && !Row()[i + 1].used && nFreeChunks > 0
      modifies this`chunks, this`nFreeChunks, this`order
      ensures Listed() && order == Removed(old(order), i + 1) && Row() == Merge(old(Row()), i)
      ensures Live(chunks) == old(Live(chunks)) && nFreeChunks == old(nFreeChunks) - 1
    {
      ghost var m := chunks;
      RowAt(i);
      RowAt(i + 1);
      LinksAt(m, order, i);
      LinksAt(m, order, i + 1);
      hide Chain, View, Live, Merge, Removed, Neighbour;
      var y := chunks[x].next.value;
      var next, size := chunks[y].next, chunks[y].size;
      chunks := chunks[x := chunks[x].(size := chunks[x].size + size)];
      chunks := chunks[x := chunks[x].(next := next)];
      if next.Some? {
        chunks := chunks[next.value := chunks[next.value].(prev := Some(x))];
      }
      chunks := chunks - {y};
      nFreeChunks := nFreeChunks - 1;
      MergeChain(m, chunks, order, i);
      order := Removed(order, i + 1);
    }

    // The first chunk, in list order, that holds the blocks at the alignment.
    method FindFit(n: nat, align: nat) returns (found: Option<nat>, ghost i: nat)
      requires Valid() && order != [] && align > 0
      ensures found.None? <==> NoRoom(Row(), n, align)
      ensures found.Some? ==>
                && i < |order| && order[i] == found.value
                && LowestRoom(Row(), i, Row()[i].start + Offset(Row()[i].start, align), n, align)
    {
      hide Fits, Offset, RoomAt;
      var index := first;
      i := 0;
      while true
        invariant i < |order| && order[i] == index
        invariant NoRoom(Row()[..i], n, align)
        decreases |order| - i
      {
        assert LinkedAt(chunks, order, i) && Row()[i] == chunks[index].AsBlock();
        var chunk := chunks[index];
        var offset := Offset(chunk.start, align);
        FitsHere(Row(), i, n, align);
        if !chunk.used && n + offset <= chunk.size { return Some(index), i; }
        if chunk.next.None? { return None, i; }
        index := chunk.next.value;
        i := i + 1;
      }
    }

    // The blocks skipped for alignment become a free chunk of their own.
    method CutHead(fit: nat, offset: nat, ghost i: nat) returns (index: nat)
      requires Listed() && i < |order| && order[i] == fit && offset < Row()[i].size && !Row()[i].used
      modifies this`chunks, this`nFreeChunks, this`order
      ensures Listed() && Row() == Headed(old(Row()), i, offset) && Place(i, offset) < |order|
              && order[Place(i, offset)] == index
      ensures order[0] == old(order)[0]
      ensures Live(chunks) == old(Live(chunks)) && nFreeChunks == old(nFreeChunks) + if offset > 0 then 1 else 0
    {
      hide Chain, View, Live, Split;
      index := fit;
      if offset != 0 {
        index := SplitAfter(index, offset, i);
      }
    }

    // The blocks beyond `n` become a free chunk of their own.
    method CutTail(index: nat, n: nat, ghost j: nat)
      requires Listed() && j < |order| && order[j] == index && 0 < n <= Row()[j].size && !Row()[j].used
      modifies this`chunks, this`nFreeChunks, this`order
      ensures Listed() && Row() == Trimmed(old(Row()), j, n) && j < |order| && order[j] == index
      ensures order[0] == old(order)[0]
      ensures Live(chunks) == old(Live(chunks)) && nFreeChunks == old(nFreeChunks) + if old(Row())[j].size > n then 1
              else 0
    {
      RowAt(j);
      hide Chain, View, Live, Split;
      if chunks[index].size > n {
        var tail := SplitAfter(index, n, j);
      }
    }

    // The chunk at place `j` is handed out.
    method Take(index: nat, ghost j: nat)
      requires Listed() && j < |order| && order[j] == index && !Row()[j].used && Row()[j].size <= nFreeBlocks
               && nFreeChunks > 0
      modifies this`chunks, this`nFreeChunks, this`nFreeBlocks
      ensures Listed() && Row() == Mark(old(Row()), j, true) && index in chunks && index !in old(Live(chunks))
      ensures Live(chunks) == old(Live(chunks))[index := old(Row())[j].(used := true)]
      ensures nFreeChunks == old(nFreeChunks) - 1 && nFreeBlocks == old(nFreeBlocks) - old(Row())[j].size
    {
      RowAt(j);
      hide Chain, View, Live, Mark;
      MarkChain(chunks, order, j, true);
      nFreeBlocks := nFreeBlocks - chunks[index].size;
      nFreeChunks := nFreeChunks - 1;
      chunks := chunks[index := chunks[index].(used := true)];
    }

    // Splits the fitting chunk around the blocks it gives and marks them used.
    method Carve(fit: nat, n: nat, align: nat, ghost i: nat) returns (index: nat)
      requires Valid() && n > 0 && align > 0 && i < |order| && order[i] == fit && Fits(Row()[i], n, align)
      modifies this
      ensures Valid() && order != []
      ensures var bs := old(Row());
              var off := Offset(bs[i].start, align);
              && Row() == Allocated(bs, i, off, n) && index !in old(Live(chunks)) && index in chunks
              && Live(chunks) == old(Live(chunks))[index := Block(bs[i].start + off, n, true)]
    {
      hide Chain, View, Live, Laid, FreeBlocks, FreeChunks, Split, Offset, Mark, Headed, Trimmed, Place, Times;
      ghost var bs := Row();
      RowAt(i);
      var offset := Offset(chunks[fit].start, align);
      AllocatedLaid(bs, i, offset, n, blocks, sub);
      FreeSome(bs, i);
      ghost var j := Place(i, offset);
      index := CutHead(fit, offset, i);
      CutTail(index, n, j);
      Take(index, j);
    }

    // alloc_chunk_from_page, up to the address
    method AllocChunk(n: nat, align: nat) returns (r: Option<nat>, ghost i: nat, ghost start: nat)
      requires Valid() && n > 0 && align > 0
      modifies this
      ensures Valid()
      ensures r.None? ==> Refused(old(Blocks()), Blocks(), old(Live(chunks)), Live(chunks), n, align)
      ensures r.Some? ==>
                && Granted(old(Blocks()), Blocks(), old(Live(chunks)), Live(chunks), n, align, i, start, r.value)
                && r.value in chunks
    {
      hide Chain, View, Live, Laid, FreeBlocks, FreeChunks, Fits, Allocated, Untouched, Times, NoRoom, LowestRoom;
      hide Offset;
      i, start := 0, 0;
      NoChunks(chunks, order);
      if chunks == map[] {
        MakeChunks();
      }
      if nFreeBlocks < n {
        NothingFits(Row(), n, align);
        return None, 0, 0;
      }
      var found;
      found, i := FindFit(n, align);
      if found.None? { return None, i, 0; }
      start := Row()[i].start + Offset(Row()[i].start, align);
      FitOf(Row(), i, start, n, align);
      var index := Carve(found.value, n, align, i);
      r := Some(index);
    }

    // A free neighbour in the same subpage is joined on.
    method JoinNext(index: nat, ghost j: nat)
      requires Listed() && j < |order| && order[j] == index && !Row()[j].used && sub > 0 && nFreeChunks > 0
      modifies this`chunks, this`nFreeChunks, this`order
      ensures Listed() && Row() == MergedNext(old(Row()), j, sub) && j < |order| && order[j] == index
              && order[0] == old(order)[0]
      ensures Live(chunks) == old(Live(chunks)) && nFreeChunks + |old(Row())| == old(nFreeChunks) + |Row()|
    {
      hide Chain, View, Live, Merge;
      RowAt(j);
      LinksAt(chunks, order, j);
      var next := chunks[index].next;
      if next.Some? { RowAt(j + 1); }
      if next.Some? && !chunks[next.value].used && chunks[next.value].start / sub == chunks[index].start / sub {
        AbsorbNext(index, j);
        MergeLength(old(Row()), j);
      }
    }

    method JoinPrev(index: nat, ghost j: nat)
      requires Listed() && j < |order| && order[j] == index && !Row()[j].used && sub > 0 && nFreeChunks > 0
      modifies this`chunks, this`nFreeChunks, this`order
      ensures Listed() && Row() == MergedPrev(old(Row()), j, sub) && order != [] && order[0] == old(order)[0]
      ensures Live(chunks) == old(Live(chunks)) && nFreeChunks + |old(Row())| == old(nFreeChunks) + |Row()|
    {
      hide Chain, View, Live, Merge;
      RowAt(j);
      LinksAt(chunks, order, j);
      var prev := chunks[index].prev;
      if prev.Some? { RowAt(j - 1); }
      if prev.Some? && !chunks[prev.value].used && chunks[prev.value].start / sub == chunks[index].start / sub {
        AbsorbNext(prev.value, j - 1);
        MergeLength(old(Row()), j - 1);
      }
    }

    // The chunk at place `j` is no longer handed out.
    method Release(index: nat, ghost j: nat)
      requires Listed() && j < |order| && order[j] == index && Row()[j].used
      modifies this`chunks, this`nFreeChunks, this`nFreeBlocks
      ensures Listed() && Row() == Mark(old(Row()), j, false) && Live(chunks) == old(Live(chunks)) - {index}
      ensures nFreeChunks == old(nFreeChunks) + 1 && nFreeBlocks == old(nFreeBlocks) + old(Row())[j].size
    {
      hide Chain, View, Live, Mark;
      RowAt(j);
      MarkChain(chunks, order, j, false);
      chunks := chunks[index := chunks[index].(used := false)];
      nFreeBlocks := nFreeBlocks + chunks[index].size;
      nFreeChunks := nFreeChunks + 1;
    }

    // free, on the page that holds the chunk
    method FreeChunk(index: nat) returns (ghost j: nat)
      requires Valid() && index in Live(chunks)
      modifies this
      ensures Valid() && j < |old(Blocks())| && old(Blocks())[j] == old(Live(chunks))[index]
      ensures Blocks() == Freed(old(Blocks()), j, sub) && Live(chunks) == old(Live(chunks)) - {index}
    {
      hide View, Laid, FreeBlocks, FreeChunks, Mark, MergedNext, MergedPrev, Times, Untouched;
      assert index in order;
      j :| 0 <= j < |order| && order[j] == index;
      RowAt(j);
      assert Row()[j] == Live(chunks)[index];
      hide Chain, Live;
      ghost var bs := Row();
      FreedLaid(bs, j, blocks, sub);
      Release(index, j);
      assert !Row()[j].used by { MarkedFree(bs, j); }
      JoinNext(index, j);
      assert !Row()[j].used && nFreeChunks > 0 by { StillFree(bs, j, blocks, sub); MarkedFree(bs, j); }
      JoinPrev(index, j);
    }

    lemma RowAt(j: nat)
      requires Listed() && j < |order|
      ensures order[j] in chunks && Row()[j] == chunks[order[j]].AsBlock()
      ensures !Row()[j].used ==> order[j] !in Live(chunks)
    {
    }
  }

  // No free block holds `n` aligned blocks anywhere.
  ghost predicate NoRoom(bs: seq<Block>, n: nat, align: nat)
    requires align > 0
  {
    forall k, x :: 0 <= k < |bs| ==> !RoomAt(bs[k], x, n, align)
  }

  // Block i is the first one with room, and x the lowest place in it.
  ghost predicate LowestRoom(bs: seq<Block>, i: nat, x: nat, n: nat, align: nat)
    requires align > 0
  {
    && i < |bs| && NoRoom(bs[..i], n, align)
    && RoomAt(bs[i], x, n, align) && forall y :: RoomAt(bs[i], y, n, align) ==> x <= y
  }

  // What the search learns at block i.
  lemma FitsHere(bs: seq<Block>, i: nat, n: nat, align: nat)
    requires align > 0 && i < |bs| && NoRoom(bs[..i], n, align)
    ensures var b := bs[i];
            if !b.used && n + Offset(b.start, align) <= b.size
            then LowestRoom(bs, i, b.start + Offset(b.start, align), n, align) && !NoRoom(bs, n, align)
            else NoRoom(bs[..i + 1], n, align) && (i + 1 == |bs| ==> NoRoom(bs, n, align))
  {
    hide Offset, RoomAt;
    FitsMeans(bs[i], n, align);
  }

  // No free chunk holds `n` blocks at the alignment, and nothing changed.
  ghost predicate Refused(was: seq<Block>, now: seq<Block>, live: map<nat, Block>, live': map<nat, Block>, n: nat,
                          align: nat)
    requires align > 0
  {
    now == was && live' == live && NoRoom(was, n, align)
  }

  // The first chunk with room gave `n` blocks from `start` on, which are now live under `index`.
  ghost predicate Granted(was: seq<Block>, now: seq<Block>, live: map<nat, Block>, live': map<nat, Block>, n: nat,
                          align: nat, i: nat, start: nat, index: nat)
    requires align > 0 && n > 0
  {
    && LowestRoom(was, i, start, n, align) && now == Allocated(was, i, start - was[i].start, n)
    && index !in live && live' == live[index := Block(start, n, true)]
  }

  lemma FreeSome(bs: seq<Block>, i: nat)
    requires i < |bs| && !bs[i].used
    ensures FreeBlocks(bs) >= bs[i].size && FreeChunks(bs) >= 1
  {
    FreeAtLeast(bs, i);
    ChunkAtLeast(bs, i);
  }

  lemma {:induction false} ChunkAtLeast(bs: seq<Block>, k: nat)
    requires k < |bs|
    ensures FreeCount(bs[k]) <= FreeChunks(bs)
  {
    if k < |bs| - 1 { ChunkAtLeast(bs[..|bs| - 1], k); }
  }

  // The neighbours of a listed chunk.
  lemma LinksAt(m: Chunks, order: seq<nat>, i: nat)
    requires Chain(m, order) && i < |order|
    ensures order[i] in m && m[order[i]].prev == Neighbour(order, i - 1) && m[order[i]].next == Neighbour(order, i + 1)
    ensures m[order[i]].next.Some? <==> i + 1 < |order|
    ensures m[order[i]].prev.Some? <==> i > 0
    ensures m[order[i]].next.Some? ==>
              m[order[i]].next.value == order[i + 1] && order[i + 1] in m && order[i + 1] != order[i]
    ensures m[order[i]].prev.Some? ==>
              m[order[i]].prev.value == order[i - 1] && order[i - 1] in m && order[i - 1] != order[i]
    ensures i + 2 < |order| ==> order[i + 2] != order[i]
  {
    assert LinkedAt(m, order, i);
  }

  lemma FitOf(bs: seq<Block>, i: nat, start: nat, n: nat, align: nat)
    requires align > 0 && LowestRoom(bs, i, start, n, align)
    ensures i < |bs| && Fits(bs[i], n, align) && start == bs[i].start + Offset(bs[i].start, align)
    ensures start % align == 0 && !bs[i].used && Offset(bs[i].start, align) + n <= bs[i].size && !NoRoom(bs, n, align)
  {
    hide Offset;
    FitsMeans(bs[i], n, align);
  }

  lemma MergeLength(bs: seq<Block>, i: nat)
    requires i + 1 < |bs|
    ensures |Merge(bs, i)| == |bs| - 1
  {
  }

  lemma MarkedFree(bs: seq<Block>, j: nat)
    requires j < |bs|
    ensures |Mark(bs, j, false)| == |bs| && !Mark(bs, j, false)[j].used
  {
  }

  lemma StillFree(bs: seq<Block>, j: nat, total: nat, sub: nat)
    requires Laid(bs, total, sub) && j < |bs| && bs[j].used
    ensures var s := MergedNext(Mark(bs, j, false), j, sub);
            j < |s| && !s[j].used && FreeChunks(s) >= 1 && FreeChunks(s) + |bs| == FreeChunks(bs) + 1 + |s|
  {
    var s1 := Mark(bs, j, false);
    var s := MergedNext(s1, j, sub);
    assert j < |s| && !s[j].used;
    hide Tiled, SettledOutside, FreeBlocks, FreeChunks, MergedNext, Mark;
    MarkTiled(bs, j, false, total);
    MarkCounts(bs, j, false);
    MarkFreeSettled(bs, j, sub);
    NextLaid(s1, j, total, sub);
    MarkedFree(bs, j);
    FreeSome(s, j);
  }

  lemma NoChunks(m: Chunks, order: seq<nat>)
    requires Chain(m, order)
    ensures order == [] <==> m == map[]
  {
    if order == [] {
      assert forall c :: c in m ==> c in order;
    } else {
      assert order[0] in m;
    }
  }

  lemma NothingFits(bs: seq<Block>, n: nat, align: nat)
    requires align > 0 && FreeBlocks(bs) < n
    ensures NoRoom(bs, n, align)
  {
    forall k, x | 0 <= k < |bs| ensures !RoomAt(bs[k], x, n, align) {
      FreeAtLeast(bs, k);
    }
  }
}
