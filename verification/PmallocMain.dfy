// Allocation and release by address.
module PmallocMain {
  import opened Arithmetic
  import opened Common
  import opened PageTiling
  import opened ChunkList
  import opened Pmalloc
  import opened PmallocMap

  // ---- live chunks of one page

  // A live chunk has a place in the row.
  lemma PlaceOf(m: Chunks, order: seq<nat>, c: nat) returns (i: nat)
    requires Chain(m, order) && c in Live(m)
    ensures i < |order| && order[i] == c && View(m, order)[i] == Live(m)[c]
  {
    i :| 0 <= i < |order| && order[i] == c;
  }

  lemma LiveApart(m: Chunks, order: seq<nat>, total: nat)
    requires Chain(m, order) && Tiled(View(m, order), total)
    ensures ApartIn(Live(m), total)
  {
    hide Links, Covers, Distinct, View, Live, Tiled;
    var live, bs := Live(m), View(m, order);
    forall c | c in live ensures live[c].size > 0 && live[c].End() <= total {
      var i := PlaceOf(m, order, c);
      TiledEnd(bs, total, i);
    }
    forall c, d | c in live && d in live && c != d ensures live[c].End() <= live[d].start
        || live[d].End() <= live[c].start {
      var i := PlaceOf(m, order, c);
      var j := PlaceOf(m, order, d);
      if i < j { TiledOrder(bs, total, i, j); } else { TiledOrder(bs, total, j, i); }
    }
  }

  lemma PageLive(page: Page)
    requires page.Valid()
    ensures ApartIn(Live(page.chunks), page.blocks)
  {
    if page.order == [] {
      NoChunks(page.chunks, page.order);
    } else {
      LiveApart(page.chunks, page.order, page.blocks);
    }
  }

  // ---- alignment

  lemma SameRemainder(a: nat, q: nat, m: nat)
    requires m > 0
    ensures (a + q * m) % m == a % m
  {
    Quotient(a, m, a / m, a % m);
    Distribute(m, a / m, q);
    Quotient(a + q * m, m, a / m + q, a % m);
  }

  // An aligned block has an aligned address exactly when its page has one.
  lemma AlignedVa(base: nat, pageBlocks: nat, p: nat, start: nat, align: nat)
    requires align > 0 && start % align == 0
    ensures (Va(base, pageBlocks, p, start) - Va(base, pageBlocks, p, 0)) % (BLOCK * align) == 0
    ensures Va(base, pageBlocks, p, start) % (BLOCK * align) == 0 <==> Va(base, pageBlocks, p, 0) % (BLOCK * align) == 0
  {
    var q := start / align;
    assert BLOCK * start == q * (BLOCK * align);
    MultipleOf(BLOCK * start, q, BLOCK * align);
    SameRemainder(Va(base, pageBlocks, p, 0), q, BLOCK * align);
  }

  // Every page has an aligned address when the base is aligned to a page and the alignment divides a page.
  lemma AlignedPage(base: nat, pageBlocks: nat, p: nat, align: nat)
    requires align > 0 && pageBlocks > 0 && base % (BLOCK * pageBlocks) == 0 && pageBlocks % align == 0
    ensures Va(base, pageBlocks, p, 0) % (BLOCK * align) == 0
  {
    var m, q, c := BLOCK * pageBlocks, base / (BLOCK * pageBlocks), pageBlocks / align;
    assert base == m * q && pageBlocks == align * c;
    Distribute(m, q, p);
    assert Va(base, pageBlocks, p, 0) == m * (q + p);
    WholeMultiple(BLOCK * align, c, m, q + p);
    MultipleOf(m * (q + p), c * (q + p), BLOCK * align);
  }

  lemma WholeMultiple(a: nat, c: nat, m: nat, n: nat)
    requires m == a * c
    ensures m * n == (c * n) * a
  {
    Associate(a, c, n);
  }

  // The address is aligned relative to its page; it is aligned exactly when the page is, and so always when the base is
  // aligned to a page and the alignment divides a page.
  ghost predicate WellAligned(base: nat, pageBlocks: nat, p: nat, align: nat, va: nat)
    requires align > 0 && pageBlocks > 0
  {
    && (va - Va(base, pageBlocks, p, 0)) % (BLOCK * align) == 0
    && (va % (BLOCK * align) == 0 <==> Va(base, pageBlocks, p, 0) % (BLOCK * align) == 0)
    && (base % (BLOCK * pageBlocks) == 0 && pageBlocks % align == 0 ==> va % (BLOCK * align) == 0)
  }

  lemma GrantAligned(base: nat, pageBlocks: nat, p: nat, start: nat, align: nat)
    requires align > 0 && pageBlocks > 0 && start % align == 0
    ensures WellAligned(base, pageBlocks, p, align, Va(base, pageBlocks, p, start))
  {
    AlignedVa(base, pageBlocks, p, start, align);
    if base % (BLOCK * pageBlocks) == 0 && pageBlocks % align == 0 { AlignedPage(base, pageBlocks, p, align); }
  }

  lemma VaIs(base: nat, pageBlocks: nat, p: nat, start: nat)
    ensures Va(base, pageBlocks, p, start) == base + 64 * (p * pageBlocks + start)
  {
  }

  lemma MorePages(lives: Lives, byVa: map<nat, nat>, base: nat, pageBlocks: nat)
    requires Indexed(lives, byVa, base, pageBlocks)
    ensures Indexed(lives + [map[]], byVa, base, pageBlocks)
  {
    hide Va, PageOf, ApartIn, Owned, Recorded;
    var more: Lives := lives + [map[]];
    NoneApart(pageBlocks);
    MoreRecorded(lives, byVa, base, pageBlocks);
    forall a | a in byVa ensures Owned(more, byVa, base, pageBlocks, a) {
      MoreOwned(lives, byVa, base, pageBlocks, a);
    }
    assert forall p :: 0 <= p < |lives| ==> more[p] == lives[p];
  }

  lemma MoreRecorded(lives: Lives, byVa: map<nat, nat>, base: nat, pageBlocks: nat)
    requires Recorded(lives, byVa, base, pageBlocks)
    ensures Recorded(lives + [map[]], byVa, base, pageBlocks)
  {
    hide Va;
    var more: Lives := lives + [map[]];
    assert forall p {:trigger more[p]} :: 0 <= p < |lives| ==> more[p] == lives[p];
  }

  lemma MoreOwned(lives: Lives, byVa: map<nat, nat>, base: nat, pageBlocks: nat, a: nat)
    requires pageBlocks > 0 && a in byVa && Owned(lives, byVa, base, pageBlocks, a)
    ensures Owned(lives + [map[]], byVa, base, pageBlocks, a)
  {
    hide Va, PageOf;
  }

  lemma NoneApart(pageBlocks: nat)
    ensures ApartIn(map[], pageBlocks)
  {
  }

  class PmallocMain {
    const base: nat
    const pageBlocks: nat
    var pages: seq<Page>
    var chunkIndexByVa: map<nat, nat>

    ghost function Lives(): Lives
      reads this, pages
    {
      seq(|pages|, p requires 0 <= p < |pages| reads this, pages => Live(pages[p].chunks))
    }

    ghost predicate PagesOk()
      reads this, pages
    {
      && (forall i, j :: 0 <= i < j < |pages| ==> pages[i] != pages[j])
      && (forall p :: 0 <= p < |pages| ==> pages[p].Valid() && pages[p].blocks == pageBlocks)
    }

    ghost predicate Valid()
      reads this, pages
    {
      pageBlocks > 0 && PagesOk() && Indexed(Lives(), chunkIndexByVa, base, pageBlocks)
    }

    constructor (base: nat, pageBlocks: nat)
      requires pageBlocks > 0
      ensures Valid() && pages == [] && chunkIndexByVa == map[] && this.base == base && this.pageBlocks == pageBlocks
    {
      this.base, this.pageBlocks := base, pageBlocks;
      pages, chunkIndexByVa := [], map[];
    }

    // The bookkeeping of map_pages for one page, mapped by the caller.
    method AddPage(subpages: nat, sub: nat)
      requires Valid() && subpages > 0 && sub > 0 && Times(subpages, sub) == pageBlocks
      modifies this`pages
      ensures Valid() && |pages| == |old(pages)| + 1 && pages[..|old(pages)|] == old(pages)
              && fresh(pages[|old(pages)|])
      ensures pages[|old(pages)|].Valid() && pages[|old(pages)|].Blocks() == Untouched(subpages, sub)
      ensures Lives() == old(Lives()) + [map[]]
    {
      var page := new Page(subpages, sub);
      ghost var lives := Lives();
      pages := pages + [page];
      assert Lives() == lives + [map[]];
      MorePages(lives, chunkIndexByVa, base, pageBlocks);
    }

    // alloc_chunk_from_page
    method Alloc(p: nat, n: nat, align: nat)
      returns (va: Option<nat>, ghost index: nat, ghost i: nat, ghost start: nat)
      requires Valid() && p < |pages| && n > 0 && align > 0
      modifies this`chunkIndexByVa, pages[p]
      ensures Valid()
      ensures va.None? <==> NoRoom(old(pages[p].Blocks()), n, align)
      ensures va.None? ==>
                && Lives() == old(Lives()) && chunkIndexByVa == old(chunkIndexByVa)
                && pages[p].Blocks() == old(pages[p].Blocks())
      ensures va.Some? ==>
                && LowestRoom(old(pages[p].Blocks()), i, start, n, align)
                && pages[p].Blocks() == Allocated(old(pages[p].Blocks()), i, start - old(pages[p].Blocks())[i].start, n)
                && index !in old(Lives())[p] && Lives() == WithLive(old(Lives()), p, index, Block(start, n, true))
                && va.value == Va(base, pageBlocks, p, start) == base + 64 * (p * pageBlocks + start)
                && va.value !in old(chunkIndexByVa)
                && chunkIndexByVa == old(chunkIndexByVa)[va.value := index] && start + n <= pageBlocks
                && WellAligned(base, pageBlocks, p, align, va.value)
    {
      hide Indexed, Va, Allocated, Untouched, Page.Valid, NoRoom, LowestRoom, ApartIn, Offset, WellAligned;
      ghost var lives := Lives();
      ghost var bs := pages[p].Blocks();
      var r;
      r, i, start := pages[p].AllocChunk(n, align);
      index := 0;
      assert Lives()[p] == Live(pages[p].chunks);
      assert forall q :: 0 <= q < |pages| && q != p ==> Lives()[q] == lives[q];
      if r.None? {
        assert Lives() == lives;
        return None, 0, 0, 0;
      }
      FitOf(bs, i, start, n, align);
      index := r.value;
      assert Lives() == WithLive(lives, p, index, Block(start, n, true));
      GrantAligned(base, pageBlocks, p, start, align);
      VaIs(base, pageBlocks, p, start);
      PageLive(pages[p]);
      LiveBounds(Live(pages[p].chunks), pageBlocks, index);
      Register(lives, chunkIndexByVa, base, pageBlocks, p, index, Block(start, n, true));
      var address := Va(base, pageBlocks, p, pages[p].chunks[r.value].start);
      chunkIndexByVa := chunkIndexByVa[address := r.value];
      assert Lives() == WithLive(lives, p, index, Block(start, n, true));
      va := Some(address);
    }

    // free
    method Free(va: nat)
      requires Valid() && va in chunkIndexByVa
      modifies this`chunkIndexByVa, pages
      ensures Valid() && pages == old(pages)
      ensures chunkIndexByVa == old(chunkIndexByVa) - {va}
      ensures var p := PageOf(base, pageBlocks, va);
              p < |pages| && Lives() == WithoutLive(old(Lives()), p, old(chunkIndexByVa)[va])
    {
      hide Va, PageOf, Untouched, Page.Valid, ApartIn, Freed, Live, Recorded;
      ghost var lives := Lives();
      assert Owned(lives, chunkIndexByVa, base, pageBlocks, va);
      OwnerPage(lives, chunkIndexByVa, base, pageBlocks, va);
      Deregister(lives, chunkIndexByVa, base, pageBlocks, va);
      var index := chunkIndexByVa[va];
      chunkIndexByVa := chunkIndexByVa - {va};
      var p := PageOf(base, pageBlocks, va);
      assert lives[p] == Live(pages[p].chunks);
      ghost var j := pages[p].FreeChunk(index);
      assert forall q :: 0 <= q < |pages| && q != p ==> Lives()[q] == lives[q];
      assert Lives() == WithoutLive(lives, p, index);
    }
  }

  // An alignment beyond the page size is accepted, and missed on a page whose own address is not aligned to it: with
  // pages of 4096 bytes from address 8192 on, an alignment of 8192 bytes asked for on page 1.
  method MissedAlignment() returns (main: PmallocMain, va: Option<nat>)
    ensures fresh(main) && main.Valid() && main.base == 8192 && main.pageBlocks == 64
    ensures va == Some(12288) && 12288 % (BLOCK * 128) != 0
  {
    hide PmallocMain.Valid, Page.Valid, Untouched;
    main := new PmallocMain(8192, 64);
    main.AddPage(1, 64);
    main.AddPage(1, 64);
    ghost var index, i, start;
    assert RoomAt(main.pages[1].Blocks()[0], 0, 1, 128);
    va, index, i, start := main.Alloc(1, 1, 128);
    assert va.value - Va(8192, 64, 1, 0) == 64 * start && start < 64;
    assert (64 * start) % 8192 == 0;
  }
}
