// Addresses of live chunks over all pages, and the map that finds a chunk by its address.
module PmallocMap {
  import opened Arithmetic
  import opened PageTiling
  import opened Pmalloc

  const BLOCK: nat := 64

  // The address of block `start` of page `p`, and the page an address belongs to.
  function Va(base: nat, pageBlocks: nat, p: nat, start: nat): nat {
    base + BLOCK * (Times(p, pageBlocks) + start)
  }

  function PageOf(base: nat, pageBlocks: nat, va: nat): nat
    requires pageBlocks > 0 && base <= va
  {
    (va - base) / (BLOCK * pageBlocks)
  }

  lemma PageOfVa(base: nat, pageBlocks: nat, p: nat, start: nat)
    requires start < pageBlocks
    ensures PageOf(base, pageBlocks, Va(base, pageBlocks, p, start)) == p
  {
    var size, x := BLOCK * pageBlocks, BLOCK * (p * pageBlocks + start);
    assert x == p * size + BLOCK * start;
    QuotientIs(x, p, size);
  }

  // An address names one page and one block in it.
  lemma VaInjective(base: nat, pageBlocks: nat, p: nat, start: nat, q: nat, other: nat)
    requires start < pageBlocks && other < pageBlocks
             && Va(base, pageBlocks, p, start) == Va(base, pageBlocks, q, other)
    ensures p == q && start == other
  {
    PageOfVa(base, pageBlocks, p, start);
    PageOfVa(base, pageBlocks, q, other);
  }

  type Lives = seq<map<nat, Block>>

  // Live blocks lie inside their page and keep apart.
  ghost predicate ApartIn(live: map<nat, Block>, pageBlocks: nat) {
    && (forall c :: c in live ==> live[c].size > 0 && live[c].End() <= pageBlocks)
    && (forall c, d :: c in live && d in live && c != d ==>
        live[c].End() <= live[d].start || live[d].End() <= live[c].start)
  }

  ghost predicate Recorded(lives: Lives, byVa: map<nat, nat>, base: nat, pageBlocks: nat) {
    forall p, c {:trigger c in lives[p]} :: 0 <= p < |lives| && c in lives[p] ==>
      && Va(base, pageBlocks, p, lives[p][c].start) in byVa && byVa[Va(base, pageBlocks, p, lives[p][c].start)] == c
  }

  ghost predicate Owned(lives: Lives, byVa: map<nat, nat>, base: nat, pageBlocks: nat, va: nat)
    requires pageBlocks > 0 && va in byVa
  {
    && base <= va && PageOf(base, pageBlocks, va) < |lives|
    && var live := lives[PageOf(base, pageBlocks, va)];
    && byVa[va] in live && va == Va(base, pageBlocks, PageOf(base, pageBlocks, va), live[byVa[va]].start)
  }

  // The address map and the live chunks are in bijection.
  ghost predicate Indexed(lives: Lives, byVa: map<nat, nat>, base: nat, pageBlocks: nat) {
    && pageBlocks > 0 && Recorded(lives, byVa, base, pageBlocks)
    && (forall va :: va in byVa ==> Owned(lives, byVa, base, pageBlocks, va))
    && (forall p :: 0 <= p < |lives| ==> ApartIn(lives[p], pageBlocks))
  }

  ghost predicate RegionsApart(base: nat, pageBlocks: nat, p: nat, b: Block, q: nat, d: Block) {
    || Va(base, pageBlocks, p, b.start) + BLOCK * b.size <= Va(base, pageBlocks, q, d.start)
    || Va(base, pageBlocks, q, d.start) + BLOCK * d.size <= Va(base, pageBlocks, p, b.start)
  }

  // No two live regions share a byte, on one page or on two.
  lemma LiveRegionsApart(lives: Lives, byVa: map<nat, nat>, base: nat, pageBlocks: nat, p: nat, c: nat, q: nat, d: nat)
    requires Indexed(lives, byVa, base, pageBlocks) && p < |lives| && q < |lives| && c in lives[p] && d in lives[q]
    requires p != q || c != d
    ensures RegionsApart(base, pageBlocks, p, lives[p][c], q, lives[q][d])
  {
    assert ApartIn(lives[p], pageBlocks) && ApartIn(lives[q], pageBlocks);
    if p < q {
      PagesApart(p, q, pageBlocks);
    } else if q < p {
      PagesApart(q, p, pageBlocks);
    }
  }

  lemma PagesApart(p: nat, q: nat, pageBlocks: nat)
    requires p < q
    ensures Times(p, pageBlocks) + pageBlocks <= Times(q, pageBlocks)
  {
    assert (p + 1) * pageBlocks <= q * pageBlocks;
  }

  ghost function WithLive(lives: Lives, p: nat, c: nat, b: Block): Lives
    requires p < |lives|
  {
    var live: map<nat, Block> := lives[p][c := b];
    lives[p := live]
  }

  ghost function WithoutLive(lives: Lives, p: nat, c: nat): (r: Lives)
    requires p < |lives|
    ensures |r| == |lives|
  {
    var live: map<nat, Block> := lives[p] - {c};
    lives[p := live]
  }

  lemma LiveBounds(live: map<nat, Block>, pageBlocks: nat, c: nat)
    requires ApartIn(live, pageBlocks) && c in live
    ensures live[c].start < pageBlocks && live[c].End() <= pageBlocks
  {
  }

  lemma StartsApart(live: map<nat, Block>, pageBlocks: nat, c: nat, d: nat)
    requires ApartIn(live, pageBlocks) && c in live && d in live && c != d
    ensures live[c].start != live[d].start
  {
  }

  // A new live block gets an address of its own.
  lemma FreshAddress(lives: Lives, byVa: map<nat, nat>, base: nat, pageBlocks: nat, p: nat, c: nat, b: Block)
    requires Indexed(lives, byVa, base, pageBlocks) && p < |lives| && c !in lives[p]
    requires ApartIn(lives[p][c := b], pageBlocks)
    ensures Va(base, pageBlocks, p, b.start) !in byVa
  {
    hide Va, PageOf, ApartIn, Recorded;
    var va := Va(base, pageBlocks, p, b.start);
    var live: map<nat, Block> := lives[p][c := b];
    LiveBounds(live, pageBlocks, c);
    PageOfVa(base, pageBlocks, p, b.start);
    if va in byVa {
      assert Owned(lives, byVa, base, pageBlocks, va);
      var d := byVa[va];
      LiveBounds(live, pageBlocks, d);
      StartsApart(live, pageBlocks, c, d);
      VaInjective(base, pageBlocks, p, live[d].start, p, b.start);
      assert false;
    }
  }

  lemma Register(lives: Lives, byVa: map<nat, nat>, base: nat, pageBlocks: nat, p: nat, c: nat, b: Block)
    requires Indexed(lives, byVa, base, pageBlocks) && p < |lives| && c !in lives[p] && b.start < pageBlocks
    requires ApartIn(lives[p][c := b], pageBlocks)
    ensures var va := Va(base, pageBlocks, p, b.start);
            va !in byVa && Indexed(WithLive(lives, p, c, b), byVa[va := c], base, pageBlocks)
  {
    hide Va, PageOf, ApartIn, Recorded, Owned;
    FreshAddress(lives, byVa, base, pageBlocks, p, c, b);
    RegisterRecorded(lives, byVa, base, pageBlocks, p, c, b);
    var va := Va(base, pageBlocks, p, b.start);
    var lives': Lives := WithLive(lives, p, c, b);
    var byVa': map<nat, nat> := byVa[va := c];
    forall a | a in byVa' ensures Owned(lives', byVa', base, pageBlocks, a) {
      RegisterOwned(lives, byVa, base, pageBlocks, p, c, b, a);
    }
  }

  lemma RegisterRecorded(lives: Lives, byVa: map<nat, nat>, base: nat, pageBlocks: nat, p: nat, c: nat, b: Block)
    requires Recorded(lives, byVa, base, pageBlocks) && p < |lives| && Va(base, pageBlocks, p, b.start) !in byVa
    ensures Recorded(WithLive(lives, p, c, b), byVa[Va(base, pageBlocks, p, b.start) := c], base, pageBlocks)
  {
    hide Va;
    var va := Va(base, pageBlocks, p, b.start);
    var lives': Lives := WithLive(lives, p, c, b);
    forall q, d {:trigger d in lives'[q]} | 0 <= q < |lives'| && d in lives'[q]
      ensures var a := Va(base, pageBlocks, q, lives'[q][d].start); a in byVa[va := c] && byVa[va := c][a] == d
    {
      assert q != p || d != c ==> d in lives[q] && lives'[q][d] == lives[q][d];
    }
  }

  lemma RegisterOwned(lives: Lives, byVa: map<nat, nat>, base: nat, pageBlocks: nat, p: nat, c: nat, b: Block, a: nat)
    requires pageBlocks > 0 && p < |lives| && c !in lives[p] && b.start < pageBlocks
    requires a in byVa ==> Owned(lives, byVa, base, pageBlocks, a)
    ensures var va := Va(base, pageBlocks, p, b.start);
            a in byVa[va := c] && va !in byVa ==> Owned(WithLive(lives, p, c, b), byVa[va := c], base, pageBlocks, a)
  {
    hide Va, PageOf;
    PageOfVa(base, pageBlocks, p, b.start);
    VaAbove(base, pageBlocks, p, b.start);
  }

  lemma VaAbove(base: nat, pageBlocks: nat, p: nat, start: nat)
    ensures base <= Va(base, pageBlocks, p, start)
  {
  }

  lemma StillApart(live: map<nat, Block>, pageBlocks: nat, c: nat)
    requires ApartIn(live, pageBlocks)
    ensures ApartIn(live - {c}, pageBlocks)
  {
  }

  // Forgetting a live block forgets its address and no other.
  lemma Deregister(lives: Lives, byVa: map<nat, nat>, base: nat, pageBlocks: nat, va: nat)
    requires Indexed(lives, byVa, base, pageBlocks) && va in byVa && Owned(lives, byVa, base, pageBlocks, va)
    ensures var p := PageOf(base, pageBlocks, va);
            Indexed(WithoutLive(lives, p, byVa[va]), byVa - {va}, base, pageBlocks)
  {
    hide Va, PageOf, ApartIn, Recorded, Owned;
    OwnerPage(lives, byVa, base, pageBlocks, va);
    var p := PageOf(base, pageBlocks, va);
    StillApart(lives[p], pageBlocks, byVa[va]);
    DeregisterRecorded(lives, byVa, base, pageBlocks, va);
    var lives': Lives := WithoutLive(lives, p, byVa[va]);
    var byVa': map<nat, nat> := byVa - {va};
    forall a | a in byVa' ensures Owned(lives', byVa', base, pageBlocks, a) {
      DeregisterOwned(lives, byVa, base, pageBlocks, va, a);
    }
  }

  lemma OwnerPage(lives: Lives, byVa: map<nat, nat>, base: nat, pageBlocks: nat, va: nat)
    requires pageBlocks > 0 && va in byVa && Owned(lives, byVa, base, pageBlocks, va)
    ensures base <= va && PageOf(base, pageBlocks, va) < |lives| && byVa[va] in lives[PageOf(base, pageBlocks, va)]
  {
    hide Va, PageOf;
  }

  lemma DeregisterRecorded(lives: Lives, byVa: map<nat, nat>, base: nat, pageBlocks: nat, va: nat)
    requires pageBlocks > 0 && Indexed(lives, byVa, base, pageBlocks) && va in byVa
             && Owned(lives, byVa, base, pageBlocks, va)
    ensures Recorded(WithoutLive(lives, PageOf(base, pageBlocks, va), byVa[va]), byVa - {va}, base, pageBlocks)
  {
    hide Va, PageOf, ApartIn, WithoutLive, Indexed, Owned;
    OwnerPage(lives, byVa, base, pageBlocks, va);
    var lives': Lives := WithoutLive(lives, PageOf(base, pageBlocks, va), byVa[va]);
    forall q, d {:trigger d in lives'[q]} | 0 <= q < |lives'| && d in lives'[q]
      ensures var a := Va(base, pageBlocks, q, lives'[q][d].start); a in byVa - {va} && (byVa - {va})[a] == d
    {
      DeregisterAt(lives, byVa, base, pageBlocks, va, q, d);
    }
  }

  lemma DeregisterAt(lives: Lives, byVa: map<nat, nat>, base: nat, pageBlocks: nat, va: nat, q: nat, d: nat)
    requires Indexed(lives, byVa, base, pageBlocks) && va in byVa && Owned(lives, byVa, base, pageBlocks, va)
    requires q < |lives| && d in WithoutLive(lives, PageOf(base, pageBlocks, va), byVa[va])[q]
    ensures var lives' := WithoutLive(lives, PageOf(base, pageBlocks, va), byVa[va]);
            var a := Va(base, pageBlocks, q, lives'[q][d].start);
            a in byVa && a != va && byVa[a] == d
  {
    hide Va, PageOf, ApartIn;
    assert d in lives[q];
    assert ApartIn(lives[q], pageBlocks);
    LiveBounds(lives[q], pageBlocks, d);
    PageOfVa(base, pageBlocks, q, lives[q][d].start);
  }

  lemma DeregisterOwned(lives: Lives, byVa: map<nat, nat>, base: nat, pageBlocks: nat, va: nat, a: nat)
    requires pageBlocks > 0 && va in byVa && a in byVa && a != va
    requires Owned(lives, byVa, base, pageBlocks, va) && Owned(lives, byVa, base, pageBlocks, a)
    ensures Owned(WithoutLive(lives, PageOf(base, pageBlocks, va), byVa[va]), byVa - {va}, base, pageBlocks, a)
  {
    hide Va, PageOf;
    OtherChunk(lives, byVa, base, pageBlocks, va, a);
  }

  // Two addresses on one page belong to different chunks.
  lemma OtherChunk(lives: Lives, byVa: map<nat, nat>, base: nat, pageBlocks: nat, va: nat, a: nat)
    requires pageBlocks > 0 && va in byVa && a in byVa && Owned(lives, byVa, base, pageBlocks, va)
             && Owned(lives, byVa, base, pageBlocks, a)
    ensures a != va && PageOf(base, pageBlocks, a) == PageOf(base, pageBlocks, va) ==> byVa[a] != byVa[va]
  {
    hide Va, PageOf;
  }
}
