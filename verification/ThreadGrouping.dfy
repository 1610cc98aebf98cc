// Grouping a frame by target thread: comparison masks of 64 lanes per word, stable compression under a mask,
// and the loop that hands every target thread its own packets. A mask word is the sequence of its bits.
module ThreadGrouping {
  import opened BitWords

  const FRAME: nat := 256

  // mask_compare_u16_words
  function Words(n: nat): nat {
    (n + WORD_BITS - 1) / WORD_BITS
  }

  // How many of values[lo..hi] equal the selected one.
  function Matches(values: seq<nat>, selected: nat, lo: nat, hi: nat): nat
    requires hi <= |values|
    decreases hi
  {
    if hi <= lo then 0 else (if values[hi - 1] == selected then 1 else 0) + Matches(values, selected, lo, hi - 1)
  }

  // The comparison of one stretch of values, bit by bit.
  function Compared(values: seq<nat>, selected: nat, base: nat): (w: Word)
    ensures forall k :: 0 <= k < WORD_BITS ==> (w[k] <==> base + k < |values| && values[base + k] == selected)
  {
    seq(WORD_BITS, k requires 0 <= k < WORD_BITS => base + k < |values| && values[base + k] == selected)
  }

  // ---- the SSE2 path

  // _mm_movemask_epi8 of a 16-bit-lane comparison: each equal lane sets two bits.
  function MoveMask(b0: bool, b1: bool, b2: bool, b3: bool, b4: bool, b5: bool, b6: bool, b7: bool): bv32 {
    (if b0 then 0x0003 else 0) | (if b1 then 0x000c else 0) | (if b2 then 0x0030 else 0) | (if b3 then 0x00c0 else 0) |
    (if b4 then 0x0300 else 0) | (if b5 then 0x0c00 else 0) | (if b6 then 0x3000 else 0) | (if b7 then 0xc000 else 0)
  }

  // The three shift-and-mask steps that squeeze bit pairs together.
  function Squeeze(mask: bv32): bv32 {
    var a := mask & 0x5555;
    var b := (a | (a >> 1)) & 0x3333;
    var c := (b | (b >> 2)) & 0x0f0f;
    (c | (c >> 4)) & 0x00ff
  }

  function LowByte(x: bv32): seq<bool> {
    [x & 0x01 != 0, x & 0x02 != 0, x & 0x04 != 0, x & 0x08 != 0, x & 0x10 != 0, x & 0x20 != 0, x & 0x40 != 0,
     x & 0x80 != 0]
  }

  lemma SqueezeBits(b0: bool, b1: bool, b2: bool, b3: bool, b4: bool, b5: bool, b6: bool, b7: bool)
    ensures var r := LowByte(Squeeze(MoveMask(b0, b1, b2, b3, b4, b5, b6, b7)));
            && |r| == 8 && r[0] == b0 && r[1] == b1 && r[2] == b2 && r[3] == b3
            && r[4] == b4 && r[5] == b5 && r[6] == b6 && r[7] == b7
  {
  }

  // The bits one packed comparison contributes.
  function Packed(l: seq<bool>): (r: seq<bool>)
    requires |l| == 8
    ensures |r| == 8
  {
    LowByte(Squeeze(MoveMask(l[0], l[1], l[2], l[3], l[4], l[5], l[6], l[7])))
  }

  // One packed comparison yields the eight lane results.
  lemma SqueezeLanes(l: seq<bool>)
    requires |l| == 8
    ensures Packed(l) == l
  {
    hide Squeeze, MoveMask, LowByte;
    SqueezeBits(l[0], l[1], l[2], l[3], l[4], l[5], l[6], l[7]);
    forall i | 0 <= i < 8 ensures Packed(l)[i] == l[i] {
      assert i == 0 || i == 1 || i == 2 || i == 3 || i == 4 || i == 5 || i == 6 || i == 7;
    }
  }

  // word | (bits << offset), the shifted bits staying inside the word
  function OrShifted(w: Word, bits: seq<bool>, offset: nat): (r: Word)
    requires offset + |bits| <= WORD_BITS
    ensures forall k :: 0 <= k < WORD_BITS ==> (r[k] <==> w[k] || (offset <= k < offset + |bits| && bits[k - offset]))
  {
    seq(WORD_BITS, k requires 0 <= k < WORD_BITS => w[k] || (offset <= k < offset + |bits| && bits[k - offset]))
  }

  // One word of the SSE2 path: groups of eight lanes, then single lanes.
  method CompareWordPacked(selected: nat, values: seq<nat>, base: nat) returns (bits: Word)
    requires base <= |values|
    ensures bits == Compared(values, selected, base)
  {
    hide Packed;
    var end := End(values, base);
    bits := ZeroWord();
    var offset := base;
    while offset + 8 <= end
      invariant base <= offset <= end
      invariant forall k :: 0 <= k < WORD_BITS ==> (bits[k] <==> base + k < offset && values[base + k] == selected)
    {
      var lanes := seq(8, i requires 0 <= i < 8 => values[offset + i] == selected);
      SqueezeLanes(lanes);
      bits := OrShifted(bits, Packed(lanes), offset - base);
      offset := offset + 8;
    }
    while offset < end
      invariant base <= offset <= end
      invariant forall k :: 0 <= k < WORD_BITS ==> (bits[k] <==> base + k < offset && values[base + k] == selected)
    {
      bits := OrShifted(bits, [values[offset] == selected], offset - base);
      offset := offset + 1;
    }
  }

  lemma {:induction false} MatchesSplit(values: seq<nat>, selected: nat, lo: nat, mid: nat, hi: nat)
    requires lo <= mid <= hi <= |values|
    ensures Matches(values, selected, lo, hi) == Matches(values, selected, lo, mid) + Matches(values, selected, mid, hi)
    decreases hi
  {
    if mid < hi { MatchesSplit(values, selected, lo, mid, hi - 1); }
  }

  // The set bits of a comparison word count the matches of its stretch.
  lemma {:induction false} OnesAreMatches(values: seq<nat>, selected: nat, base: nat, k: nat)
    requires base <= |values| && k <= WORD_BITS
    ensures var end := if base + k <= |values| then base + k else |values|;
            Ones(Compared(values, selected, base)[..k]) == Matches(values, selected, base, end)
    decreases k
  {
    if k > 0 {
      OnesAreMatches(values, selected, base, k - 1);
      var w := Compared(values, selected, base);
      assert w[..k][..k - 1] == w[..k - 1];
    }
  }

  function End(values: seq<nat>, base: nat): nat {
    if base + WORD_BITS <= |values| then base + WORD_BITS else |values|
  }

  // What both paths compute: one comparison word per 64 values, later words untouched, and the number of matches.
  ghost predicate MaskOf(masks: seq<Word>, before: seq<Word>, values: seq<nat>, selected: nat, words: nat) {
    && words <= |masks| == |before|
    && (forall w :: 0 <= w < words ==> masks[w] == Compared(values, selected, WORD_BITS * w))
    && (forall w :: words <= w < |masks| ==> masks[w] == before[w])
  }

  // mask_compare_u16_arch
  method MaskComparePacked(selected: nat, values: seq<nat>, before: seq<Word>) returns (masks: seq<Word>, count: nat)
    requires |before| >= Words(|values|)
    ensures MaskOf(masks, before, values, selected, Words(|values|))
    ensures count == Matches(values, selected, 0, |values|)
  {
    masks, count := before, 0;
    for word := 0 to Words(|values|)
      invariant MaskOf(masks, before, values, selected, word)
      invariant count
                == Matches(values, selected, 0, if WORD_BITS * word <= |values| then WORD_BITS * word else |values|)
    {
      var base := WORD_BITS * word;
      var bits := CompareWordPacked(selected, values, base);
      masks := masks[word := bits];
      OnesAreMatches(values, selected, base, WORD_BITS);
      assert bits[..WORD_BITS] == bits;
      MatchesSplit(values, selected, 0, base, End(values, base));
      count := count + Ones(bits);
    }
  }

  // mask_compare_u16_scalar
  method MaskCompareScalar(selected: nat, values: seq<nat>, before: seq<Word>) returns (masks: seq<Word>, count: nat)
    requires |before| >= Words(|values|)
    ensures MaskOf(masks, before, values, selected, Words(|values|))
    ensures count == Matches(values, selected, 0, |values|)
  {
    masks, count := before, 0;
    var word := 0;
    while word < Words(|values|)
      invariant word <= Words(|values|) && MaskOf(masks, before, values, selected, word)
      invariant count
                == Matches(values, selected, 0, if WORD_BITS * word <= |values| then WORD_BITS * word else |values|)
    {
      var base := WORD_BITS * word;
      var bits := ZeroWord();
      for offset := 0 to End(values, base) - base
        invariant forall k :: 0 <= k < WORD_BITS ==> (bits[k] <==> k < offset && values[base + k] == selected)
        invariant count == Matches(values, selected, 0, base + offset)
      {
        if values[base + offset] == selected {
          bits := OrShifted(bits, [true], offset);
          count := count + 1;
        }
      }
      assert bits == Compared(values, selected, base);
      masks := masks[word := bits];
      word := word + 1;
    }
  }

  // ---- compression

  // The sources whose mask bit is set, in order.
  function Select<T>(src: seq<T>, masks: seq<Word>, from: nat): seq<T>
    requires |src| <= WORD_BITS * |masks|
    decreases |src| - from
  {
    if from >= |src| then [] else (if Bit(masks, from) then [src[from]] else []) + Select(src, masks, from + 1)
  }

  function TrailingZeros(w: seq<bool>): (k: nat)
    ensures k <= |w| && (k < |w| ==> w[k]) && forall i :: 0 <= i < k ==> !w[i]
  {
    if w == [] || w[0] then 0 else 1 + TrailingZeros(w[1..])
  }

  // Skipping clear bits selects nothing.
  lemma {:induction false} SelectSkip<T>(src: seq<T>, masks: seq<Word>, lo: nat, hi: nat)
    requires |src| <= WORD_BITS * |masks| && lo <= hi
    requires forall i :: lo <= i < hi && i < |src| ==> !Bit(masks, i)
    ensures Select(src, masks, lo) == Select(src, masks, hi)
    decreases hi
  {
    hide Select, Bit;
    if lo < hi {
      SelectSkip(src, masks, lo, hi - 1);
      SkipOne(src, masks, hi - 1);
    }
  }

  lemma SkipOne<T>(src: seq<T>, masks: seq<Word>, i: nat)
    requires |src| <= WORD_BITS * |masks| && (i < |src| ==> !Bit(masks, i))
    ensures Select(src, masks, i) == Select(src, masks, i + 1)
  {
    hide Bit;
  }

  // One mask word of compress_u32: `bits & (bits - 1)` clears the lowest set bit.
  method CompressWord(src: seq<nat>, masks: seq<Word>, word: nat, before: seq<nat>) returns (out: seq<nat>)
    requires word < Words(|src|) <= |masks|
    requires forall i :: |src| <= i < WORD_BITS * Words(|src|) ==> !Bit(masks, i)
    ensures out + Select(src, masks, WORD_BITS * (word + 1)) == before + Select(src, masks, WORD_BITS * word)
  {
    hide Select, Bit;
    out := before;
    var base := WORD_BITS * word;
    BitsOfWord(masks, word);
    var bits: seq<bool> := masks[word];
    ghost var done := 0;
    while TrailingZeros(bits) < WORD_BITS
      invariant |bits| == WORD_BITS && 0 <= done <= WORD_BITS
      invariant forall k :: 0 <= k < WORD_BITS ==> (bits[k] <==> k >= done && masks[word][k])
      invariant out + Select(src, masks, base + done) == before + Select(src, masks, base)
      decreases WORD_BITS - done
    {
      var k := TrailingZeros(bits);
      assert Bit(masks, base + k);
      SelectSkip(src, masks, base + done, base + k);
      SelectOne(src, masks, base + k, out);
      out := out + [src[base + k]];
      bits := bits[k := false];
      done := k + 1;
    }
    SelectSkip(src, masks, base + done, base + WORD_BITS);
  }

  lemma SelectOne<T>(src: seq<T>, masks: seq<Word>, i: nat, out: seq<T>)
    requires |src| <= WORD_BITS * |masks| && i < |src| && Bit(masks, i)
    ensures out + Select(src, masks, i) == out + [src[i]] + Select(src, masks, i + 1)
  {
  }

  // compress_u32
  method Compress(src: seq<nat>, masks: seq<Word>) returns (out: seq<nat>)
    requires |masks| >= Words(|src|)
    requires forall i :: |src| <= i < WORD_BITS * Words(|src|) ==> !Bit(masks, i)
    ensures out == Select(src, masks, 0)
  {
    out := [];
    for word := 0 to Words(|src|)
      invariant out + Select(src, masks, WORD_BITS * word) == Select(src, masks, 0)
    {
      out := CompressWord(src, masks, word, out);
    }
  }

  // ---- grouping

  datatype Group = Group(thread: nat, indices: seq<nat>, aux: seq<nat>)

  // The elements that belong to one thread, in frame order.
  function Own<T>(src: seq<T>, threads: seq<nat>, thread: nat, from: nat): seq<T>
    requires |src| == |threads|
    decreases |src| - from
  {
    if from >= |src| then []
        else (if threads[from] == thread then [src[from]] else []) + Own(src, threads, thread, from + 1)
  }

  lemma {:induction false} SelectIsOwn<T>(src: seq<T>, threads: seq<nat>, thread: nat, masks: seq<Word>, from: nat)
    requires |src| == |threads| <= WORD_BITS * |masks|
    requires forall i :: 0 <= i < |threads| ==> (Bit(masks, i) <==> threads[i] == thread)
    ensures Select(src, masks, from) == Own(src, threads, thread, from)
    decreases |src| - from
  {
    hide Bit;
    if from < |src| { SelectIsOwn(src, threads, thread, masks, from + 1); }
  }

  lemma {:induction false} OwnCount<T>(src: seq<T>, threads: seq<nat>, thread: nat, from: nat)
    requires |src| == |threads| && from <= |src|
    ensures |Own(src, threads, thread, from)| == Matches(threads, thread, from, |threads|)
    decreases |src| - from
  {
    if from < |src| {
      OwnCount(src, threads, thread, from + 1);
      MatchesSplit(threads, thread, from, from + 1, |threads|);
    }
  }

  // A packet stands in its thread's share behind exactly the earlier packets of that thread.
  lemma {:induction false} OwnAt<T>(src: seq<T>, threads: seq<nat>, thread: nat, from: nat, i: nat)
    requires |src| == |threads| && from <= i < |src| && threads[i] == thread
    ensures var k := Matches(threads, thread, from, i);
            k < |Own(src, threads, thread, from)| && Own(src, threads, thread, from)[k] == src[i]
    decreases |src| - from
  {
    if from < i {
      OwnAt(src, threads, thread, from + 1, i);
      MatchesSplit(threads, thread, from, from + 1, i);
    }
  }

  lemma {:induction false} MatchesCount(threads: seq<nat>, thread: nat, hi: nat)
    requires hi <= |threads|
    ensures Matches(threads, thread, 0, hi) == |set j | 0 <= j < hi && threads[j] == thread|
  {
    if hi > 0 {
      MatchesCount(threads, thread, hi - 1);
      var now, before := set j | 0 <= j < hi && threads[j] == thread, set j | 0 <= j < hi - 1 && threads[j] == thread;
      assert now == if threads[hi - 1] == thread then before + {hi - 1} else before;
    }
  }

  // The mask of a frame, read bit by bit.
  lemma MaskBits(masks: seq<Word>, before: seq<Word>, threads: seq<nat>, thread: nat)
    requires MaskOf(masks, before, threads, thread, Words(|threads|))
    ensures forall i :: 0 <= i < WORD_BITS * Words(|threads|) ==>
              (Bit(masks, i) <==> i < |threads| && threads[i] == thread)
  {
  }

  // How many packets still have a thread outside `handled`.
  function Left(threads: seq<nat>, handled: set<nat>, n: nat): nat
    requires n <= |threads|
  {
    if n == 0 then 0 else (if threads[n - 1] in handled then 0 else 1) + Left(threads, handled, n - 1)
  }

  lemma {:induction false} HandleOne(threads: seq<nat>, handled: set<nat>, thread: nat, n: nat)
    requires n <= |threads| && thread !in handled
    ensures Left(threads, handled, n) == Left(threads, handled + {thread}, n) + Matches(threads, thread, 0, n)
  {
    if n > 0 { HandleOne(threads, handled, thread, n - 1); }
  }

  lemma {:induction false} SomeLeft(threads: seq<nat>, handled: set<nat>, n: nat) returns (i: nat)
    requires n <= |threads| && Left(threads, handled, n) > 0
    ensures i < n && threads[i] !in handled
  {
    if threads[n - 1] in handled { i := SomeLeft(threads, handled, n - 1); } else { i := n - 1; }
  }

  lemma {:induction false} NoneLeft(threads: seq<nat>, handled: set<nat>, n: nat)
    requires n <= |threads| && Left(threads, handled, n) == 0
    ensures forall i :: 0 <= i < n ==> threads[i] in handled
  {
    if n > 0 { NoneLeft(threads, handled, n - 1); }
  }

  lemma {:induction false} Matched(threads: seq<nat>, thread: nat, i: nat, n: nat)
    requires i < n <= |threads| && threads[i] == thread
    ensures Matches(threads, thread, 0, n) >= 1
    decreases n
  {
    if i < n - 1 { Matched(threads, thread, i, n - 1); }
  }

  // The first clear bit: the first word that is not all ones, then its lowest clear bit.
  method FirstClear(used: seq<Word>, ghost free: nat) returns (first: nat)
    requires free < WORD_BITS * |used| && !Bit(used, free)
    ensures first <= free && !Bit(used, first) && forall i :: 0 <= i < first ==> Bit(used, i)
  {
    var word := 0;
    while word < |used| && TrailingZeros(Not(used[word])) == WORD_BITS
      invariant word <= |used| && forall i :: 0 <= i < WORD_BITS * word ==> Bit(used, i)
    {
      assert forall k :: 0 <= k < WORD_BITS ==> !Not(used[word])[k];
      word := word + 1;
    }
    assert word <= free / WORD_BITS;
    first := WORD_BITS * word + TrailingZeros(Not(used[word]));
    assert word == free / WORD_BITS ==> Not(used[word])[free % WORD_BITS];
    forall i | WORD_BITS * word <= i < first ensures Bit(used, i) {
      assert !Not(used[word])[i - WORD_BITS * word];
    }
  }

  function Not(w: Word): (r: Word)
    ensures forall k :: 0 <= k < WORD_BITS ==> r[k] == !w[k]
  {
    seq(WORD_BITS, k requires 0 <= k < WORD_BITS => !w[k])
  }

  function OrWords(a: seq<Word>, b: seq<Word>): (r: seq<Word>)
    requires |a| == |b|
    ensures |r| == |a|
    ensures forall i :: 0 <= i < WORD_BITS * |a| ==> Bit(r, i) == (Bit(a, i) || Bit(b, i))
  {
    seq(|a|, w requires 0 <= w < |a| => OrShifted(a[w], b[w], 0))
  }

  function ThreadsOf(threads: seq<nat>): set<nat> {
    set t | t in threads
  }

  // Each group is one thread's packets in frame order, and no thread has two groups.
  ghost predicate Grouped(groups: seq<Group>, handled: set<nat>, indices: seq<nat>, aux: seq<nat>, threads: seq<nat>)
    requires |indices| == |aux| == |threads|
  {
    && (forall a, b :: 0 <= a < b < |groups| ==> groups[a].thread != groups[b].thread)
    && (forall t :: t in handled <==> exists a :: 0 <= a < |groups| && groups[a].thread == t)
    && (forall a :: 0 <= a < |groups| ==>
          && groups[a].indices == Own(indices, threads, groups[a].thread, 0)
          && groups[a].aux == Own(aux, threads, groups[a].thread, 0))
  }

  lemma GroupedMore(groups: seq<Group>, handled: set<nat>, indices: seq<nat>, aux: seq<nat>, threads: seq<nat>,
                    g: Group)
    requires |indices| == |aux| == |threads| && Grouped(groups, handled, indices, aux, threads)
    requires g.thread !in handled
    requires g == Group(g.thread, Own(indices, threads, g.thread, 0), Own(aux, threads, g.thread, 0))
    ensures Grouped(groups + [g], handled + {g.thread}, indices, aux, threads)
  {
    var more := groups + [g];
    assert more[|groups|].thread == g.thread;
    forall t | t in handled ensures exists a :: 0 <= a < |more| && more[a].thread == t {
      var a :| 0 <= a < |groups| && groups[a].thread == t;
      assert more[a].thread == t;
    }
  }

  // The groups come in the order of their first packets.
  ghost predicate InOrderOf(groups: seq<Group>, threads: seq<nat>, firsts: seq<nat>) {
    && |firsts| == |groups| && (forall a, b :: 0 <= a < b < |firsts| ==> firsts[a] < firsts[b])
    && forall a :: 0 <= a < |groups| ==>
         && firsts[a] < |threads| && threads[firsts[a]] == groups[a].thread
         && forall i :: 0 <= i < firsts[a] ==> threads[i] != groups[a].thread
  }

  // Every packet is in exactly one group, the one of its thread, behind exactly the earlier packets of that thread;
  // and a group has no more packets than that.
  lemma EachPacketOnce(groups: seq<Group>, indices: seq<nat>, aux: seq<nat>, threads: seq<nat>, i: nat) returns (a: nat)
    requires |indices| == |aux| == |threads| && Grouped(groups, ThreadsOf(threads), indices, aux, threads)
    requires i < |threads|
    ensures a < |groups| && groups[a].thread == threads[i] && forall b :: 0 <= b < |groups| && b != a ==>
              groups[b].thread != threads[i]
    ensures var k := |set j | 0 <= j < i && threads[j] == threads[i]|;
            k < |groups[a].indices| && groups[a].indices[k] == indices[i]
                && k < |groups[a].aux| && groups[a].aux[k] == aux[i]
    ensures |groups[a].indices| == |groups[a].aux| == |set j | 0 <= j < |threads| && threads[j] == threads[i]|
  {
    hide Own, Matches;
    assert threads[i] in ThreadsOf(threads);
    a :| 0 <= a < |groups| && groups[a].thread == threads[i];
    OwnAt(indices, threads, threads[i], 0, i);
    OwnAt(aux, threads, threads[i], 0, i);
    OwnCount(indices, threads, threads[i], 0);
    OwnCount(aux, threads, threads[i], 0);
    MatchesCount(threads, threads[i], i);
    MatchesCount(threads, threads[i], |threads|);
  }

  // One target thread: its mask, its packets, and how many there are.
  method TakeThread(indices: seq<nat>, aux: seq<nat>, threads: seq<nat>, thread: nat, before: seq<Word>)
    returns (group: Group, mask: seq<Word>, count: nat)
    requires |indices| == |aux| == |threads| <= FRAME && |before| == 4
    requires forall w :: Words(|threads|) <= w < 4 ==> before[w] == ZeroWord()
    ensures group == Group(thread, Own(indices, threads, thread, 0), Own(aux, threads, thread, 0))
    ensures |mask| == 4 && (forall w :: Words(|threads|) <= w < 4 ==> mask[w] == ZeroWord())
    ensures forall i :: 0 <= i < FRAME ==> (Bit(mask, i) <==> i < |threads| && threads[i] == thread)
    ensures |group.indices| == |group.aux| == count == Matches(threads, thread, 0, |threads|)
  {
    hide Own;
    mask, count := MaskComparePacked(thread, threads, before);
    MaskBits(mask, before, threads, thread);
    var own := Compress(indices, mask);
    var ownAux := Compress(aux, mask);
    SelectIsOwn(indices, threads, thread, mask, 0);
    SelectIsOwn(aux, threads, thread, mask, 0);
    OwnCount(indices, threads, thread, 0);
    OwnCount(aux, threads, thread, 0);
    group := Group(thread, own, ownAux);
  }

  function ClearMask(): (m: seq<Word>)
    ensures |m| == 4 && (forall w :: 0 <= w < 4 ==> m[w] == ZeroWord()) && forall i :: 0 <= i < FRAME ==> !Bit(m, i)
  {
    [ZeroWord(), ZeroWord(), ZeroWord(), ZeroWord()]
  }

  // buffer_enqueue_to_thread_inline: the groups handed to handoff_enqueue_one_thread.
  method GroupByThread(indices: seq<nat>, aux: seq<nat>, threads: seq<nat>)
    returns (groups: seq<Group>, ghost firsts: seq<nat>)
    requires |indices| == |aux| == |threads| <= FRAME
    ensures Grouped(groups, ThreadsOf(threads), indices, aux, threads)
    ensures InOrderOf(groups, threads, firsts)
  {
    hide Grouped, Own, MaskOf, Matches, Left, Bit;
    var used := ClearMask();
    var mask := used;
    ghost var handled: set<nat> := {};
    groups, firsts := [], [];
    assert Grouped(groups, handled, indices, aux, threads) by { NoGroups(indices, aux, threads); }
    var remaining: nat, first: nat := |indices|, 0;
    AllLeft(threads, |threads|);
    while remaining != 0
      invariant |used| == |mask| == 4
      invariant remaining == Left(threads, handled, |threads|)
      invariant forall w :: Words(|threads|) <= w < 4 ==> mask[w] == ZeroWord()
      invariant forall i :: 0 <= i < FRAME ==> (Bit(used, i) <==> i < |threads| && threads[i] in handled)
      invariant remaining != 0 ==> first < |threads| && threads[first] !in handled
      invariant handled <= ThreadsOf(threads)
      invariant Grouped(groups, handled, indices, aux, threads)
      invariant InOrderOf(groups, threads, firsts)
      invariant remaining != 0 ==> forall k :: 0 <= k < |firsts| ==> firsts[k] < first
      invariant remaining != 0 ==> forall i :: 0 <= i < first ==> threads[i] in handled
      decreases remaining
    {
      var thread := threads[first];
      var group, count;
      group, mask, count := TakeThread(indices, aux, threads, thread, mask);
      GroupedMore(groups, handled, indices, aux, threads, group);
      groups, firsts := groups + [group], firsts + [first];
      used := OrWords(used, mask);
      HandleOne(threads, handled, thread, |threads|);
      Matched(threads, thread, first, |threads|);
      handled := handled + {thread};
      remaining := remaining - count;
      if remaining != 0 {
        ghost var i := SomeLeft(threads, handled, |threads|);
        ghost var was := first;
        first := FirstClear(used, i);
        assert forall k :: 0 <= k < first ==> Bit(used, k);
        assert was < first;
      }
    }
    NoneLeft(threads, handled, |threads|);
    assert handled == ThreadsOf(threads);
  }

  lemma NoGroups(indices: seq<nat>, aux: seq<nat>, threads: seq<nat>)
    requires |indices| == |aux| == |threads|
    ensures Grouped([], {}, indices, aux, threads)
  {
  }

  lemma {:induction false} AllLeft(threads: seq<nat>, n: nat)
    requires n <= |threads|
    ensures Left(threads, {}, n) == n
  {
    if n > 0 { AllLeft(threads, n - 1); }
  }
}
