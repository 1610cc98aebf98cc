// The Internet checksum in parts and chunks, against the one's-complement sum of sections 1 and 2(A) of RFC 1071.
module Checksum {
  import opened Arithmetic
  import opened Common

  type Byte = x: int | 0 <= x < 0x100

  type Bytes = seq<Byte>

  const MAX_BYTES: nat := 0x1_0000_0000_0000
  const CHUNK_BYTES: nat := 0x1_0000

  // The 16-bit word at `i`, most significant byte first; a last odd byte is padded with zero.
  function WordAt(b: Bytes, i: nat): (w: nat)
    requires i < |b|
    ensures w <= U16_MAX
  {
    Pair(b[i], if i + 1 < |b| then b[i + 1] else 0)
  }

  function Pair(high: nat, low: nat): nat {
    0x100 * high + low
  }

  // ---- the reference

  // Addition with end-around carry.
  function OnesAdd(x: nat, y: nat): nat {
    if x + y > U16_MAX then x + y - U16_MAX else x + y
  }

  function OnesSum(b: Bytes): nat {
    if b == [] then 0 else OnesAdd(OnesSum(DropWord(b)), WordAt(b, LastWord(b)))
  }

  function LastWord(b: Bytes): (i: nat)
    requires b != []
    ensures i < |b| && i % 2 == 0 && |b| - i <= 2
  {
    if |b| % 2 == 1 then |b| - 1 else |b| - 2
  }

  function DropWord(b: Bytes): (r: Bytes)
    requires b != []
    ensures |r| < |b| && |r| % 2 == 0
  {
    b[..LastWord(b)]
  }

  // ---- plain sums and folding

  function WordSum(b: Bytes): nat {
    if b == [] then 0 else WordSum(DropWord(b)) + WordAt(b, LastWord(b))
  }

  // What repeated folding of carries ends at.
  function Folded(x: nat): (r: nat)
    ensures r <= U16_MAX
  {
    if x == 0 then 0 else (x - 1) % U16_MAX + 1
  }

  lemma FoldedSmall(x: nat)
    requires x <= U16_MAX
    ensures Folded(x) == x
  {
  }

  // Folding may happen before or after an addition.
  lemma FoldedAdd(x: nat, y: nat)
    ensures Folded(Folded(x) + y) == Folded(x + y)
  {
    var q := if x == 0 then 0 else (x - 1) / U16_MAX;
    assert x == Folded(x) + U16_MAX * q;
    if Folded(x) + y > 0 { SameRemainder(Folded(x) + y - 1, q); }
  }

  lemma SameRemainder(x: nat, q: nat)
    ensures (x + U16_MAX * q) % U16_MAX == x % U16_MAX
  {
  }

  lemma FoldedOnes(x: nat, y: nat)
    requires x <= U16_MAX && y <= U16_MAX
    ensures OnesAdd(x, y) == Folded(x + y)
  {
  }

  lemma {:induction false} OnesIsFolded(b: Bytes)
    ensures OnesSum(b) == Folded(WordSum(b))
  {
    if b != [] {
      var init, w := DropWord(b), WordAt(b, LastWord(b));
      OnesIsFolded(init);
      FoldedOnes(OnesSum(init), w);
      FoldedAdd(WordSum(init), w);
    }
  }

  // The sum with one word in the middle.
  lemma AroundWord(before: Bytes, field: Bytes, after: Bytes)
    requires |before| % 2 == 0 && |field| == 2
    ensures OnesSum(before + field + after)
            == Folded(WordSum(before) + (0x100 * (field[0] as nat) + field[1] as nat) + WordSum(after))
  {
    hide Folded, WordSum, OnesSum;
    OnesIsFolded(before + field + after);
    WordSumAppend(before + field, after);
    WordSumAppend(before, field);
    OneWord(field);
  }

  lemma OneWord(b: Bytes)
    requires |b| == 2
    ensures WordSum(b) == 0x100 * (b[0] as nat) + b[1] as nat
  {
    assert DropWord(b) == [];
  }

  // Adding the complement of a folded sum gives all ones.
  lemma Complement(sum: nat)
    ensures Folded(sum) <= U16_MAX && Folded(sum + (U16_MAX - Folded(sum))) == U16_MAX
  {
    FoldedAdd(sum, U16_MAX - Folded(sum));
    FoldedSmall(U16_MAX);
  }

  // A receiver that sums a message with its checksum in place of a zero word finds all ones.
  lemma ChecksumChecks(before: Bytes, after: Bytes, checksum: nat)
    requires |before| % 2 == 0 && checksum == U16_MAX - OnesSum(before + [0, 0] + after)
    ensures checksum <= U16_MAX
    ensures U16_MAX - OnesSum(before + [checksum / 0x100, checksum % 0x100] + after) == 0
  {
    hide Folded, WordSum, OnesSum;
    AroundWord(before, [0, 0], after);
    Complement(WordSum(before) + WordSum(after));
    AroundWord(before, [checksum / 0x100, checksum % 0x100], after);
  }

  // fold_checksum_sum
  method FoldSum(start: nat) returns (sum: nat)
    requires start <= U64_MAX
    ensures sum == Folded(start)
  {
    sum := start;
    while sum / 0x1_0000 != 0
      invariant Folded(sum) == Folded(start)
      decreases sum
    {
      FoldStep(sum);
      sum := sum % 0x1_0000 + sum / 0x1_0000;
    }
    FoldedSmall(sum);
  }

  lemma FoldStep(x: nat)
    ensures Folded(x % 0x1_0000 + x / 0x1_0000) == Folded(x)
  {
    var q, r := x / 0x1_0000, x % 0x1_0000;
    assert x == q + r + U16_MAX * q;
    if q + r > 0 { SameRemainder(q + r - 1, q); }
  }

  // ---- sums of pieces

  lemma {:induction false} WordSumAppend(a: Bytes, b: Bytes)
    requires |a| % 2 == 0
    ensures WordSum(a + b) == WordSum(a) + WordSum(b)
  {
    if b == [] {
      assert a + b == a;
    } else {
      assert LastWord(a + b) == |a| + LastWord(b);
      assert DropWord(a + b) == a + DropWord(b);
      WordSumAppend(a, DropWord(b));
    }
  }

  lemma {:induction false} WordSumBound(b: Bytes)
    ensures WordSum(b) <= U16_MAX * ((|b| + 1) / 2)
  {
    if b != [] { WordSumBound(DropWord(b)); }
  }

  lemma WordSumTwo(b: Bytes)
    requires |b| == 2
    ensures WordSum(b) == Pair(b[0], b[1])
  {
    assert DropWord(b) == [];
  }

  // ---- eight bytes at a time

  // The number a row of bytes denotes, least significant byte first: a little-endian load.
  function Load(b: Bytes): nat {
    if b == [] then 0 else b[0] + Scaled(Load(b[1..]))
  }

  function Scaled(x: nat): nat {
    0x100 * x
  }

  function Pow256(k: nat): (r: nat)
    ensures r > 0
  {
    if k == 0 then 1 else Pow256(k - 1) * 0x100
  }

  // `value & 0x00ff_00ff_00ff_00ff`
  function LowBytes(v: nat): nat {
    v % 0x100 + 0x1_0000 * (v / 0x1_0000 % 0x100) + 0x1_0000_0000 * (v / 0x1_0000_0000 % 0x100)
      + 0x1_0000_0000_0000 * (v / 0x1_0000_0000_0000 % 0x100)
  }

  // `value & 0xff00_ff00_ff00_ff00`
  function HighBytes(v: nat): nat {
    0x100 * (v / 0x100 % 0x100) + 0x100_0000 * (v / 0x100_0000 % 0x100)
        + 0x100_0000_0000 * (v / 0x100_0000_0000 % 0x100)
      + 0x100_0000_0000_0000 * (v / 0x100_0000_0000_0000 % 0x100)
  }

  // swap_bytes_in_each_u16
  function SwapEach(v: nat): nat {
    LowBytes(v) * 0x100 + HighBytes(v) / 0x100
  }

  // Shifting right by whole bytes drops them.
  lemma {:induction false} Shifted(b: Bytes, k: nat)
    requires k <= |b|
    ensures Load(b) / Pow256(k) == Load(b[k..])
  {
    if k == 0 {
      assert b[0..] == b;
    } else {
      Shifted(b, k - 1);
      DivTwice(Load(b), Pow256(k - 1), 0x100);
      var tail := b[k - 1..];
      assert tail[1..] == b[k..];
      Quotient(Load(tail), 0x100, Load(b[k..]), tail[0]);
    }
  }

  lemma ByteAt(b: Bytes, k: nat)
    requires k < |b|
    ensures Load(b) / Pow256(k) % 0x100 == b[k]
  {
    hide Load, Pow256;
    Shifted(b, k);
    LoadStep(b, k);
    Quotient(Load(b[k..]), 0x100, Load(b[k + 1..]), b[k]);
  }

  lemma LoadStep(b: Bytes, k: nat)
    requires k < |b|
    ensures Load(b[k..]) == b[k] + Scaled(Load(b[k + 1..]))
  {
    assert b[k..][1..] == b[k + 1..];
  }

  lemma Powers256()
    ensures Pow256(0) == 1 && Pow256(1) == 0x100 && Pow256(2) == 0x1_0000 && Pow256(3) == 0x100_0000
            && Pow256(4) == 0x1_0000_0000
    ensures Pow256(5) == 0x100_0000_0000 && Pow256(6) == 0x1_0000_0000_0000 && Pow256(7) == 0x100_0000_0000_0000
  {
    assert Pow256(2) == 0x1_0000;
    assert Pow256(4) == 0x1_0000_0000;
    assert Pow256(6) == 0x1_0000_0000_0000;
  }

  function Swapped(b: Bytes): Bytes
    requires |b| == 8
  {
    [b[1], b[0], b[3], b[2], b[5], b[4], b[7], b[6]]
  }

  lemma LoadEight(b: Bytes)
    requires |b| == 8
    ensures var b0: nat, b1: nat, b2: nat, b3: nat, b4: nat, b5: nat, b6: nat, b7: nat := b[0], b[1], b[2], b[3],
            b[4], b[5], b[6], b[7];
            Load(b) == b0 + 0x100 * b1 + 0x1_0000 * b2 + 0x100_0000 * b3 + 0x1_0000_0000 * b4 + 0x100_0000_0000 * b5
                     + 0x1_0000_0000_0000 * b6 + 0x100_0000_0000_0000 * b7
  {
    assert b[0..] == b && Load(b[8..]) == 0;
    hide Load;
    LoadStep(b, 0);
    LoadStep(b, 1);
    LoadStep(b, 2);
    LoadStep(b, 3);
    LoadStep(b, 4);
    LoadStep(b, 5);
    LoadStep(b, 6);
    LoadStep(b, 7);
  }

  // swap_bytes_in_each_u16 exchanges the bytes of each pair.
  lemma SwapEachSwaps(b: Bytes)
    requires |b| == 8
    ensures SwapEach(Load(b)) == Load(Swapped(b))
  {
    Powers256();
    forall k | 0 <= k < 8 ensures Load(b) / Pow256(k) % 0x100 == b[k] { ByteAt(b, k); }
    LoadEight(Swapped(b));
    hide Load, Pow256;
    var v := Load(b);
    var b0: nat, b1: nat, b2: nat, b3: nat, b4: nat, b5: nat, b6: nat, b7: nat := b[0], b[1], b[2], b[3], b[4], b[5],
        b[6], b[7];
    assert v / 1 == v;
    assert LowBytes(v) == b0 + 0x1_0000 * b2 + 0x1_0000_0000 * b4 + 0x1_0000_0000_0000 * b6 by {
      assert v / Pow256(0) % 0x100 == b0 && v / Pow256(2) % 0x100 == b2 && v / Pow256(4) % 0x100 == b4
             && v / Pow256(6) % 0x100 == b6;
    }
    assert HighBytes(v) == 0x100 * (b1 + 0x1_0000 * b3 + 0x1_0000_0000 * b5 + 0x1_0000_0000_0000 * b7) by {
      assert v / Pow256(1) % 0x100 == b1 && v / Pow256(3) % 0x100 == b3 && v / Pow256(5) % 0x100 == b5
             && v / Pow256(7) % 0x100 == b7;
    }
    HighHalf(HighBytes(v), b1 + 0x1_0000 * b3 + 0x1_0000_0000 * b5 + 0x1_0000_0000_0000 * b7);
  }

  lemma HighHalf(x: nat, y: nat)
    requires x == 0x100 * y
    ensures x / 0x100 == y
  {
  }

  // The k-th 16-bit lane.
  function Lane(v: nat, k: nat): nat {
    v / Pow256(2 * k) % 0x1_0000
  }

  lemma LaneAt(b: Bytes, k: nat)
    requires |b| == 8 && k < 4
    ensures Lane(Load(Swapped(b)), k) == Pair(b[2 * k], b[2 * k + 1])
  {
    hide Load, Pow256;
    var s := Swapped(b);
    Shifted(s, 2 * k);
    LoadStep(s, 2 * k);
    LoadStep(s, 2 * k + 1);
    assert s[2 * k] == b[2 * k + 1] && s[2 * k + 1] == b[2 * k];
    Quotient(Load(s[2 * k..]), 0x1_0000, Load(s[2 * k + 2..]), Pair(b[2 * k], b[2 * k + 1]));
  }

  lemma EightBytes(b: Bytes)
    requires |b| == 8
    ensures WordSum(b) == Pair(b[0], b[1]) + Pair(b[2], b[3]) + Pair(b[4], b[5]) + Pair(b[6], b[7])
  {
    assert b == b[..2] + (b[2..4] + (b[4..6] + b[6..]));
    WordSumAppend(b[..2], b[2..4] + (b[4..6] + b[6..]));
    WordSumAppend(b[2..4], b[4..6] + b[6..]);
    WordSumAppend(b[4..6], b[6..]);
    WordSumTwo(b[..2]);
    WordSumTwo(b[2..4]);
    WordSumTwo(b[4..6]);
    WordSumTwo(b[6..]);
  }

  // The four lanes of a swapped load are the four words.
  lemma EightLanes(b: Bytes)
    requires |b| == 8
    ensures var v := SwapEach(Load(b)); Lane(v, 0) + Lane(v, 1) + Lane(v, 2) + Lane(v, 3) == WordSum(b)
  {
    hide Load, SwapEach, WordSum, Lane, Swapped, Pair;
    SwapEachSwaps(b);
    LaneAt(b, 0);
    LaneAt(b, 1);
    LaneAt(b, 2);
    LaneAt(b, 3);
    EightBytes(b);
  }

  lemma NoWords(b: Bytes)
    ensures WordSum(b[..0]) == 0
  {
    assert b[..0] == [];
  }

  lemma NextPiece(b: Bytes, i: nat, j: nat)
    requires i <= j <= |b| && i % 2 == 0
    ensures WordSum(b[..j]) == WordSum(b[..i]) + WordSum(b[i..j])
  {
    hide WordSum;
    assert b[..j] == b[..i] + b[i..j];
    WordSumAppend(b[..i], b[i..j]);
  }

  // accumulate_u64_words
  method AccumulateWords(b: Bytes) returns (sum: nat)
    requires |b| % 2 == 0
    ensures sum == WordSum(b)
  {
    hide WordSum, Lane, Load, SwapEach, Pair;
    sum := 0;
    var index := 0;
    NoWords(b);
    while index + 8 <= |b|
      invariant index <= |b| && index % 2 == 0 && sum == WordSum(b[..index])
    {
      var swapped := SwapEach(Load(b[index..index + 8]));
      EightLanes(b[index..index + 8]);
      NextPiece(b, index, index + 8);
      sum := sum + Lane(swapped, 0) + Lane(swapped, 1) + Lane(swapped, 2) + Lane(swapped, 3);
      index := index + 8;
    }
    while index + 2 <= |b|
      invariant index <= |b| && index % 2 == 0 && sum == WordSum(b[..index])
    {
      NextPiece(b, index, index + 2);
      WordSumTwo(b[index..index + 2]);
      sum := sum + Pair(b[index], b[index + 1]);
      index := index + 2;
    }
    assert b[..index] == b;
  }

  // ---- vectors of lanes

  // A lane as loaded on a little-endian host, and with its bytes swapped.
  function SwapBytes(w: nat): nat {
    Pair(w % 0x100, w / 0x100)
  }

  // The lanes of one vector, swapped and added up.
  method ReduceSum(b: Bytes, lanes: nat) returns (sum: nat)
    requires |b| == 2 * lanes && lanes <= 32
    ensures sum == WordSum(b) && sum <= U32_MAX
  {
    hide WordSum, Pair, SwapBytes;
    sum := 0;
    NoWords(b);
    for k := 0 to lanes
      invariant sum == WordSum(b[..2 * k])
    {
      var high: nat, low: nat := b[2 * k], b[2 * k + 1];
      var loaded := Pair(low, high);
      NextPiece(b, 2 * k, 2 * k + 2);
      WordSumTwo(b[2 * k..2 * k + 2]);
      SwapPair(low, high);
      sum := sum + SwapBytes(loaded);
    }
    assert b[..2 * lanes] == b;
    WordSumBound(b);
  }

  lemma SwapPair(low: nat, high: nat)
    requires low < 0x100 && high < 0x100
    ensures SwapBytes(Pair(low, high)) == Pair(high, low)
  {
    Quotient(Pair(low, high), 0x100, low, high);
  }

  // accumulate_simd
  method AccumulateSimd(b: Bytes, lanes: nat) returns (total: nat)
    requires |b| % 2 == 0 && 0 < lanes <= 32
    ensures total == WordSum(b)
  {
    hide WordSum;
    total := 0;
    var index := 0;
    NoWords(b);
    while index + 2 * lanes <= |b|
      invariant index <= |b| && index % 2 == 0 && total == WordSum(b[..index])
    {
      var sum := ReduceSum(b[index..index + 2 * lanes], lanes);
      NextPiece(b, index, index + 2 * lanes);
      total := total + sum;
      index := index + 2 * lanes;
    }
    var rest := AccumulateWords(b[index..]);
    NextPiece(b, index, |b|);
    assert b[..|b|] == b && b[index..] == b[index..|b|];
    total := total + rest;
  }

  // accumulate_for_simd: 64, 32 and 16 bytes at a time, or none
  method Accumulate(b: Bytes, simdBytes: nat) returns (sum: nat)
    requires |b| % 2 == 0 && simdBytes in {1, 16, 32, 64}
    ensures sum == WordSum(b)
  {
    if simdBytes == 1 {
      sum := AccumulateWords(b);
    } else {
      sum := AccumulateSimd(b, simdBytes / 2);
    }
  }

  // ---- the running checksum

  class InternetChecksum {
    var sum: nat
    var trailingHigh: Option<Byte>
    ghost var seen: Bytes

    // The even part of everything written is in `sum` up to folding, an odd last byte is kept back.
    ghost predicate Valid()
      reads this
    {
      && |seen| <= MAX_BYTES
      && trailingHigh == (if |seen| % 2 == 1 then Some(seen[|seen| - 1]) else None)
      && Holds(sum, Even(seen))
      && sum <= U16_MAX * (|seen| / 2 + 1)
    }

    constructor ()
      ensures Valid() && seen == []
    {
      sum, trailingHigh, seen := 0, None, [];
    }

    // The chunks of an even run of bytes, folded one by one.
    method AddChunks(b: Bytes, simdBytes: nat, ghost base: Bytes)
      requires |b| % 2 == 0 && simdBytes in {1, 16, 32, 64} && Holds(sum, base) && sum <= U16_MAX * MAX_BYTES
      modifies this`sum
      ensures Holds(sum, base + b) && (if b == [] then sum == old(sum) else sum <= U16_MAX)
    {
      hide WordSum, Folded, Holds;
      var index := 0;
      assert base + b[..0] == base;
      while index < |b|
        invariant index <= |b| && index % 2 == 0 && Holds(sum, base + b[..index])
        invariant if index == 0 then sum == old(sum) else sum <= U16_MAX
      {
        var end := if |b| - index < CHUNK_BYTES then |b| else index + CHUNK_BYTES;
        var chunk := b[index..end];
        var words := Accumulate(chunk, simdBytes);
        WordSumBound(chunk);
        HoldsMore(sum, base + b[..index], chunk);
        assert base + b[..index] + chunk == base + b[..end];
        sum := FoldSum(sum + words);
        index := end;
      }
      assert b[..index] == b;
    }

    // A byte kept back is completed by the first new byte.
    method TakeTrailing(bytes: Bytes) returns (start: nat)
      requires Valid() && bytes != []
      modifies this`sum
      ensures start == |seen| % 2
      ensures Holds(sum, Even(seen) + Completed(seen, bytes))
      ensures sum <= U16_MAX * ((|seen| + start) / 2 + 1)
    {
      hide WordSum, Folded, Holds, Pair;
      ghost var base := Even(seen);
      start := 0;
      assert base + [] == base;
      if trailingHigh.Some? {
        var high := trailingHigh.value;
        SmallPair(high, bytes[0]);
        HoldsMore(sum, base, [high, bytes[0]]);
        WordSumTwo([high, bytes[0]]);
        sum := sum + Pair(high, bytes[0]);
        start := 1;
      }
    }

    // write_checksum
    method Write(bytes: Bytes, simdBytes: nat)
      requires Valid() && simdBytes in {1, 16, 32, 64} && |seen| + |bytes| <= MAX_BYTES
      modifies this
      ensures Valid() && seen == old(seen) + bytes
    {
      hide WordSum, Folded, Holds, Pair, Even;
      if bytes == [] {
        assert seen + bytes == seen;
        return;
      }
      var start := TakeTrailing(bytes);
      ghost var base := Even(seen) + Completed(seen, bytes);
      var remainder := bytes[start..];
      var evenLen := |remainder| - |remainder| % 2;
      Regrouped(seen, bytes, start, evenLen);
      AddChunks(remainder[..evenLen], simdBytes, base);
      trailingHigh := if evenLen < |remainder| then Some(remainder[evenLen]) else None;
      seen := seen + bytes;
    }

    // finish
    method Finish() returns (checksum: nat)
      requires Valid()
      ensures checksum == U16_MAX - OnesSum(seen)
    {
      hide WordSum, Folded, OnesSum, Pair;
      var total := sum;
      if trailingHigh.Some? {
        total := total + Pair(trailingHigh.value, 0);
        SmallPair(trailingHigh.value, 0);
      }
      WithTrailing(seen);
      FoldedAdd(sum, total - sum);
      FoldedAdd(WordSum(Even(seen)), total - sum);
      OnesIsFolded(seen);
      var folded := FoldSum(total);
      checksum := U16_MAX - folded;
    }
  }

  // `sum` and the bytes whose words it stands for, up to folding.
  ghost predicate Holds(sum: nat, b: Bytes) {
    |b| % 2 == 0 && Folded(sum) == Folded(WordSum(b))
  }

  lemma HoldsMore(sum: nat, b: Bytes, more: Bytes)
    requires Holds(sum, b) && |more| % 2 == 0
    ensures Holds(sum + WordSum(more), b + more) && Holds(Folded(sum + WordSum(more)), b + more)
  {
    hide WordSum, Folded;
    WordSumAppend(b, more);
    FoldedAdd(sum, WordSum(more));
    FoldedAdd(WordSum(b), WordSum(more));
    FoldedFolded(sum + WordSum(more));
  }

  lemma FoldedFolded(x: nat)
    ensures Folded(Folded(x)) == Folded(x)
  {
    FoldedSmall(Folded(x));
  }

  function Even(b: Bytes): (r: Bytes)
    ensures |r| % 2 == 0 && |b| - |r| <= 1
  {
    if |b| % 2 == 0 then b else b[..|b| - 1]
  }

  lemma SmallPair(high: nat, low: nat)
    requires high < 0x100 && low < 0x100
    ensures Pair(high, low) <= U16_MAX
  {
  }

  function Flatten(parts: seq<Bytes>): Bytes {
    if parts == [] then [] else Flatten(parts[..|parts| - 1]) + parts[|parts| - 1]
  }

  // internet_checksum_parts: however the bytes are split, and whatever the vector width.
  method ChecksumParts(parts: seq<Bytes>, simdBytes: nat) returns (checksum: nat)
    requires simdBytes in {1, 16, 32, 64} && |Flatten(parts)| <= MAX_BYTES
    ensures checksum == U16_MAX - OnesSum(Flatten(parts))
  {
    var running := new InternetChecksum();
    assert parts[..0] == [];
    for i := 0 to |parts|
      invariant fresh(running) && running.Valid() && running.seen == Flatten(parts[..i])
    {
      assert parts[..i + 1][..i] == parts[..i];
      FlattenGrows(parts, i + 1);
      running.Write(parts[i], simdBytes);
    }
    assert parts[..|parts|] == parts;
    checksum := running.Finish();
  }

  lemma {:induction false} FlattenGrows(parts: seq<Bytes>, i: nat)
    requires i <= |parts|
    ensures |Flatten(parts[..i])| <= |Flatten(parts)|
    decreases |parts|
  {
    if i < |parts| {
      FlattenGrows(parts[..|parts| - 1], i);
      assert parts[..|parts| - 1][..i] == parts[..i];
    } else {
      assert parts[..i] == parts;
    }
  }

  // The pair of a byte kept back and the first new byte.
  ghost function Completed(seen: Bytes, bytes: Bytes): Bytes
    requires bytes != []
  {
    if |seen| % 2 == 1 then [seen[|seen| - 1], bytes[0]] else []
  }

  // The old even part, the completed pair and the new even run make up the new even part.
  lemma Regrouped(seen: Bytes, bytes: Bytes, start: nat, evenLen: nat)
    requires bytes != [] && start == |seen| % 2 && evenLen == |bytes| - start - (|bytes| - start) % 2
    ensures Even(seen) + Completed(seen, bytes) + bytes[start..][..evenLen] == Even(seen + bytes)
    ensures evenLen < |bytes| - start <==> |seen + bytes| % 2 == 1
    ensures evenLen < |bytes| - start ==> bytes[start..][evenLen] == (seen + bytes)[|seen + bytes| - 1]
  {
    hide Even, Completed;
    var all, cut := seen + bytes, |seen| + start;
    CompletedPart(seen, bytes);
    EvenSlice(all);
    assert bytes[start..][..evenLen] == all[cut..cut + evenLen];
    assert all[..cut] + all[cut..cut + evenLen] == all[..cut + evenLen];
    SameParity(|seen|, |bytes|, start);
  }

  lemma CompletedPart(seen: Bytes, bytes: Bytes)
    requires bytes != []
    ensures Even(seen) + Completed(seen, bytes) == (seen + bytes)[..|seen| + |seen| % 2]
  {
  }

  lemma EvenSlice(b: Bytes)
    ensures Even(b) == b[..|b| - |b| % 2]
  {
  }

  lemma SameParity(n: nat, m: nat, start: nat)
    requires start == n % 2 && m >= start
    ensures (m - start) % 2 == (n + m) % 2
  {
  }

  lemma WithTrailing(b: Bytes)
    ensures WordSum(b) == WordSum(Even(b)) + if |b| % 2 == 1 then Pair(b[|b| - 1], 0) else 0
  {
  }
}
