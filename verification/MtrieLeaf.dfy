// Leaf encoding and address strides of the 16-8-8 trie.
module MtrieLeaves {
  import opened Arithmetic
  import opened Common

  const ROOT_LEN: nat := 0x1_0000
  const PLY_LEN: nat := 0x100
  const MISS: nat := 0
  const HALF: nat := 0x8000_0000

  // Leaves are 32-bit words: `<< 1` drops the top bit of the value.
  function Terminal(value: nat): nat {
    (2 * value) % (2 * HALF) + 1
  }

  function NonTerminal(ply: nat): nat {
    (2 * (ply + 1)) % (2 * HALF)
  }

  predicate IsTerminal(leaf: nat) {
    leaf % 2 == 1
  }

  function AdjIndex(leaf: nat): Option<nat> {
    if leaf % 2 == 1 then Some(leaf / 2) else None
  }

  function PlyIndex(leaf: nat): Option<nat> {
    if leaf != 0 && leaf % 2 == 0 then Some(leaf / 2 - 1) else None
  }

  // What a leaf says: a value, a child ply, or nothing.
  lemma LeafKinds(leaf: nat, value: nat, ply: nat)
    ensures AdjIndex(Terminal(value)) == Some(value % HALF) && PlyIndex(Terminal(value)) == None
    ensures ply < HALF - 1 ==> PlyIndex(NonTerminal(ply)) == Some(ply)
    ensures AdjIndex(NonTerminal(ply)) == None && !IsTerminal(NonTerminal(ply))
    ensures AdjIndex(MISS) == None && PlyIndex(MISS) == None
    ensures PlyIndex(leaf).Some? ==>
              !IsTerminal(leaf) && (leaf <= U32_MAX ==> leaf == NonTerminal(PlyIndex(leaf).value))
    ensures AdjIndex(leaf).Some? <==> IsTerminal(leaf)
    ensures !IsTerminal(leaf) && PlyIndex(leaf).None? ==> leaf == MISS
  {
  }

  // A 32-bit value survives the encoding exactly when its top bit is clear.
  lemma ValueSurvives(value: nat)
    requires value <= U32_MAX
    ensures AdjIndex(Terminal(value)) == Some(value) <==> value < HALF
  {
  }

  // The index of a ply survives the encoding exactly when it and its successor fit the 31 bits left.
  lemma PlySurvives(ply: nat)
    ensures PlyIndex(NonTerminal(ply)) == Some(ply) <==> ply < HALF - 1
  {
    assert NonTerminal(ply) < 2 * HALF;
  }

  // ---- strides

  function RootStride(key: nat): nat {
    key / 0x1_0000
  }

  function FirstStride(key: nat): nat {
    key / 0x100 % 0x100
  }

  function SecondStride(key: nat): nat {
    key % 0x100
  }

  // The two addresses agree on their first `len` bits.
  predicate Shares(key: nat, len: nat, addr: nat)
    requires len <= 32
  {
    key / Pow2(32 - len) == addr / Pow2(32 - len)
  }

  // The slots of one stride that a prefix of `bits` of its bits covers.
  predicate InSpan(base: nat, span: nat, slot: nat)
    requires span > 0
  {
    base / span == slot / span
  }

  lemma Powers()
    ensures Pow2(0) == 1 && Pow2(1) == 2 && Pow2(2) == 4 && Pow2(3) == 8 && Pow2(4) == 0x10 && Pow2(5) == 0x20
            && Pow2(6) == 0x40
    ensures Pow2(7) == 0x80 && Pow2(8) == 0x100 && Pow2(9) == 0x200 && Pow2(10) == 0x400 && Pow2(11) == 0x800
    ensures Pow2(12) == 0x1000 && Pow2(13) == 0x2000 && Pow2(14) == 0x4000 && Pow2(15) == 0x8000 && Pow2(16) == 0x1_0000
  {
    assert Pow2(4) == 0x10;
    assert Pow2(8) == 0x100;
    assert Pow2(12) == 0x1000;
  }

  // A prefix inside the root stride covers whole root slots.
  lemma SharesRoot(key: nat, len: nat, addr: nat)
    requires len <= 16
    ensures Shares(key, len, addr) <==> InSpan(RootStride(key), Pow2(16 - len), RootStride(addr))
  {
    PowersAdd(16, 16 - len);
    Powers();
    DivTwice(key, 0x1_0000, Pow2(16 - len));
    DivTwice(addr, 0x1_0000, Pow2(16 - len));
  }

  lemma SpanOf(h: nat, l: nat, span: nat, k: nat)
    requires span > 0 && span * k == 0x100 && l < 0x100
    ensures (0x100 * h + l) / span == k * h + l / span && l / span < k
  {
    var u, r := l / span, l % span;
    assert l == span * u + r;
    assert u >= k ==> span * u >= span * k;
    assert span * (k * h + u) + r == (span * k) * h + span * u + r;
    Quotient(0x100 * h + l, span, k * h + u, r);
  }

  // x = 256 h + l and a span that divides 256: the spans of x and y agree iff h and the spans of l do.
  lemma SpanSplit(h: nat, l: nat, h': nat, l': nat, bits: nat)
    requires l < 0x100 && l' < 0x100 && bits <= 8
    ensures (0x100 * h + l) / Pow2(bits) == (0x100 * h' + l') / Pow2(bits)
            <==> h == h' && l / Pow2(bits) == l' / Pow2(bits)
  {
    var span, k := Pow2(bits), Pow2(8 - bits);
    PowersAdd(bits, 8 - bits);
    Powers();
    hide Pow2;
    SpanOf(h, l, span, k);
    SpanOf(h', l', span, k);
    DigitsUnique(k, h, l / span, h', l' / span);
  }

  lemma DigitsUnique(k: nat, h: nat, u: nat, h': nat, u': nat)
    requires u < k && u' < k
    ensures k * h + u == k * h' + u' <==> h == h' && u == u'
  {
    Quotient(k * h + u, k, h, u);
    Quotient(k * h' + u', k, h', u');
  }

  lemma SharesFirst(key: nat, len: nat, addr: nat)
    requires 16 < len <= 24
    ensures Shares(key, len, addr) <==>
            RootStride(key) == RootStride(addr) && InSpan(FirstStride(key), Pow2(24 - len), FirstStride(addr))
  {
    var bits := 24 - len;
    PowersAdd(8, bits);
    Powers();
    DivTwice(key, 0x100, Pow2(bits));
    DivTwice(addr, 0x100, Pow2(bits));
    DivTwice(key, 0x100, 0x100);
    DivTwice(addr, 0x100, 0x100);
    var k, a := key / 0x100, addr / 0x100;
    SpanSplit(k / 0x100, k % 0x100, a / 0x100, a % 0x100, bits);
  }

  lemma SharesSecond(key: nat, len: nat, addr: nat)
    requires 24 < len <= 32
    ensures Shares(key, len, addr) <==>
            && RootStride(key) == RootStride(addr) && FirstStride(key) == FirstStride(addr)
            && InSpan(SecondStride(key), Pow2(32 - len), SecondStride(addr))
  {
    var bits := 32 - len;
    SpanSplit(key / 0x100, key % 0x100, addr / 0x100, addr % 0x100, bits);
    DivTwice(key, 0x100, 0x100);
    DivTwice(addr, 0x100, 0x100);
  }

  lemma StrideBounds(key: nat)
    requires key <= U32_MAX
    ensures RootStride(key) < ROOT_LEN && FirstStride(key) < PLY_LEN && SecondStride(key) < PLY_LEN
  {
  }
}
