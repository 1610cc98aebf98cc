// The 16-8-8 trie: insertion in any order against the function from addresses to values.
module Mtries {
  import opened Arithmetic
  import opened Common
  import opened MtrieLeaves

  type Ply = seq<nat>

  // Which slot refers to a child ply.
  datatype Owner = AtRoot(slot: nat) | Under(ply: nat, slot: nat)

  ghost predicate Sized(root: Ply, plies: seq<Ply>) {
    |root| == ROOT_LEN && forall i :: 0 <= i < |plies| ==> |plies[i]| == PLY_LEN
  }

  ghost predicate RootOwns(root: Ply, owner: seq<Owner>) {
    forall s :: 0 <= s < |root| && PlyIndex(root[s]).Some? ==>
        PlyIndex(root[s]).value < |owner| && owner[PlyIndex(root[s]).value] == AtRoot(s)
  }

  ghost predicate PlyOwns(ply: Ply, i: nat, owner: seq<Owner>)
    requires i < |owner|
  {
    forall t :: 0 <= t < |ply| && PlyIndex(ply[t]).Some? ==>
      && owner[i].AtRoot? && PlyIndex(ply[t]).value < |owner| && owner[PlyIndex(ply[t]).value] == Under(i, t)
  }

  // No ply is reached by two ways, and plies nest at most twice.
  ghost predicate Shape(root: Ply, plies: seq<Ply>, owner: seq<Owner>) {
    && Sized(root, plies) && |owner| == |plies| && RootOwns(root, owner)
    && forall i :: 0 <= i < |plies| ==> PlyOwns(plies[i], i, owner)
  }

  // lookup, by the three strides of the address
  function Find(root: Ply, plies: seq<Ply>, r: nat, f: nat, s: nat): Option<nat>
    requires Sized(root, plies) && r < ROOT_LEN && f < PLY_LEN && s < PLY_LEN
  {
    var leaf := root[r];
    if IsTerminal(leaf) then AdjIndex(leaf)
    else
      var i := PlyIndex(leaf);
      if i.None? || i.value >= |plies| then None
      else
        var first := plies[i.value][f];
        if IsTerminal(first) then AdjIndex(first)
        else
          var k := PlyIndex(first);
          if k.None? || k.value >= |plies| then None else AdjIndex(plies[k.value][s])
  }

  function Lookup(root: Ply, plies: seq<Ply>, addr: nat): Option<nat>
    requires Sized(root, plies) && addr <= U32_MAX
  {
    StrideBounds(addr);
    Find(root, plies, RootStride(addr), FirstStride(addr), SecondStride(addr))
  }

  // ---- fill_stride

  function Filled(leaves: Ply, base: nat, span: nat, leaf: nat): (r: Ply)
    requires span > 0
    ensures |r| == |leaves| && forall x :: 0 <= x < |r| ==> r[x] == if InSpan(base, span, x) then leaf else leaves[x]
  {
    seq(|leaves|, x requires 0 <= x < |leaves| => if InSpan(base, span, x) then leaf else leaves[x])
  }

  // `base & !(span - 1)` for a power of two.
  function SpanStart(base: nat, span: nat): nat
    requires span > 0
  {
    base - base % span
  }

  lemma SpanRange(base: nat, span: nat, x: nat)
    requires span > 0
    ensures InSpan(base, span, x) <==> SpanStart(base, span) <= x < SpanStart(base, span) + span
  {
    var q, r := base / span, base % span;
    assert base == span * q + r;
    if base - r <= x < base - r + span {
      Quotient(x, span, q, x - (base - r));
    } else {
      var d, s := x / span, x % span;
      assert x == span * d + s;
      assert d == q ==> x == base - r + s;
    }
  }

  lemma SpanFits(base: nat, span: nat, k: nat, n: nat)
    requires span > 0 && n == span * k && base < n
    ensures SpanStart(base, span) + span <= n
  {
    var q, r := base / span, base % span;
    assert base == span * q + r;
    assert q >= k ==> span * q >= span * k;
    assert span * (q + 1) <= span * k;
  }

  method FillStride(leaves: Ply, base: nat, prefixBits: nat, strideBits: nat, leaf: nat) returns (r: Ply)
    requires prefixBits <= strideBits && |leaves| == Pow2(strideBits) && base < |leaves|
    ensures r == Filled(leaves, base, Pow2(strideBits - prefixBits), leaf)
  {
    hide Pow2, InSpan, SpanStart;
    var span := Pow2(strideBits - prefixBits);
    var start := SpanStart(base, span);
    PowersAdd(strideBits - prefixBits, prefixBits);
    SpanFits(base, span, Pow2(prefixBits), |leaves|);
    r := leaves;
    for slot := start to start + span
      invariant |r| == |leaves|
      invariant forall x :: 0 <= x < |r| ==> r[x] == if start <= x < slot then leaf else leaves[x]
    {
      r := r[slot := leaf];
    }
    forall x | 0 <= x < |r| ensures InSpan(base, span, x) <==> start <= x < start + span {
      SpanRange(base, span, x);
    }
  }

  // ---- what each write does to the lookup

  lemma RootFilled(root: Ply, plies: seq<Ply>, owner: seq<Owner>, base: nat, span: nat, value: nat)
    requires Shape(root, plies, owner) && span > 0
    ensures var root' := Filled(root, base, span, Terminal(value));
            && Shape(root', plies, owner)
            && forall r, f, s :: 0 <= r < ROOT_LEN && 0 <= f < PLY_LEN && 0 <= s < PLY_LEN ==>
                 Find(root', plies, r, f, s) == if InSpan(base, span, r) then Some(value % HALF)
                     else Find(root, plies, r, f, s)
  {
    LeafKinds(0, value, 0);
    hide Terminal, PlyIndex, AdjIndex, IsTerminal, InSpan, PlyOwns;
    assert IsTerminal(Terminal(value)) by { LeafKinds(Terminal(value), value, 0); }
  }

  // A ply filled with the leaf it replaces changes no lookup.
  ghost predicate SameLookups(root: Ply, plies: seq<Ply>, root': Ply, plies': seq<Ply>)
    requires Sized(root, plies) && Sized(root', plies')
  {
    forall r, f, s :: 0 <= r < ROOT_LEN && 0 <= f < PLY_LEN && 0 <= s < PLY_LEN ==>
      Find(root', plies', r, f, s) == Find(root, plies, r, f, s)
  }

  function Put(ply: Ply, slot: nat, leaf: nat): Ply
    requires slot < |ply|
  {
    ply[slot := leaf]
  }

  function Uniform(leaf: nat): (ply: Ply)
    ensures |ply| == PLY_LEN && forall x :: 0 <= x < PLY_LEN ==> ply[x] == leaf
  {
    seq(PLY_LEN, x => leaf)
  }

  lemma RootPlyAdded(root: Ply, plies: seq<Ply>, owner: seq<Owner>, slot: nat)
    requires |plies| < HALF - 1
    requires Shape(root, plies, owner) && slot < ROOT_LEN && PlyIndex(root[slot]).None?
    ensures var root', plies' := Put(root, slot, NonTerminal(|plies|)), plies + [Uniform(root[slot])];
            Shape(root', plies', owner + [AtRoot(slot)]) && SameLookups(root, plies, root', plies')
  {
    var root', plies' := Put(root, slot, NonTerminal(|plies|)), plies + [Uniform(root[slot])];
    var owner' := owner + [AtRoot(slot)];
    LeafKinds(root[slot], 0, |plies|);
    LeafKinds(NonTerminal(|plies|), 0, |plies|);
    hide Terminal, NonTerminal, PlyIndex, AdjIndex, IsTerminal, PlyOwns;
    forall i | 0 <= i < |plies'| ensures PlyOwns(plies'[i], i, owner') {
      if i < |plies| { MoreOwners(plies[i], i, owner, AtRoot(slot)); } else { NoPlies(root[slot], i, owner'); }
    }
    forall r, f, s | 0 <= r < ROOT_LEN && 0 <= f < PLY_LEN && 0 <= s < PLY_LEN
      ensures Find(root', plies', r, f, s) == Find(root, plies, r, f, s)
    {
      SameBelow(root, plies, owner, r, f);
    }
  }

  // Every ply index on the way to an address is in range.
  lemma SameBelow(root: Ply, plies: seq<Ply>, owner: seq<Owner>, r: nat, f: nat)
    requires Shape(root, plies, owner) && r < ROOT_LEN && f < PLY_LEN
    ensures PlyIndex(root[r]).Some? ==>
              && PlyIndex(root[r]).value < |plies| && owner[PlyIndex(root[r]).value] == AtRoot(r)
              && var i := PlyIndex(root[r]).value;
              && var first := plies[i][f];
              && (PlyIndex(first).Some? ==>
                  PlyIndex(first).value < |plies| && owner[PlyIndex(first).value] == Under(i, f))
  {
    hide PlyIndex;
    if PlyIndex(root[r]).Some? {
      assert PlyOwns(plies[PlyIndex(root[r]).value], PlyIndex(root[r]).value, owner);
    }
  }

  lemma MoreOwners(ply: Ply, i: nat, owner: seq<Owner>, o: Owner)
    requires i < |owner| && PlyOwns(ply, i, owner)
    ensures PlyOwns(ply, i, owner + [o])
  {
    hide PlyIndex;
  }

  lemma NoPlies(leaf: nat, i: nat, owner: seq<Owner>)
    requires i < |owner| && PlyIndex(leaf).None?
    ensures PlyOwns(Uniform(leaf), i, owner)
  {
    hide PlyIndex;
  }

  lemma ChildPlyAdded(root: Ply, plies: seq<Ply>, owner: seq<Owner>, i: nat, slot: nat)
    requires |plies| < HALF - 1
    requires Shape(root, plies, owner) && i < |plies| && owner[i].AtRoot? && slot < PLY_LEN
             && PlyIndex(plies[i][slot]).None?
    ensures var leaf := plies[i][slot];
            var plies' := plies[i := Put(plies[i], slot, NonTerminal(|plies|))] + [Uniform(leaf)];
            Shape(root, plies', owner + [Under(i, slot)]) && SameLookups(root, plies, root, plies')
  {
    var leaf := plies[i][slot];
    var ply := Put(plies[i], slot, NonTerminal(|plies|));
    var plies' := plies[i := ply] + [Uniform(leaf)];
    var owner' := owner + [Under(i, slot)];
    LeafKinds(leaf, 0, |plies|);
    LeafKinds(NonTerminal(|plies|), 0, |plies|);
    hide Terminal, NonTerminal, PlyIndex, AdjIndex, IsTerminal, PlyOwns;
    forall j | 0 <= j < |plies'| ensures PlyOwns(plies'[j], j, owner') {
      if j == |plies| { NoPlies(leaf, j, owner'); } else {
        MoreOwners(plies[j], j, owner, Under(i, slot));
        if j == i { OneMorePly(plies[i], i, owner', slot, |plies|); }
      }
    }
    forall r, f, s | 0 <= r < ROOT_LEN && 0 <= f < PLY_LEN && 0 <= s < PLY_LEN
      ensures Find(root, plies', r, f, s) == Find(root, plies, r, f, s)
    {
      SameBelow(root, plies, owner, r, f);
    }
  }

  lemma OneMorePly(ply: Ply, i: nat, owner: seq<Owner>, slot: nat, k: nat)
    requires k < HALF - 1
    requires i < |owner| && k < |owner| && PlyOwns(ply, i, owner) && slot < |ply| && owner[i].AtRoot?
             && owner[k] == Under(i, slot)
    ensures PlyOwns(Put(ply, slot, NonTerminal(k)), i, owner)
  {
    LeafKinds(NonTerminal(k), 0, k);
    hide PlyIndex, NonTerminal;
  }

  lemma FilledOwns(ply: Ply, i: nat, owner: seq<Owner>, base: nat, span: nat, value: nat)
    requires i < |owner| && PlyOwns(ply, i, owner) && span > 0
    ensures PlyOwns(Filled(ply, base, span, Terminal(value)), i, owner)
  {
    LeafKinds(Terminal(value), value, 0);
    hide PlyIndex, Terminal, InSpan;
  }

  // Filling a first-level ply changes the addresses of its root slot inside the span.
  lemma FirstFilled(root: Ply, plies: seq<Ply>, owner: seq<Owner>, slot: nat, base: nat, span: nat, value: nat)
    requires Shape(root, plies, owner) && slot < ROOT_LEN && PlyIndex(root[slot]).Some? && span > 0
             && PlyIndex(root[slot]).value < |plies|
    ensures var i := PlyIndex(root[slot]).value;
            var plies' := plies[i := Filled(plies[i], base, span, Terminal(value))];
            && Shape(root, plies', owner)
            && forall r, f, s :: 0 <= r < ROOT_LEN && 0 <= f < PLY_LEN && 0 <= s < PLY_LEN ==>
                 Find(root, plies', r, f, s) == if r == slot && InSpan(base, span, f) then Some(value % HALF)
                     else Find(root, plies, r, f, s)
  {
    var i := PlyIndex(root[slot]).value;
    var ply := Filled(plies[i], base, span, Terminal(value));
    var plies': seq<Ply> := plies[i := ply];
    LeafKinds(Terminal(value), value, 0);
    LeafKinds(root[slot], value, 0);
    hide Terminal, PlyIndex, AdjIndex, IsTerminal, InSpan, PlyOwns;
    forall j | 0 <= j < |plies'| ensures PlyOwns(plies'[j], j, owner) {
      if j == i { FilledOwns(plies[i], i, owner, base, span, value); }
    }
    forall r, f, s | 0 <= r < ROOT_LEN && 0 <= f < PLY_LEN && 0 <= s < PLY_LEN
      ensures Find(root, plies', r, f, s)
           == if r == slot && InSpan(base, span, f) then Some(value % HALF) else Find(root, plies, r, f, s)
    {
      SameBelow(root, plies, owner, r, f);
      SameBelow(root, plies, owner, slot, f);
    }
  }

  // Filling a second-level ply changes the addresses of its two slots inside the span.
  lemma SecondFilled(root: Ply, plies: seq<Ply>, owner: seq<Owner>, slot: nat, i: nat, t: nat, k: nat, base: nat,
                     span: nat, value: nat)
    requires Shape(root, plies, owner) && slot < ROOT_LEN && PlyIndex(root[slot]) == Some(i) && i < |plies| && span > 0
    requires t < PLY_LEN && PlyIndex(plies[i][t]) == Some(k) && k < |plies|
    ensures var plies' := plies[k := Filled(plies[k], base, span, Terminal(value))];
            && Shape(root, plies', owner)
            && forall r, f, s :: 0 <= r < ROOT_LEN && 0 <= f < PLY_LEN && 0 <= s < PLY_LEN ==>
                 Find(root, plies', r, f, s) == if r == slot && f == t && InSpan(base, span, s)
                     then Some(value % HALF) else Find(root, plies, r, f, s)
  {
    var ply := Filled(plies[k], base, span, Terminal(value));
    var plies': seq<Ply> := plies[k := ply];
    LeafKinds(Terminal(value), value, 0);
    LeafKinds(root[slot], value, 0);
    LeafKinds(plies[i][t], value, 0);
    hide Terminal, PlyIndex, AdjIndex, IsTerminal, InSpan, PlyOwns;
    SameBelow(root, plies, owner, slot, t);
    forall j | 0 <= j < |plies'| ensures PlyOwns(plies'[j], j, owner) {
      if j == k { FilledOwns(plies[k], k, owner, base, span, value); }
    }
    forall r, f, s | 0 <= r < ROOT_LEN && 0 <= f < PLY_LEN && 0 <= s < PLY_LEN
      ensures Find(root, plies', r, f, s)
           == if r == slot && f == t && InSpan(base, span, s) then Some(value % HALF) else Find(root, plies, r, f, s)
    {
      SameBelow(root, plies, owner, r, f);
    }
  }

  // ---- how many plies there can be

  // Every ply still hangs where it was first put. Filling slots that lead to plies would cut those off.
  ghost predicate Attached(root: Ply, plies: seq<Ply>, owner: seq<Owner>) {
    |owner| == |plies| && forall i :: 0 <= i < |owner| ==> AttachedAt(root, plies, owner, i)
  }

  ghost predicate AttachedAt(root: Ply, plies: seq<Ply>, owner: seq<Owner>, i: nat)
    requires i < |owner| == |plies|
  {
    match owner[i]
    case AtRoot(s) => s < |root| && PlyIndex(root[s]) == Some(i)
    case Under(p, t) => p < |plies| && owner[p].AtRoot? && t < |plies[p]| && PlyIndex(plies[p][t]) == Some(i)
  }

  ghost predicate AllAtRoot(owner: seq<Owner>) {
    forall i :: 0 <= i < |owner| ==> owner[i].AtRoot?
  }

  // What routes no longer than `len`, inserted in order of length, leave behind.
  ghost predicate Level(owner: seq<Owner>, len: nat) {
    (len <= 16 ==> owner == []) && (len <= 24 ==> AllAtRoot(owner))
  }

  // A number for the place of a ply.
  ghost function PlaceOf(owner: seq<Owner>, i: nat): nat
    requires i < |owner| && (owner[i].Under? ==> owner[i].ply < |owner|)
  {
    if owner[i].AtRoot? then (PLY_LEN + 1) * owner[i].slot
    else (PLY_LEN + 1) * owner[owner[i].ply].slot + owner[i].slot + 1
  }

  lemma PlaceUnique(root: Ply, plies: seq<Ply>, owner: seq<Owner>, i: nat, j: nat)
    requires Sized(root, plies) && Attached(root, plies, owner) && i < |owner| && j < |owner|
    ensures (owner[i].Under? ==> owner[i].ply < |owner|) && (owner[j].Under? ==> owner[j].ply < |owner|)
    ensures PlaceOf(owner, i) < ROOT_LEN * (PLY_LEN + 1)
    ensures PlaceOf(owner, i) == PlaceOf(owner, j) ==> i == j
  {
    hide PlyIndex;
    assert AttachedAt(root, plies, owner, i) && AttachedAt(root, plies, owner, j);
    if owner[i].Under? { assert AttachedAt(root, plies, owner, owner[i].ply); }
    if owner[j].Under? { assert AttachedAt(root, plies, owner, owner[j].ply); }
  }

  // Attached plies are at most one per root slot and one per slot of those.
  lemma PlyBound(root: Ply, plies: seq<Ply>, owner: seq<Owner>)
    requires Sized(root, plies) && Attached(root, plies, owner)
    ensures |plies| <= ROOT_LEN * (PLY_LEN + 1)
  {
    assert |owner| == |plies|;
    hide Attached, Sized, PlaceOf;
    forall i, j | 0 <= i < |owner| && 0 <= j < |owner|
      ensures (owner[i].Under? ==> owner[i].ply < |owner|) && PlaceOf(owner, i) < ROOT_LEN * (PLY_LEN + 1)
      ensures (owner[j].Under? ==> owner[j].ply < |owner|) && (PlaceOf(owner, i) == PlaceOf(owner, j) ==> i == j)
    {
      PlaceUnique(root, plies, owner, i, j);
    }
    var places := seq(|owner|, i requires 0 <= i < |owner| => PlaceOf(owner, i));
    PigeonHole(places, ROOT_LEN * (PLY_LEN + 1));
  }

  lemma RootPlyAttached(root: Ply, plies: seq<Ply>, owner: seq<Owner>, slot: nat)
    requires |plies| < HALF - 1
    requires Attached(root, plies, owner) && slot < |root| && PlyIndex(root[slot]).None?
    ensures Attached(Put(root, slot, NonTerminal(|plies|)), plies + [Uniform(root[slot])], owner + [AtRoot(slot)])
  {
    var root', plies', owner' := Put(root, slot, NonTerminal(|plies|)), plies + [Uniform(root[slot])],
        owner + [AtRoot(slot)];
    LeafKinds(0, 0, |plies|);
    hide PlyIndex, NonTerminal;
    forall i | 0 <= i < |owner'| ensures AttachedAt(root', plies', owner', i) {
      assert i < |owner| ==> AttachedAt(root, plies, owner, i);
    }
  }

  lemma ChildPlyAttached(root: Ply, plies: seq<Ply>, owner: seq<Owner>, p: nat, slot: nat)
    requires |plies| < HALF - 1
    requires Attached(root, plies, owner) && p < |plies| && owner[p].AtRoot? && slot < |plies[p]|
             && PlyIndex(plies[p][slot]).None?
    ensures Attached(root, plies[p := Put(plies[p], slot, NonTerminal(|plies|))] + [Uniform(plies[p][slot])],
                     owner + [Under(p, slot)])
  {
    var plies', owner' := plies[p := Put(plies[p], slot, NonTerminal(|plies|))] + [Uniform(plies[p][slot])],
        owner + [Under(p, slot)];
    LeafKinds(0, 0, |plies|);
    hide PlyIndex, NonTerminal;
    forall i | 0 <= i < |owner'| ensures AttachedAt(root, plies', owner', i) {
      assert i < |owner| ==> AttachedAt(root, plies, owner, i);
    }
  }

  // Slots of a ply without children can be filled.
  lemma FilledAttached(root: Ply, plies: seq<Ply>, owner: seq<Owner>, k: nat, ply: Ply)
    requires Attached(root, plies, owner) && k < |plies| && |ply| == |plies[k]| && (AllAtRoot(owner) || owner[k].Under?)
    ensures Attached(root, plies[k := ply], owner)
  {
    hide PlyIndex;
    var plies' := plies[k := ply];
    forall i | 0 <= i < |owner| ensures AttachedAt(root, plies', owner, i) {
      assert AttachedAt(root, plies, owner, i);
    }
  }
}
