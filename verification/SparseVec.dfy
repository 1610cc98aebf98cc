// A sparsely indexed vector: a bitmap with per-word rank counts over densely kept values, against a finite map.
module SparseVectors {
  import opened Arithmetic
  import opened BitWords
  import opened Common

  // How many members lie below `i`.
  ghost function Rank(members: seq<Word>, i: nat): nat
    requires i <= WORD_BITS * |members|
  {
    if i == 0 then 0 else Rank(members, i - 1) + if Bit(members, i - 1) then 1 else 0
  }

  // Inclusive prefix counts of the words.
  ghost predicate Counts(members: seq<Word>, counts: seq<nat>) {
    |counts| == |members| && forall w :: 0 <= w < |counts| ==> counts[w] == Rank(members, WORD_BITS * (w + 1))
  }

  lemma {:induction false} RankMono(members: seq<Word>, i: nat, j: nat)
    requires i <= j <= WORD_BITS * |members|
    ensures Rank(members, i) <= Rank(members, j) && (i < j && Bit(members, i) ==> Rank(members, i) < Rank(members, j))
    decreases j
  {
    hide Bit;
    if i < j { RankMono(members, i, j - 1); }
  }

  // A rank inside a word: the words before it and the low bits of the word.
  lemma {:induction false} RankInWord(members: seq<Word>, word: nat, bit: nat)
    requires word < |members| && bit <= WORD_BITS
    ensures Rank(members, WORD_BITS * word + bit) == Rank(members, WORD_BITS * word) + Ones(members[word][..bit])
  {
    hide Bit;
    if bit > 0 {
      RankInWord(members, word, bit - 1);
      BitsOfWord(members, word);
      assert members[word][..bit][..bit - 1] == members[word][..bit - 1];
    }
  }

  function SetBit(members: seq<Word>, i: nat, b: bool): (r: seq<Word>)
    requires i < WORD_BITS * |members|
    ensures |r| == |members| && forall k :: 0 <= k < WORD_BITS * |members| ==> Bit(r, k) == if k == i then b
            else Bit(members, k)
  {
    var word: Word := members[i / WORD_BITS][i % WORD_BITS := b];
    members[i / WORD_BITS := word]
  }

  // Setting or clearing one bit moves the ranks above it by one.
  lemma {:induction false} RankSet(members: seq<Word>, i: nat, b: bool, k: nat)
    requires i < WORD_BITS * |members| && k <= WORD_BITS * |members| && Bit(members, i) == !b
    ensures var r := SetBit(members, i, b);
            Rank(r, k) == if k <= i then Rank(members, k) else if b then Rank(members, k) + 1 else Rank(members, k) - 1
    decreases k
  {
    hide Bit;
    if k > 0 { RankSet(members, i, b, k - 1); }
  }

  ghost function Contents<T>(members: seq<Word>, values: seq<T>): map<nat, T>
    requires |values| == Rank(members, WORD_BITS * |members|)
  {
    map i: nat | i < WORD_BITS * |members| && Bit(members, i) ::
        RankMono(members, i, WORD_BITS * |members|); values[Rank(members, i)]
  }

  // The value at a member, and that different members have different dense places.
  lemma ContentsAt<T>(members: seq<Word>, values: seq<T>, i: nat)
    requires |values| == Rank(members, WORD_BITS * |members|) && i < WORD_BITS * |members|
    ensures i in Contents(members, values) <==> Bit(members, i)
    ensures Bit(members, i) ==> Rank(members, i) < |values| && Contents(members, values)[i] == values[Rank(members, i)]
  {
    hide Bit, Rank;
    RankMono(members, i, WORD_BITS * |members|);
  }

  lemma NotMember<T>(members: seq<Word>, values: seq<T>, i: nat)
    requires |values| == Rank(members, WORD_BITS * |members|)
    ensures i >= WORD_BITS * |members| || !Bit(members, i) ==>
              i !in Contents(members, values) && Contents(members, values) - {i} == Contents(members, values)
  {
    hide Bit, Rank;
  }

  lemma Replaced<T>(members: seq<Word>, values: seq<T>, i: nat, v: T)
    requires |values| == Rank(members, WORD_BITS * |members|) && i < WORD_BITS * |members| && Bit(members, i)
    ensures Rank(members, i) < |values|
            && Contents(members, values[Rank(members, i) := v]) == Contents(members, values)[i := v]
  {
    hide Bit, Rank;
    ContentsAt(members, values, i);
    var values' := values[Rank(members, i) := v];
    forall k: nat | k < WORD_BITS * |members| && Bit(members, k) && k != i
      ensures Rank(members, k) < |values| && values'[Rank(members, k)] == values[Rank(members, k)]
    {
      ContentsAt(members, values, k);
      if k < i { RankMono(members, k, i); } else { RankMono(members, i, k); }
    }
  }

  lemma MemberAdded<T>(members: seq<Word>, values: seq<T>, i: nat, v: T)
    requires |values| == Rank(members, WORD_BITS * |members|) && i < WORD_BITS * |members| && !Bit(members, i)
    ensures var r, d := SetBit(members, i, true), Rank(members, i);
            && d <= |values| && |values| + 1 == Rank(r, WORD_BITS * |r|)
            && Contents(r, values[..d] + [v] + values[d..]) == Contents(members, values)[i := v]
  {
    hide Bit, Rank, SetBit;
    var r, d, n := SetBit(members, i, true), Rank(members, i), WORD_BITS * |members|;
    RankMono(members, i, n);
    RankSet(members, i, true, n);
    RankSet(members, i, true, i);
    var values' := values[..d] + [v] + values[d..];
    forall k: nat | k < n && Bit(r, k) ensures Rank(r, k) < |values'| && (k != i ==> Rank(members, k) < |values|)
        && values'[Rank(r, k)] == if k == i then v else values[Rank(members, k)] {
      AddedAt(members, values, i, v, k);
    }
  }

  lemma AddedAt<T>(members: seq<Word>, values: seq<T>, i: nat, v: T, k: nat)
    requires |values| == Rank(members, WORD_BITS * |members|) && i < WORD_BITS * |members| && !Bit(members, i)
    requires k < WORD_BITS * |members| && Bit(SetBit(members, i, true), k)
    ensures var r, d := SetBit(members, i, true), Rank(members, i);
            && d <= |values|
            && var values' := values[..d] + [v] + values[d..];
            && Rank(r, k) < |values'| && (k != i ==> Rank(members, k) < |values| && Bit(members, k))
            && values'[Rank(r, k)] == if k == i then v else values[Rank(members, k)]
  {
    hide Rank;
    RankMono(members, i, WORD_BITS * |members|);
    RankMono(members, k, WORD_BITS * |members|);
    RankSet(members, i, true, k);
    if k < i { RankMono(members, k, i); } else { RankMono(members, i, k); }
  }

  lemma SetBack(members: seq<Word>, i: nat)
    requires i < WORD_BITS * |members| && Bit(members, i)
    ensures SetBit(SetBit(members, i, false), i, true) == members
  {
    var w, k := i / WORD_BITS, i % WORD_BITS;
    assert members[w][k := false][k := true] == members[w];
  }

  lemma MemberRemoved<T>(members: seq<Word>, values: seq<T>, i: nat)
    requires |values| == Rank(members, WORD_BITS * |members|) && i < WORD_BITS * |members| && Bit(members, i)
    ensures var r, d := SetBit(members, i, false), Rank(members, i);
            && d < |values| && |values| - 1 == Rank(r, WORD_BITS * |r|)
            && Contents(r, values[..d] + values[d + 1..]) == Contents(members, values) - {i}
            && i in Contents(members, values) && Contents(members, values)[i] == values[d]
  {
    hide Bit, Rank, SetBit, Contents;
    var r, d, n := SetBit(members, i, false), Rank(members, i), WORD_BITS * |members|;
    ContentsAt(members, values, i);
    RankSet(members, i, false, n);
    RankSet(members, i, false, i);
    var values' := values[..d] + values[d + 1..];
    SetBack(members, i);
    MemberAdded(r, values', i, values[d]);
    assert values'[..d] + [values[d]] + values'[d..] == values;
    ContentsAt(r, values', i);
  }

  // The counts from `word` on are one higher, or one lower.
  ghost predicate StepFrom(counts: seq<nat>, counts': seq<nat>, word: nat, up: bool) {
    |counts'| == |counts| && forall w :: 0 <= w < |counts| ==>
      if w < word then counts'[w] == counts[w] else if up then counts'[w] == counts[w] + 1
          else counts'[w] + 1 == counts[w]
  }

  // Every later word counts one member more or less.
  lemma CountsMoved(members: seq<Word>, counts: seq<nat>, counts': seq<nat>, i: nat, b: bool)
    requires Counts(members, counts) && i < WORD_BITS * |members| && Bit(members, i) == !b
    requires StepFrom(counts, counts', i / WORD_BITS, b)
    ensures Counts(SetBit(members, i, b), counts')
  {
    hide Rank, SetBit, Bit;
    forall w | 0 <= w < |counts| ensures counts'[w] == Rank(SetBit(members, i, b), WORD_BITS * (w + 1)) {
      RankSet(members, i, b, WORD_BITS * (w + 1));
    }
  }

  // A word at or after the one of a member counts at least that member.
  lemma CountedIn(members: seq<Word>, counts: seq<nat>, i: nat)
    requires Counts(members, counts) && i < WORD_BITS * |members| && Bit(members, i)
    ensures forall w :: i / WORD_BITS <= w < |counts| ==> counts[w] > 0
  {
    hide Rank, Bit;
    forall w | i / WORD_BITS <= w < |counts| ensures counts[w] > 0 {
      RankMono(members, i, WORD_BITS * (w + 1));
    }
  }

  class SparseVec<T> {
    const limit: nat
    var members: seq<Word>
    var memberCounts: seq<nat>
    var values: seq<T>

    ghost predicate Valid()
      reads this
    {
      && limit <= WORD_BITS * |members| && Counts(members, memberCounts)
      && |values| == Rank(members, WORD_BITS * |members|)
    }

    ghost function Map(): map<nat, T>
      requires Valid()
      reads this
    {
      Contents(members, values)
    }

    // with_index_bits
    constructor (indexBits: nat)
      requires indexBits <= 64
      ensures Valid() && Map() == map[] && limit == Pow2(if indexBits < 64 then indexBits else 63)
    {
      var words := if indexBits <= 6 then 1 else Pow2(indexBits - 6);
      IndexSpace(indexBits);
      limit := Pow2(if indexBits < 64 then indexBits else 63);
      var none: seq<Word> := seq(words, _ => ZeroWord());
      members, memberCounts, values := none, seq(words, _ => 0), [];
      forall k | 0 <= k <= WORD_BITS * words ensures Rank(none, k) == 0 { NoMembers(none, k); }
    }

    // dense_index
    method DenseIndex(word: nat, bit: nat) returns (dense: nat)
      requires Valid() && word < |members| && bit < WORD_BITS
      ensures dense == Rank(members, WORD_BITS * word + bit)
    {
      hide Rank;
      var lower := Ones(members[word][..bit]);
      var prior := if word == 0 then 0 else memberCounts[word - 1];
      RankInWord(members, word, bit);
      assert Rank(members, 0) == 0 by { NoRank(members); }
      dense := prior + lower;
    }

    // get
    method Get(index: nat) returns (value: Option<T>)
      requires Valid()
      ensures value == if index in Map() then Some(Map()[index]) else None
    {
      hide Rank, Contents, Bit;
      var word, bit := index / WORD_BITS, index % WORD_BITS;
      NotMember(members, values, index);
      if word >= |members| { return None; }
      BitsOfWord(members, word);
      if !members[word][bit] { return None; }
      ContentsAt(members, values, index);
      var dense := DenseIndex(word, bit);
      value := Some(values[dense]);
    }

    // insert
    method Insert(index: nat, value: T) returns (replaced: Option<T>)
      requires Valid() && index < limit
      modifies this
      ensures Valid() && Map() == old(Map())[index := value]
      ensures replaced == if index in old(Map()) then Some(old(Map())[index]) else None
    {
      hide Rank, Contents, Bit, SetBit;
      var word, bit := index / WORD_BITS, index % WORD_BITS;
      ContentsAt(members, values, index);
      BitsOfWord(members, word);
      var dense := DenseIndex(word, bit);
      if members[word][bit] {
        Replaced(members, values, index, value);
        replaced := Some(values[dense]);
        values := values[dense := value];
        return;
      }
      MemberAdded(members, values, index, value);
      var counts := Moved(memberCounts, word, true);
      CountsMoved(members, memberCounts, counts, index, true);
      members, memberCounts := SetBit(members, index, true), counts;
      values := values[..dense] + [value] + values[dense..];
      replaced := None;
    }

    // remove
    method Remove(index: nat) returns (removed: Option<T>)
      requires Valid()
      modifies this
      ensures Valid() && Map() == old(Map()) - {index}
      ensures removed == if index in old(Map()) then Some(old(Map())[index]) else None
    {
      hide Rank, Contents, Bit, SetBit, StepFrom;
      var word, bit := index / WORD_BITS, index % WORD_BITS;
      NotMember(members, values, index);
      if word >= |members| { return None; }
      BitsOfWord(members, word);
      if !members[word][bit] { return None; }
      var dense := DenseIndex(word, bit);
      MemberRemoved(members, values, index);
      CountedIn(members, memberCounts, index);
      var counts := Moved(memberCounts, word, false);
      CountsMoved(members, memberCounts, counts, index, false);
      removed := Some(values[dense]);
      members, memberCounts := SetBit(members, index, false), counts;
      values := values[..dense] + values[dense + 1..];
    }
  }

  // The counts from `word` on go up or down by one.
  method Moved(counts: seq<nat>, word: nat, up: bool) returns (r: seq<nat>)
    requires word <= |counts| && (up || forall w :: word <= w < |counts| ==> counts[w] > 0)
    ensures StepFrom(counts, r, word, up)
  {
    r := counts;
    for w := word to |counts|
      invariant |r| == |counts|
      invariant forall k :: 0 <= k < |counts| ==> r[k] == if k < word || w <= k then counts[k]
                else if up then counts[k] + 1 else counts[k] - 1
    {
      r := r[w := if up then r[w] + 1 else r[w] - 1];
    }
  }

  // The words cover the index space.
  lemma IndexSpace(indexBits: nat)
    requires indexBits <= 64
    ensures Pow2(if indexBits < 64 then indexBits else 63) <= WORD_BITS * if indexBits <= 6 then 1
            else Pow2(indexBits - 6)
  {
    assert Pow2(6) == 64;
    if indexBits <= 6 {
      PowGrows(indexBits, 6);
    } else {
      PowersAdd(6, indexBits - 6);
      PowGrows(if indexBits < 64 then indexBits else 63, indexBits);
    }
  }

  lemma NoRank(members: seq<Word>)
    ensures Rank(members, 0) == 0
  {
  }

  lemma {:induction false} NoMembers(members: seq<Word>, k: nat)
    requires k <= WORD_BITS * |members| && forall w :: 0 <= w < |members| ==> members[w] == ZeroWord()
    ensures Rank(members, k) == 0
  {
    if k > 0 { NoMembers(members, k - 1); }
  }
}
