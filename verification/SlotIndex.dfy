// Unbounded positions mapped onto the slots of a ring.
module SlotIndex {

  function Index(size: nat, p: nat): (i: nat)
    requires size > 0
    ensures i < size
  {
    p % size
  }

  lemma SameIndex(size: nat, p: nat, q: nat)
    requires size > 0 && Index(size, p) == Index(size, q) && p - size < q < p + size
    ensures p == q
  {
    assert p == size * (p / size) + p % size && q == size * (q / size) + q % size;
    var d := p / size - q / size;
    assert p - q == size * d;
    assert (d >= 1 ==> size * d >= size) && (d <= -1 ==> size * d <= 0 - size);
  }

  lemma NextLap(size: nat, p: nat)
    requires size > 0
    ensures Index(size, p + size) == Index(size, p)
  {
    assert p + size == size * (p / size + 1) + p % size;
    var q := p + size;
    assert q == size * (q / size) + q % size;
    var d := q / size - p / size - 1;
    assert size * d == p % size - q % size;
    assert (d >= 1 ==> size * d >= size) && (d <= -1 ==> size * d <= 0 - size);
  }

  lemma SmallIndex(size: nat, p: nat)
    requires size > 0
    ensures Index(size, p) <= p && (p < size ==> Index(size, p) == p)
  {
  }
}
