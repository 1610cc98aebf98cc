// The slot copies of the handoff queue: a batch into reserved slots, and a published slot out to a frame.
module HandoffCopy {
  import opened Arithmetic
  import opened SlotIndex
  import opened HandoffQueues

  // ---- into the slots

  // The words of the k-th slot of a batch: its share of the indices, then zeros.
  function Padded(indices: seq<nat>, k: nat): (row: seq<nat>)
    ensures |row| == SLOT_INDICES
    ensures forall j :: 0 <= j < SLOT_INDICES ==> row[j] == if SLOT_INDICES * k + j < |indices|
            then indices[SLOT_INDICES * k + j] else 0
  {
    seq(SLOT_INDICES, j requires 0 <= j < SLOT_INDICES => if SLOT_INDICES * k + j < |indices|
        then indices[SLOT_INDICES * k + j] else 0)
  }

  function Zeros(n: nat): (row: seq<nat>)
    ensures |row| == n && forall j :: 0 <= j < n ==> row[j] == 0
  {
    seq(n, _ => 0)
  }

  // copy_nonoverlapping into one row
  function Overwritten(row: seq<nat>, at: nat, words: seq<nat>): (r: seq<nat>)
    requires at + |words| <= |row|
    ensures |r| == |row|
    ensures forall j :: 0 <= j < |row| ==> r[j] == if at <= j < at + |words| then words[j - at] else row[j]
  {
    row[..at] + words + row[at + |words|..]
  }

  // The row of the k-th slot of a reservation.
  function Spot(size: nat, start: nat, k: nat): (i: nat)
    requires size > 0
    ensures i < size
  {
    Index(size, start + k)
  }

  lemma SpotsApart(size: nat, start: nat, j: nat, k: nat)
    requires size > 0 && j < size && k < size && Spot(size, start, j) == Spot(size, start, k)
    ensures j == k
  {
    SameIndex(size, start + j, start + k);
  }

  // `(slot_index + 1) & mask`
  lemma NextSpot(size: nat, start: nat, k: nat)
    requires size > 0
    ensures Spot(size, start, k + 1) == (Spot(size, start, k) + 1) % size
  {
    var p := start + k;
    var q, r := p / size, p % size;
    assert p == size * q + r;
    if r + 1 < size {
      Quotient(p + 1, size, q, r + 1);
      Quotient(r + 1, size, 0, r + 1);
    } else {
      assert p + 1 == size * (q + 1);
      Quotient(p + 1, size, q + 1, 0);
      Quotient(size, size, 1, 0);
    }
  }

  ghost predicate Outside(size: nat, start: nat, slots: nat, i: nat)
    requires size > 0
  {
    forall k :: 0 <= k < slots ==> i != Spot(size, start, k)
  }

  // What row `k` of a batch holds while its first word is still `first`.
  function Share(indices: seq<nat>, k: nat, first: nat): seq<nat> {
    if k == 0 then Padded(indices, 0)[0 := first] else Padded(indices, k)
  }

  // The rows of the first `slots` slots of a batch, and nothing else changed.
  ghost predicate Placed(rows: seq<seq<nat>>, before: seq<seq<nat>>, start: nat, indices: seq<nat>, slots: nat,
                         first: nat) {
    && |rows| == |before| && |rows| > 0
    && (forall k :: 0 <= k < slots ==> rows[Spot(|rows|, start, k)] == Share(indices, k, first))
    && (forall i :: 0 <= i < |rows| && Outside(|rows|, start, slots, i) ==> rows[i] == before[i])
  }

  lemma PlaceNext(rows: seq<seq<nat>>, before: seq<seq<nat>>, start: nat, indices: seq<nat>, k: nat, first: nat)
    requires Placed(rows, before, start, indices, k, first) && k < |rows|
    ensures rows[Spot(|rows|, start, k)] == before[Spot(|rows|, start, k)]
    ensures Placed(rows[Spot(|rows|, start, k) := Share(indices, k, first)], before, start, indices, k + 1, first)
  {
    hide Share, Spot;
    var n, at := |rows|, Spot(|rows|, start, k);
    forall j | 0 <= j < k ensures Spot(n, start, j) != at {
      if Spot(n, start, j) == at { SpotsApart(n, start, j, k); }
    }
  }

  class SlotArea {
    var rows: seq<seq<nat>>
    var auxRows: seq<seq<nat>>

    ghost predicate Valid()
      reads this
    {
      |rows| == |auxRows| > 0 && forall i :: 0 <= i < |rows| ==> |rows[i]| == |auxRows[i]| == SLOT_INDICES
    }

    // The auxiliary words of a batch, slot by slot, before its indices are copied.
    method CopyAux(start: nat, aux: seq<nat>)
      requires Valid() && Requested(|aux|) <= |rows|
      modifies this`auxRows
      ensures Valid() && AuxPlaced(auxRows, start, aux, Requested(|aux|))
      ensures OthersKept(auxRows, old(auxRows), start, Requested(|aux|))
    {
      hide Spot, AuxShare;
      var n := |auxRows|;
      for k := 0 to Requested(|aux|)
        invariant |auxRows| == n && Valid() && AuxPlaced(auxRows, start, aux, k)
                  && OthersKept(auxRows, old(auxRows), start, k)
      {
        var slot := (start + k) % n;
        assert slot == Spot(n, start, k) by { SpotIs(n, start, k); }
        var end := ShareEnd(|aux|, k);
        AuxNext(auxRows, start, aux, k, Overwritten(auxRows[slot], 0, aux[SLOT_INDICES * k..end]));
        auxRows := auxRows[slot := Overwritten(auxRows[slot], 0, aux[SLOT_INDICES * k..end])];
      }
    }

    // The first slot, apart from its first word.
    method CopyFirst(start: nat, indices: seq<nat>) returns (copied: nat)
      requires Valid() && indices != []
      modifies this`rows
      ensures Valid() && copied == (if |indices| < SLOT_INDICES then |indices| else SLOT_INDICES)
      ensures Placed(rows, old(rows), start, indices, 1, old(rows)[Spot(|old(rows)|, start, 0)][0])
    {
      hide Spot, Share, Placed, Padded;
      var n := |rows|;
      var slot := start % n;
      FirstSpot(n, start);
      ghost var first := rows[slot][0];
      NothingPlaced(rows, start, indices, first);
      copied := if |indices| < SLOT_INDICES then |indices| else SLOT_INDICES;
      var row := rows[slot];
      if copied < SLOT_INDICES {
        row := Overwritten(row, 1, Zeros(SLOT_INDICES - 1));
      }
      row := Overwritten(row, 1, indices[1..copied]);
      FirstShare(rows[slot], row, indices, copied);
      PlaceNext(rows, old(rows), start, indices, 0, first);
      rows := rows[slot := row];
    }

    // The slots that the batch fills completely, after the first.
    method CopyFull(start: nat, indices: seq<nat>, copied0: nat, ghost before: seq<seq<nat>>, ghost first: nat)
      returns (copied: nat, slot: nat, ghost k: nat)
      requires Valid() && indices != [] && Requested(|indices|) <= |rows|
               && Placed(rows, before, start, indices, 1, first)
      requires copied0 == (if |indices| < SLOT_INDICES then |indices| else SLOT_INDICES)
      modifies this`rows
      ensures Valid() && |rows| == |old(rows)| && 1 <= k <= Requested(|indices|) && slot == Spot(|rows|, start, k)
      ensures if |indices| < SLOT_INDICES then k == 1 && copied == |indices|
              else copied == SLOT_INDICES * k && |indices| - copied < SLOT_INDICES && copied <= |indices|
      ensures Placed(rows, before, start, indices, k, first)
    {
      hide Spot, Share, Placed, Padded;
      var n := |rows|;
      copied := copied0;
      FirstSpot(n, start);
      NextSpot(n, start, 0);
      slot := (start % n + 1) % n;
      k := 1;
      while |indices| - copied >= SLOT_INDICES
        invariant |rows| == n && Valid() && 1 <= k <= Requested(|indices|) && slot == Spot(n, start, k)
        invariant if |indices| < SLOT_INDICES then k == 1 && copied == |indices|
                  else copied == SLOT_INDICES * k <= |indices|
        invariant Placed(rows, before, start, indices, k, first)
      {
        var words := indices[copied..copied + SLOT_INDICES];
        MiddleShare(words, indices, k, first);
        PlaceNext(rows, before, start, indices, k, first);
        rows := rows[slot := Overwritten(rows[slot], 0, words)];
        copied := copied + SLOT_INDICES;
        NextSpot(n, start, k);
        slot := (slot + 1) % n;
        k := k + 1;
      }
    }

    // Everything of copy_and_publish_indices_to_slots but the publishing store.
    method CopyBatch(start: nat, indices: seq<nat>)
      requires Valid() && indices != [] && Requested(|indices|) <= |rows|
      modifies this`rows
      ensures Valid()
      ensures Placed(rows, old(rows), start, indices, Requested(|indices|), old(rows)[Spot(|old(rows)|, start, 0)][0])
    {
      hide Spot, Share, Placed, Padded;
      ghost var before := rows;
      ghost var first := rows[Spot(|rows|, start, 0)][0];
      var copied := CopyFirst(start, indices);
      SameSize(rows, before, start, indices, 1, first);
      var slot;
      ghost var k;
      copied, slot, k := CopyFull(start, indices, copied, before, first);
      if copied < |indices| {
        var row := Overwritten(rows[slot], 0, Zeros(SLOT_INDICES));
        row := Overwritten(row, 0, indices[copied..]);
        LastShare(row, indices, k, first);
        PlaceNext(rows, before, start, indices, k, first);
        rows := rows[slot := row];
      }
    }

    // copy_and_publish_indices_to_slots: the first word of the first slot is stored last.
    method CopyAndPublish(start: nat, indices: seq<nat>)
      requires Valid() && indices != [] && Requested(|indices|) <= |rows|
      modifies this`rows
      ensures Valid() && Placed(rows, old(rows), start, indices, Requested(|indices|), indices[0])
    {
      CopyBatch(start, indices);
      ghost var unpublished := rows;
      var slot := start % |rows|;
      FirstSpot(|rows|, start);
      rows := rows[slot := rows[slot][0 := indices[0]]];
      PublishedRows(unpublished, old(rows), start, indices, Requested(|indices|), old(rows)[slot][0]);
    }
  }

  lemma SpotIs(n: nat, start: nat, k: nat)
    requires n > 0
    ensures (start + k) % n == Spot(n, start, k)
  {
  }

  // The row starts with the share of the k-th slot.
  ghost predicate AuxShare(row: seq<nat>, aux: seq<nat>, k: nat) {
    |row| == SLOT_INDICES && forall j :: 0 <= j < SLOT_INDICES && SLOT_INDICES * k + j < |aux| ==>
        row[j] == aux[SLOT_INDICES * k + j]
  }

  ghost predicate AuxPlaced(rows: seq<seq<nat>>, start: nat, aux: seq<nat>, slots: nat) {
    |rows| > 0 && forall k :: 0 <= k < slots ==> AuxShare(rows[Spot(|rows|, start, k)], aux, k)
  }

  // The rows outside the run are as before.
  ghost predicate OthersKept(rows: seq<seq<nat>>, before: seq<seq<nat>>, start: nat, slots: nat) {
    |rows| == |before| && |rows| > 0 && forall i :: 0 <= i < |rows| && Outside(|rows|, start, slots, i) ==>
        rows[i] == before[i]
  }

  lemma AuxNext(rows: seq<seq<nat>>, start: nat, aux: seq<nat>, k: nat, row: seq<nat>)
    requires AuxPlaced(rows, start, aux, k) && k < |rows| && SLOT_INDICES * k <= |aux|
    requires exists was: seq<nat> :: |was| == SLOT_INDICES
               && row == Overwritten(was, 0, aux[SLOT_INDICES * k..ShareEnd(|aux|, k)])
    ensures AuxPlaced(rows[Spot(|rows|, start, k) := row], start, aux, k + 1)
  {
    hide Spot, Overwritten;
    forall j | 0 <= j < k ensures Spot(|rows|, start, j) != Spot(|rows|, start, k) {
      if Spot(|rows|, start, j) == Spot(|rows|, start, k) { SpotsApart(|rows|, start, j, k); }
    }
    assert AuxShare(row, aux, k);
  }

  // ---- the copies fill the reserved slots as the protocol asks before it publishes

  ghost function Indices(batch: seq<Item>): (r: seq<nat>)
    ensures |r| == |batch| && forall i :: 0 <= i < |r| ==> r[i] == batch[i].index
  {
    seq(|batch|, i requires 0 <= i < |batch| => batch[i].index)
  }

  ghost function Auxes(batch: seq<Item>): (r: seq<nat>)
    ensures |r| == |batch| && forall i :: 0 <= i < |r| ==> r[i] == batch[i].aux
  {
    seq(|batch|, i requires 0 <= i < |batch| => batch[i].aux)
  }

  function ShareEnd(n: nat, k: nat): nat {
    if SLOT_INDICES * (k + 1) < n then SLOT_INDICES * (k + 1) else n
  }

  // The k-th chunk is the k-th share of the batch.
  lemma {:induction false} ChunkAt(batch: seq<Item>, k: nat)
    requires batch != [] && k < Requested(|batch|) && SLOT_INDICES * k < |batch|
    ensures |Chunks(batch)| == Requested(|batch|)
    ensures Chunks(batch)[k] == batch[SLOT_INDICES * k..ShareEnd(|batch|, k)]
    decreases |batch|
  {
    hide Chunks, Requested;
    ChunksStep(batch);
    if |batch| > SLOT_INDICES {
      var rest := batch[SLOT_INDICES..];
      if k > 0 {
        ChunkAt(rest, k - 1);
        ShareShift(batch, rest, k);
      } else {
        ChunkAt(rest, 0);
      }
    }
  }

  lemma ChunksStep(batch: seq<Item>)
    requires batch != []
    ensures |batch| <= SLOT_INDICES ==> Chunks(batch) == [batch] && Requested(|batch|) == 1
    ensures |batch| > SLOT_INDICES ==>
              && Chunks(batch) == [batch[..SLOT_INDICES]] + Chunks(batch[SLOT_INDICES..])
              && Requested(|batch|) == 1 + Requested(|batch| - SLOT_INDICES) && Requested(|batch| - SLOT_INDICES) > 0
  {
  }

  lemma ShareShift(batch: seq<Item>, rest: seq<Item>, k: nat)
    requires |batch| > SLOT_INDICES && rest == batch[SLOT_INDICES..] && 0 < k && SLOT_INDICES * k <= |batch|
    ensures rest[SLOT_INDICES * (k - 1)..ShareEnd(|rest|, k - 1)] == batch[SLOT_INDICES * k..ShareEnd(|batch|, k)]
  {
    var lo, hi := SLOT_INDICES * (k - 1), ShareEnd(|rest|, k - 1);
    assert rest[lo..hi] == batch[SLOT_INDICES + lo..SLOT_INDICES + hi];
  }

  lemma CopyFills(m: Memory, pc: Producer, rows: seq<seq<nat>>, before: seq<seq<nat>>, auxRows: seq<seq<nat>>,
                  first: nat)
    requires m.Shaped() && pc.Holds() && pc.batch != [] && pc.n == Requested(|pc.batch|) <= m.size
    requires |rows| == |auxRows| == m.size && forall i :: 0 <= i < m.size ==> m.slots[i] == Slot(rows[i], auxRows[i])
    requires Placed(rows, before, pc.start, Indices(pc.batch), pc.n, first)
             && AuxPlaced(auxRows, pc.start, Auxes(pc.batch), pc.n)
    ensures Filled(m, pc)
  {
    ChunkAt(pc.batch, 0);
    forall k | 0 <= k < pc.n ensures CarriesFrom(m.At(pc.start + k), Chunks(pc.batch)[k], if k == 0 then 1 else 0) {
      ShareCarries(m, pc, rows, before, auxRows, first, k);
    }
  }

  lemma ShareCarries(m: Memory, pc: Producer, rows: seq<seq<nat>>, before: seq<seq<nat>>, auxRows: seq<seq<nat>>,
                     first: nat, k: nat)
    requires m.Shaped() && pc.Holds() && pc.batch != [] && pc.n == Requested(|pc.batch|) <= m.size && k < pc.n
    requires |rows| == |auxRows| == m.size && forall i :: 0 <= i < m.size ==> m.slots[i] == Slot(rows[i], auxRows[i])
    requires Placed(rows, before, pc.start, Indices(pc.batch), pc.n, first)
             && AuxPlaced(auxRows, pc.start, Auxes(pc.batch), pc.n)
    ensures |Chunks(pc.batch)| == pc.n && CarriesFrom(m.At(pc.start + k), Chunks(pc.batch)[k], if k == 0 then 1 else 0)
  {
    ChunkAt(pc.batch, k);
    hide Padded, Chunks, Index, Indices, Auxes;
    var at := Spot(m.size, pc.start, k);
    assert m.At(pc.start + k) == Slot(rows[at], auxRows[at]);
    assert rows[at] == Share(Indices(pc.batch), k, first);
    assert AuxShare(auxRows[at], Auxes(pc.batch), k);
  }

  lemma FirstSpot(n: nat, start: nat)
    requires n > 0
    ensures start % n == Spot(n, start, 0)
  {
  }

  lemma SameSize(rows: seq<seq<nat>>, before: seq<seq<nat>>, start: nat, indices: seq<nat>, slots: nat, first: nat)
    requires Placed(rows, before, start, indices, slots, first)
    ensures |rows| == |before|
  {
  }

  lemma NothingPlaced(rows: seq<seq<nat>>, start: nat, indices: seq<nat>, first: nat)
    requires |rows| > 0
    ensures Placed(rows, rows, start, indices, 0, first)
  {
  }

  lemma FirstShare(was: seq<nat>, row: seq<nat>, indices: seq<nat>, count: nat)
    requires |was| == |row| == SLOT_INDICES && indices != []
             && count == (if |indices| < SLOT_INDICES then |indices| else SLOT_INDICES)
    requires row
             == Overwritten(if count < SLOT_INDICES then Overwritten(was, 1, Zeros(SLOT_INDICES - 1))
                            else was, 1, indices[1..count])
    ensures row == Share(indices, 0, was[0])
  {
    hide Overwritten, Padded, Zeros;
    var share := Share(indices, 0, was[0]);
    assert forall j :: 0 <= j < SLOT_INDICES ==> row[j] == share[j];
  }

  lemma MiddleShare(words: seq<nat>, indices: seq<nat>, k: nat, first: nat)
    requires k > 0 && SLOT_INDICES * (k + 1) <= |indices| && words == indices[SLOT_INDICES * k..SLOT_INDICES * (k + 1)]
    ensures forall row: seq<nat> :: |row| == SLOT_INDICES ==> Overwritten(row, 0, words) == Share(indices, k, first)
  {
    hide Overwritten, Padded;
    forall row: seq<nat> | |row| == SLOT_INDICES ensures Overwritten(row, 0, words) == Share(indices, k, first) {
      var a, b := Overwritten(row, 0, words), Share(indices, k, first);
      assert forall j :: 0 <= j < SLOT_INDICES ==> a[j] == b[j];
    }
  }

  lemma LastShare(row: seq<nat>, indices: seq<nat>, k: nat, first: nat)
    requires |row| == SLOT_INDICES && k > 0 && SLOT_INDICES * k < |indices| < SLOT_INDICES * (k + 1)
    requires exists was: seq<nat> ::
               |was| == SLOT_INDICES
               && row == Overwritten(Overwritten(was, 0, Zeros(SLOT_INDICES)), 0, indices[SLOT_INDICES * k..])
    ensures row == Share(indices, k, first)
  {
    hide Overwritten, Padded, Zeros;
    var share := Share(indices, k, first);
    assert forall j :: 0 <= j < SLOT_INDICES ==> row[j] == share[j];
  }

  lemma PublishedRows(rows: seq<seq<nat>>, before: seq<seq<nat>>, start: nat, indices: seq<nat>, slots: nat, first: nat)
    requires Placed(rows, before, start, indices, slots, first) && 0 < slots <= |rows| && indices != []
    ensures var at := Spot(|rows|, start, 0);
            |rows[at]| == SLOT_INDICES
                && Placed(rows[at := rows[at][0 := indices[0]]], before, start, indices, slots, indices[0])
  {
    hide Padded, Spot;
    var n, at := |rows|, Spot(|rows|, start, 0);
    assert rows[at] == Share(indices, 0, first);
    assert rows[at][0 := indices[0]] == Share(indices, 0, indices[0]);
    forall k | 0 < k < slots ensures Spot(n, start, k) != at {
      if Spot(n, start, k) == at { SpotsApart(n, start, k, 0); }
    }
    assert !Outside(n, start, slots, at);
  }

  // ---- out of a slot

  // Nothing but zeros follows the first zero: the shape a published slot has.
  ghost predicate ZeroSuffix(words: seq<nat>) {
    forall i, j :: 0 <= i < j < |words| && words[i] == 0 ==> words[j] == 0
  }

  lemma PublishedShape(slot: Slot, chunk: seq<Item>)
    requires Valid(chunk) && CarriesFrom(slot, chunk, 0)
    ensures |slot.words| == SLOT_INDICES && slot.words[0] != 0 && ZeroSuffix(slot.words)
  {
  }

  // No lane of the vector at `at` is zero.
  predicate NoZero(words: seq<nat>, at: nat, lanes: nat)
    requires at + lanes <= |words|
  {
    forall i :: at <= i < at + lanes ==> words[i] != 0
  }

  lemma {:induction false} PrefixIs(words: seq<nat>, n: nat)
    requires n <= |words| && (forall i :: 0 <= i < n ==> words[i] != 0) && (n < |words| ==> words[n] == 0)
    ensures PrefixLength(words) == n
  {
  }

  // copy_indices_from_slot and its wider variant, which differ in the number of lanes
  method CopyFromSlot(destination: array<nat>, words: seq<nat>, lanes: nat) returns (count: nat)
    requires destination.Length >= SLOT_INDICES == |words| && words[0] != 0 && ZeroSuffix(words) && lanes in {4, 8}
    modifies destination
    ensures count == PrefixLength(words) && destination[..count] == words[..count]
    ensures forall i :: count <= i < destination.Length ==> destination[i] == old(destination[i])
  {
    if NoZero(words, SLOT_INDICES - lanes, lanes) {
      forall i | 0 <= i < SLOT_INDICES { destination[i] := words[i]; }
      assert forall i :: 0 <= i < SLOT_INDICES ==> words[i] != 0 by {
        assert words[SLOT_INDICES - 1] != 0;
      }
      PrefixIs(words, SLOT_INDICES);
      return SLOT_INDICES;
    }
    ghost var zero :| SLOT_INDICES - lanes <= zero < SLOT_INDICES && words[zero] == 0;
    count := 0;
    while NoZero(words, count, lanes)
      invariant count % lanes == 0 && count <= SLOT_INDICES - lanes
      invariant forall i :: 0 <= i < count ==> words[i] != 0 && destination[i] == words[i]
      invariant forall i :: count <= i < destination.Length ==> destination[i] == old(destination[i])
      decreases SLOT_INDICES - count
    {
      assert count != SLOT_INDICES - lanes;
      forall i | count <= i < count + lanes { destination[i] := words[i]; }
      count := count + lanes;
    }
    while count < SLOT_INDICES && words[count] != 0
      invariant count <= SLOT_INDICES
      invariant forall i :: 0 <= i < count ==> words[i] != 0 && destination[i] == words[i]
      invariant forall i :: count <= i < destination.Length ==> destination[i] == old(destination[i])
    {
      destination[count] := words[count];
      count := count + 1;
    }
    PrefixIs(words, count);
  }
}
