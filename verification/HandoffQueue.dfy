// One handoff queue: many producers reserve runs of slots by swapping the tail, fill them in any order, and
// publish a batch by storing the first word of its first slot last; a single consumer takes slots in order.
// Each event is one atomic access; filling a reserved run is one event per word, in any order.
module HandoffQueues {
  import opened Common
  import opened SlotIndex

  const SLOT_INDICES: nat := 32

  // A buffer index with its auxiliary word.
  datatype Item = Item(index: nat, aux: nat)

  // One slot: index words and, in the second half of the data, auxiliary words. Word 0 == 0 means not published.
  datatype Slot = Slot(words: seq<nat>, aux: seq<nat>)

  datatype Producer =
    | LoadTail(batch: seq<Item>)
    | LoadHead(batch: seq<Item>, tail: nat)
    | SwapTail(batch: seq<Item>, tail: nat, seen: nat, n: nat)
    | Copy(batch: seq<Item>, start: nat, n: nat, rejected: nat)
    | Publish(batch: seq<Item>, start: nat, n: nat, rejected: nat)
    | Count(rejected: nat, sent: bool)
    | Mark
  {
    // Slots reserved and not yet published.
    predicate Holds() { Copy? || Publish? }

    predicate Sane() {
      (Publish? ==> batch != []) && (SwapTail? ==> 0 < n <= Requested(|batch|))
    }
  }

  datatype Consumer =
    | Away
    | Check(h: nat, count: nat)
    | Read(h: nat, count: nat)
    | Clear(h: nat, count: nat, written: nat)
    | StoreHead(h: nat, count: nat)
    | Rearm(h: nat)

  // The shared words of a queue and the consumer's place in it. `stream` records, per position, the items
  // accepted there; `owner` the producer of each position that is reserved and not yet published; `owed` the
  // rejected items each producer has still to count; `consumed` what the consumer has handed on.
  datatype Memory = Memory(
    size: nat,
    limit: nat,
    tail: nat,
    head: nat,
    slots: seq<Slot>,
    dropped: nat,
    consumer: Consumer,
    stream: seq<seq<Item>>,
    owner: map<nat, nat>,
    owed: map<nat, nat>,
    offered: nat,
    consumed: seq<Item>)
  {
    predicate Shaped() {
      && size > 0 && limit > 0 && |slots| == size
      && forall i :: 0 <= i < size ==> |slots[i].words| == SLOT_INDICES && |slots[i].aux| == SLOT_INDICES
    }

    function At(p: nat): Slot
      requires Shaped()
    {
      slots[Index(size, p)]
    }

    // The position the consumer looks at next.
    function Front(): nat {
      if consumer.Away? then head else consumer.h
    }

    function Store(p: nat, slot: Slot): Memory
      requires Shaped()
    {
      this.(slots := slots[Index(size, p) := slot])
    }

    function SetWord(p: nat, j: nat, value: nat): Memory
      requires Shaped() && j < SLOT_INDICES
    {
      Store(p, At(p).(words := At(p).words[j := value]))
    }

    function SetAux(p: nat, j: nat, value: nat): Memory
      requires Shaped() && j < SLOT_INDICES
    {
      Store(p, At(p).(aux := At(p).aux[j := value]))
    }
  }

  datatype Queue = Queue(mem: Memory, producers: map<nat, Producer>)

  // ---- batches and slots

  // A batch is cut into slots of 32.
  function Chunks(batch: seq<Item>): seq<seq<Item>> {
    if batch == [] then []
    else if |batch| <= SLOT_INDICES then [batch]
    else [batch[..SLOT_INDICES]] + Chunks(batch[SLOT_INDICES..])
  }

  function Flatten(chunks: seq<seq<Item>>): seq<Item> {
    if chunks == [] then [] else chunks[0] + Flatten(chunks[1..])
  }

  function Requested(n: nat): nat {
    (n + SLOT_INDICES - 1) / SLOT_INDICES
  }

  // How much of a batch of n items goes into `slots` slots.
  function Accepted(n: nat, slots: nat): nat {
    if slots == Requested(n) then n else slots * SLOT_INDICES
  }

  lemma AcceptedBound(n: nat, slots: nat)
    requires 0 < slots <= Requested(n)
    ensures 0 < Accepted(n, slots) <= n && Requested(Accepted(n, slots)) == slots
  {
  }

  predicate Valid(chunk: seq<Item>) {
    0 < |chunk| <= SLOT_INDICES && forall i :: 0 <= i < |chunk| ==> chunk[i].index != 0
  }

  // The slot carries the chunk from word `from` on, and nothing after it.
  predicate CarriesFrom(slot: Slot, chunk: seq<Item>, from: nat) {
    && |slot.words| == |slot.aux| == SLOT_INDICES && |chunk| <= SLOT_INDICES
    && (forall i :: 0 <= i < |chunk| ==> slot.aux[i] == chunk[i].aux)
    && (forall i :: from <= i < |chunk| ==> slot.words[i] == chunk[i].index)
    && (forall i :: from <= i < SLOT_INDICES && |chunk| <= i ==> slot.words[i] == 0)
  }

  // Length of the prefix of nonzero words: what the slot copy returns.
  function PrefixLength(words: seq<nat>): (n: nat)
    ensures n <= |words|
    ensures forall i :: 0 <= i < n ==> words[i] != 0
    ensures n < |words| ==> words[n] == 0
  {
    if words == [] || words[0] == 0 then 0 else 1 + PrefixLength(words[1..])
  }

  function Items(slot: Slot, n: nat): seq<Item>
    requires n <= |slot.words| && n <= |slot.aux|
  {
    seq(n, i requires 0 <= i < n => Item(slot.words[i], slot.aux[i]))
  }

  // ---- events

  datatype Event =
    | Offer(t: nat, batch: seq<Item>)
    | Produce(t: nat, miss: bool)
    | WriteWord(t: nat, k: nat, j: nat, value: nat)
    | WriteAux(t: nat, k: nat, j: nat, value: nat)
    | Copied(t: nat)
    | Arrive
    | Consume

  predicate Enabled(q: Queue, e: Event) {
    && q.mem.Shaped()
    && match e
       case Offer(t, batch) => t !in q.producers && Good(batch)
       case Produce(t, _) => t in q.producers && !q.producers[t].Copy? && q.producers[t].Sane()
       case WriteWord(t, k, j, _) =>
         t in q.producers && q.producers[t].Copy? && k < q.producers[t].n && j < SLOT_INDICES && (k, j) != (0, 0)
       case WriteAux(t, k, j, _) =>
         t in q.producers && q.producers[t].Copy? && k < q.producers[t].n && j < SLOT_INDICES
       case Copied(t) => t in q.producers && q.producers[t].Copy? && Filled(q.mem, q.producers[t])
       case Arrive => q.mem.consumer.Away?
       case Consume => !q.mem.consumer.Away?
  }

  // Buffer indices are never 0.
  predicate Good(batch: seq<Item>) {
    batch != [] && forall i :: 0 <= i < |batch| ==> batch[i].index != 0
  }

  // The reserved run carries the batch, but for the first word of its first slot.
  predicate Filled(m: Memory, pc: Producer)
    requires m.Shaped() && pc.Holds()
  {
    var chunks := Chunks(pc.batch);
    |chunks| == pc.n && forall k :: 0 <= k < pc.n ==>
        CarriesFrom(m.At(pc.start + k), chunks[k], if k == 0 then 1 else 0)
  }

  function Run(start: nat, n: nat): (r: set<nat>)
    ensures forall p :: p in r <==> start <= p < start + n
    decreases n
  {
    if n == 0 then {} else Run(start, n - 1) + {start + n - 1}
  }

  // Positions start .. start+n-1 belong to producer t.
  function Owning(owner: map<nat, nat>, start: nat, n: nat, t: nat): map<nat, nat> {
    map p | p in owner.Keys + Run(start, n) :: if p in Run(start, n) then t else owner[p]
  }

  function Least(a: int, b: int): int {
    if a <= b then a else b
  }

  // How many slots a producer that saw this tail and head asks for.
  function Grant(size: nat, tail: nat, head: nat, items: nat): nat
    requires head <= tail
  {
    var used := tail - head;
    var available := if used <= size then size - used else 0;
    if Requested(items) <= available then Requested(items) else available
  }

  // The tail has been swapped: the run is this producer's.
  function Reserved(m: Memory, t: nat, batch: seq<Item>, n: nat): Memory
    requires 0 < n <= Requested(|batch|)
  {
    AcceptedBound(|batch|, n);
    var accepted := Accepted(|batch|, n);
    m.(tail := m.tail + n,
       stream := m.stream + Chunks(batch[..accepted]),
       owner := Owning(m.owner, m.tail, n, t),
       offered := m.offered + |batch|,
       owed := m.owed[t := |batch| - accepted])
  }

  // One step of producer t; None when its call has returned.
  function ProducerStep(m: Memory, t: nat, pc: Producer, miss: bool): (Memory, Option<Producer>)
    requires m.Shaped() && !pc.Copy? && pc.Sane()
  {
    match pc
    case LoadTail(batch) => (m, Some(LoadHead(batch, m.tail)))
    case LoadHead(batch, tail) =>
      if m.head > tail then (m, Some(LoadTail(batch)))
      else
        var n := Grant(m.size, tail, m.head, |batch|);
        if n == 0 then (m.(offered := m.offered + |batch|, owed := m.owed[t := |batch|]), Some(Count(|batch|, false)))
        else (m, Some(SwapTail(batch, tail, m.head, n)))
    case SwapTail(batch, tail, seen, n) =>
      if miss || m.tail != tail then (m, Some(LoadTail(batch)))
      else
        AcceptedBound(|batch|, n);
        var accepted := Accepted(|batch|, n);
        (Reserved(m, t, batch, n), Some(Copy(batch[..accepted], tail, n, |batch| - accepted)))
    case Publish(batch, start, n, rejected) =>
      (m.SetWord(start, 0, batch[0].index).(owner := m.owner - Run(start, n)), Some(Count(rejected, true)))
    case Count(rejected, sent) =>
      (m.(dropped := m.dropped + rejected, owed := m.owed - {t}), if sent then Some(Mark) else None)
    case Mark => (m, None)
  }

  function ConsumerStep(m: Memory): Memory
    requires m.Shaped() && !m.consumer.Away?
  {
    match m.consumer
    case Check(h, count) =>
      if count < m.limit && m.At(h).words[0] != 0 then m.(consumer := Read(h, count))
          else m.(consumer := StoreHead(h, count))
    case Read(h, count) =>
      var written := PrefixLength(m.At(h).words);
      m.(consumer := Clear(h, count, written), consumed := m.consumed + Items(m.At(h), written))
    case Clear(h, count, written) => m.SetWord(h, 0, 0).(consumer := Check(h + 1, count + written))
    case StoreHead(h, count) =>
      if count == 0 then m.(consumer := Away)
      else if count >= m.limit then m.(head := h, consumer := Rearm(h))
      else m.(head := h, consumer := Away)
    case Rearm(_) => m.(consumer := Away)
  }

  function Settle(producers: map<nat, Producer>, t: nat, pc: Option<Producer>): map<nat, Producer> {
    if pc.None? then producers - {t} else producers[t := pc.value]
  }

  function Apply(q: Queue, e: Event): Queue
    requires Enabled(q, e)
  {
    match e
    case Offer(t, batch) => q.(producers := q.producers[t := LoadTail(batch)])
    case Produce(t, miss) =>
      var (mem, pc) := ProducerStep(q.mem, t, q.producers[t], miss);
      Queue(mem, Settle(q.producers, t, pc))
    case WriteWord(t, k, j, value) => q.(mem := q.mem.SetWord(q.producers[t].start + k, j, value))
    case WriteAux(t, k, j, value) => q.(mem := q.mem.SetAux(q.producers[t].start + k, j, value))
    case Copied(t) =>
      var pc := q.producers[t];
      q.(producers := q.producers[t := Publish(pc.batch, pc.start, pc.n, pc.rejected)])
    case Arrive => q.(mem := q.mem.(consumer := Check(q.mem.head, 0)))
    case Consume => q.(mem := ConsumerStep(q.mem))
  }

  // ---- batches

  lemma {:induction false} FlattenAppend(a: seq<seq<Item>>, b: seq<seq<Item>>)
    ensures Flatten(a + b) == Flatten(a) + Flatten(b)
  {
    if a == [] {
      assert a + b == b;
    } else {
      FlattenAppend(a[1..], b);
      assert (a + b)[1..] == a[1..] + b && (a + b)[0] == a[0];
      assert Flatten(a + b) == a[0] + Flatten(a[1..] + b);
    }
  }

  // Cutting a batch into slots loses nothing.
  lemma {:induction false} ChunksFacts(batch: seq<Item>)
    requires forall i :: 0 <= i < |batch| ==> batch[i].index != 0
    ensures Flatten(Chunks(batch)) == batch && |Chunks(batch)| == Requested(|batch|)
    ensures forall k :: 0 <= k < |Chunks(batch)| ==> Valid(Chunks(batch)[k])
    ensures batch != [] ==> Chunks(batch)[0][0] == batch[0]
    decreases |batch|
  {
    if batch == [] {
    } else if |batch| <= SLOT_INDICES {
      assert Flatten([batch]) == batch + Flatten([]);
    } else {
      var rest := batch[SLOT_INDICES..];
      ChunksFacts(rest);
      var all := [batch[..SLOT_INDICES]] + Chunks(rest);
      assert all[1..] == Chunks(rest);
    }
  }

  // A slot that carries a chunk yields exactly that chunk.
  lemma CarriedItems(slot: Slot, chunk: seq<Item>)
    requires Valid(chunk) && CarriesFrom(slot, chunk, 0)
    ensures PrefixLength(slot.words) == |chunk| && Items(slot, |chunk|) == chunk
  {
    assert forall i :: 0 <= i < |chunk| ==> slot.words[i] != 0;
    assert |chunk| == SLOT_INDICES || slot.words[|chunk|] == 0;
  }

  ghost function Sum(m: map<nat, nat>): nat
    decreases |m|
  {
    if m == map[] then 0 else
      var k :| k in m;
      assert |m - {k}| < |m| by { Shrink(m, k); }
      m[k] + Sum(m - {k})
  }

  lemma Shrink(m: map<nat, nat>, k: nat)
    requires k in m
    ensures |m - {k}| == |m| - 1
  {
    assert (m - {k}).Keys == m.Keys - {k};
  }

  lemma {:induction false} SumRemove(m: map<nat, nat>, k: nat)
    requires k in m
    ensures Sum(m) == m[k] + Sum(m - {k})
    decreases |m|
  {
    var j :| j in m && Sum(m) == m[j] + Sum(m - {j});
    if j != k {
      Shrink(m, j);
      Shrink(m, k);
      SumRemove(m - {j}, k);
      SumRemove(m - {k}, j);
      assert m - {j} - {k} == m - {k} - {j};
    }
  }

  lemma SumAdd(m: map<nat, nat>, k: nat, v: nat)
    requires k !in m
    ensures Sum(m[k := v]) == Sum(m) + v
  {
    SumRemove(m[k := v], k);
    assert m[k := v] - {k} == m;
  }

  // ---- the invariant

  ghost predicate ProducerOk(m: Memory, t: nat, pc: Producer)
    requires m.Shaped()
  {
    match pc
    case LoadTail(batch) => Good(batch) && t !in m.owed
    case LoadHead(batch, tail) => Good(batch) && t !in m.owed && tail <= m.tail
    case SwapTail(batch, tail, seen, n) =>
      && Good(batch) && t !in m.owed && tail <= m.tail && 0 < n
      && seen <= m.head && seen <= tail && n == Least((|batch| + 31) / 32, m.size - (tail - seen))
    case Copy(_, _, _, _) => RunOk(m, t, pc)
    case Publish(_, _, _, _) => RunOk(m, t, pc) && Filled(m, pc)
    case Count(rejected, _) => t in m.owed && m.owed[t] == rejected
    case Mark => t !in m.owed
  }

  // A reserved run lies between the consumer and the tail, and its first word is still 0.
  ghost predicate RunOk(m: Memory, t: nat, pc: Producer)
    requires m.Shaped() && pc.Holds()
  {
    && Good(pc.batch) && |Chunks(pc.batch)| == pc.n > 0 && m.Front() <= pc.start
       && pc.start + pc.n <= m.tail <= |m.stream|
    && (forall k :: 0 <= k < pc.n ==> m.stream[pc.start + k] == Chunks(pc.batch)[k])
    && (forall p :: pc.start <= p < pc.start + pc.n ==> p in m.owner && m.owner[p] == t)
    && m.At(pc.start).words[0] == 0
    && t in m.owed && m.owed[t] == pc.rejected
  }

  // The records name producers that are really there.
  ghost predicate OwnersOk(owner: map<nat, nat>, owed: map<nat, nat>, producers: map<nat, Producer>) {
    && (forall p :: p in owner ==>
          && owner[p] in producers && producers[owner[p]].Holds()
          && producers[owner[p]].start <= p < producers[owner[p]].start + producers[owner[p]].n)
    && (forall t :: t in owed ==> t in producers)
  }

  // Published slots carry what was accepted at their position; free slots read as unpublished.
  ghost predicate SlotsOk(m: Memory)
    requires m.Shaped()
  {
    && m.tail <= |m.stream|
    && (forall p: nat :: m.Front() <= p < m.tail && p !in m.owner ==> CarriesFrom(m.At(p), m.stream[p], 0))
    && (forall p: nat :: m.tail <= p < m.Front() + m.size ==> m.At(p).words[0] == 0)
  }

  ghost predicate OrderOk(m: Memory) {
    && m.head <= m.Front() <= m.tail == |m.stream| && m.tail <= m.head + m.size
    && (forall p :: 0 <= p < |m.stream| ==> Valid(m.stream[p]))
    && (m.consumer.Read? ==> m.consumer.h < m.tail && m.consumer.h !in m.owner)
    && (m.consumer.Clear? ==>
          m.consumer.h < m.tail && m.consumer.h !in m.owner && m.consumer.written == |m.stream[m.consumer.h]|)
    && (m.consumer.Rearm? ==> m.head == m.consumer.h)
    && (!m.consumer.Away? && !m.consumer.Rearm? && m.consumer.count == 0 ==> m.head == m.consumer.h)
  }

  // The pass has taken what was published from the head on, and stops at the first slot that reaches the limit.
  ghost predicate PassOk(m: Memory) {
    && m.head <= m.Front() <= |m.stream|
    && (m.consumer.Check? || m.consumer.Read? || m.consumer.Clear? || m.consumer.StoreHead? ==>
          m.consumer.count == |Flatten(m.stream[m.head..m.consumer.h])| && m.consumer.count < m.limit + SLOT_INDICES)
    && (m.consumer.Read? || m.consumer.Clear? ==> m.consumer.count < m.limit)
  }

  // Positions whose items have been handed over.
  ghost function Taken(m: Memory): nat {
    if m.consumer.Clear? then m.consumer.h + 1 else m.Front()
  }

  // What came out is what went in, in the order of the reservations; what was offered is accounted for.
  ghost predicate ContentsOk(m: Memory) {
    && Taken(m) <= |m.stream| && m.consumed == Flatten(m.stream[..Taken(m)])
    && m.offered == |Flatten(m.stream)| + m.dropped + Sum(m.owed)
  }

  ghost predicate ProducersOk(m: Memory, producers: map<nat, Producer>)
    requires m.Shaped()
  {
    forall t :: t in producers ==> ProducerOk(m, t, producers[t])
  }

  ghost predicate Inv(q: Queue) {
    && q.mem.Shaped() && OrderOk(q.mem) && SlotsOk(q.mem) && ContentsOk(q.mem) && PassOk(q.mem)
    && ProducersOk(q.mem, q.producers)
    && OwnersOk(q.mem.owner, q.mem.owed, q.producers)
  }

  // ---- every event keeps the invariant

  // Distinct positions between the consumer and the end of the ring have distinct slots.
  lemma Apart(m: Memory, p: nat, r: nat)
    requires m.Shaped() && OrderOk(m) && m.Front() <= p < m.Front() + m.size && m.Front() <= r < m.Front() + m.size
             && p != r
    ensures Index(m.size, p) != Index(m.size, r)
  {
    if Index(m.size, p) == Index(m.size, r) { SameIndex(m.size, p, r); }
  }

  // A producer changes its place and nothing else.
  lemma MoveKeepsInv(q: Queue, t: nat, pc: Producer)
    requires Inv(q) && ProducerOk(q.mem, t, pc)
    requires if t in q.producers && q.producers[t].Holds()
             then pc.Holds() && pc.start == q.producers[t].start && pc.n == q.producers[t].n
             else true
    ensures Inv(q.(producers := q.producers[t := pc]))
  {
    hide ProducerOk, SlotsOk, OrderOk, ContentsOk;
  }

  // A refused batch: only its own account changes.
  lemma RefuseKeepsInv(q: Queue, t: nat, batch: seq<Item>)
    requires Inv(q) && t in q.producers && !q.producers[t].Holds() && t !in q.mem.owed
    ensures var m' := q.mem.(offered := q.mem.offered + |batch|, owed := q.mem.owed[t := |batch|]);
            Inv(Queue(m', q.producers[t := Count(|batch|, false)]))
  {
    hide Index, SlotsOk, OrderOk;
    var m := q.mem;
    var m' := m.(offered := m.offered + |batch|, owed := m.owed[t := |batch|]);
    SumAdd(m.owed, t, |batch|);
    forall u | u in q.producers && u != t ensures ProducerOk(m', u, q.producers[u]) {
      AccountFrame(m, m', u, q.producers[u]);
    }
    SlotsFrame(m, m');
  }

  // The counters do not matter to slots or to other producers.
  lemma AccountFrame(m: Memory, m': Memory, u: nat, pc: Producer)
    requires m.Shaped() && ProducerOk(m, u, pc)
    requires m' == m.(offered := m'.offered, owed := m'.owed, dropped := m'.dropped)
    requires (u in m.owed <==> u in m'.owed) && (u in m.owed ==> m.owed[u] == m'.owed[u])
    ensures ProducerOk(m', u, pc)
  {
    hide Index;
    assert forall p: nat :: m'.At(p) == m.At(p);
  }

  lemma SlotsFrame(m: Memory, m': Memory)
    requires m.Shaped() && SlotsOk(m) && OrderOk(m)
    requires m' == m.(offered := m'.offered, owed := m'.owed, dropped := m'.dropped)
    ensures SlotsOk(m') && OrderOk(m')
  {
    hide Index;
    assert forall p: nat :: m'.At(p) == m.At(p);
  }

  lemma CountKeepsInv(q: Queue, t: nat, pc': Option<Producer>)
    requires Inv(q) && t in q.producers && q.producers[t].Count? && (pc' == None || pc' == Some(Mark))
    ensures var m' := q.mem.(dropped := q.mem.dropped + q.producers[t].rejected, owed := q.mem.owed - {t});
            Inv(Queue(m', Settle(q.producers, t, pc')))
  {
    hide Index, SlotsOk, OrderOk;
    var m := q.mem;
    var m' := m.(dropped := m.dropped + q.producers[t].rejected, owed := m.owed - {t});
    assert ProducerOk(m, t, q.producers[t]);
    SumRemove(m.owed, t);
    forall u | u in q.producers && u != t ensures ProducerOk(m', u, q.producers[u]) {
      AccountFrame(m, m', u, q.producers[u]);
    }
    SlotsFrame(m, m');
  }

  lemma LeaveKeepsInv(q: Queue, t: nat)
    requires Inv(q) && t in q.producers && q.producers[t].Mark?
    ensures Inv(q.(producers := q.producers - {t}))
  {
    hide SlotsOk, OrderOk, ContentsOk;
    assert ProducerOk(q.mem, t, Mark);
    hide ProducerOk;
  }

  // ---- reserving a run

  lemma ReserveThread(m: Memory, u: nat, pc: Producer, t: nat, batch: seq<Item>, n: nat)
    requires m.Shaped() && OrderOk(m) && ProducerOk(m, u, pc) && u != t && Good(batch) && 0 < n <= Requested(|batch|)
    ensures ProducerOk(Reserved(m, t, batch, n), u, pc)
  {
    hide Index, Chunks;
    AcceptedBound(|batch|, n);
    ChunksFacts(batch[..Accepted(|batch|, n)]);
    var m' := Reserved(m, t, batch, n);
    assert forall p: nat :: m'.At(p) == m.At(p);
  }

  lemma ReserveStream(m: Memory, t: nat, batch: seq<Item>, n: nat)
    requires m.Shaped() && OrderOk(m) && ContentsOk(m) && PassOk(m) && Good(batch) && 0 < n <= Requested(|batch|)
    requires m.tail + n <= m.head + m.size && t !in m.owed
    ensures var m' := Reserved(m, t, batch, n); OrderOk(m') && ContentsOk(m') && PassOk(m')
  {
    hide Index, Chunks, Flatten;
    AcceptedBound(|batch|, n);
    var taken := batch[..Accepted(|batch|, n)];
    var m' := Reserved(m, t, batch, n);
    ChunksFacts(taken);
    FlattenAppend(m.stream, Chunks(taken));
    SumAdd(m.owed, t, |batch| - |taken|);
    assert m'.stream[..Taken(m)] == m.stream[..Taken(m)];
    assert m'.stream[m.head..m.Front()] == m.stream[m.head..m.Front()];
  }

  lemma ReserveSlots(m: Memory, t: nat, batch: seq<Item>, n: nat)
    requires m.Shaped() && OrderOk(m) && SlotsOk(m) && Good(batch) && 0 < n <= Requested(|batch|)
    requires m.tail + n <= m.head + m.size
    ensures SlotsOk(Reserved(m, t, batch, n))
  {
    hide Index, Chunks, CarriesFrom;
    AcceptedBound(|batch|, n);
    ChunksFacts(batch[..Accepted(|batch|, n)]);
    var m' := Reserved(m, t, batch, n);
    assert forall p: nat :: m'.At(p) == m.At(p);
  }

  lemma ReserveSelf(m: Memory, t: nat, batch: seq<Item>, n: nat)
    requires m.Shaped() && OrderOk(m) && SlotsOk(m) && Good(batch) && 0 < n <= Requested(|batch|)
    requires m.tail + n <= m.head + m.size
    ensures var a := Accepted(|batch|, n);
            && 0 < a <= |batch|
            && RunOk(Reserved(m, t, batch, n), t, Copy(batch[..a], m.tail, n, |batch| - a))
  {
    hide Index, Chunks, CarriesFrom;
    AcceptedBound(|batch|, n);
    ChunksFacts(batch[..Accepted(|batch|, n)]);
    var m' := Reserved(m, t, batch, n);
    assert m'.At(m.tail) == m.At(m.tail);
  }

  lemma SwapFacts(m: Memory, t: nat, batch: seq<Item>, seen: nat, n: nat)
    requires m.Shaped() && ProducerOk(m, t, SwapTail(batch, m.tail, seen, n))
    ensures Good(batch) && t !in m.owed && 0 < n <= Requested(|batch|) && m.tail + n <= m.head + m.size
  {
  }

  lemma CopyOk(m: Memory, t: nat, batch: seq<Item>, start: nat, n: nat, rejected: nat)
    requires m.Shaped() && RunOk(m, t, Copy(batch, start, n, rejected))
    ensures ProducerOk(m, t, Copy(batch, start, n, rejected))
  {
  }

  lemma ReserveKeepsInv(q: Queue, t: nat, batch: seq<Item>, seen: nat, n: nat)
    requires Inv(q) && t in q.producers && q.producers[t] == SwapTail(batch, q.mem.tail, seen, n)
    ensures 0 < n <= Requested(|batch|)
    ensures var a := Accepted(|batch|, n);
            && 0 < a <= |batch|
            && Inv(Queue(Reserved(q.mem, t, batch, n), q.producers[t := Copy(batch[..a], q.mem.tail, n, |batch| - a)]))
  {
    hide Index, Chunks, SlotsOk, OrderOk, ContentsOk, ProducerOk, RunOk;
    var m := q.mem;
    SwapFacts(m, t, batch, seen, n);
    ReserveSelf(m, t, batch, n);
    CopyOk(Reserved(m, t, batch, n), t, batch[..Accepted(|batch|, n)], m.tail, n, |batch| - Accepted(|batch|, n));
    ReserveSlots(m, t, batch, n);
    ReserveStream(m, t, batch, n);
    forall u | u in q.producers && u != t ensures ProducerOk(Reserved(m, t, batch, n), u, q.producers[u]) {
      ReserveThread(m, u, q.producers[u], t, batch, n);
    }
  }

  // ---- writing into a reserved run

  // A slot of a run that t owns is overwritten, the first word of the run staying 0.
  lemma StoreThread(m: Memory, p: nat, slot: Slot, u: nat, pc: Producer, t: nat)
    requires m.Shaped() && OrderOk(m) && ProducerOk(m, u, pc) && p in m.owner && m.owner[p] == t
             && m.Front() <= p < m.tail
    requires |slot.words| == |slot.aux| == SLOT_INDICES
    requires u != t || (pc.Copy? && (p == pc.start ==> slot.words[0] == 0))
    ensures ProducerOk(m.Store(p, slot), u, pc)
  {
    hide Index, Chunks, CarriesFrom;
    var m' := m.Store(p, slot);
    assert m'.Shaped();
    if pc.Holds() {
      forall r | pc.start <= r < pc.start + pc.n && (u != t || r != p) ensures m'.At(r) == m.At(r) {
        Apart(m, p, r);
      }
    }
  }

  lemma StoreSlots(m: Memory, p: nat, slot: Slot)
    requires m.Shaped() && OrderOk(m) && SlotsOk(m) && p in m.owner && m.Front() <= p < m.tail
    requires |slot.words| == |slot.aux| == SLOT_INDICES
    ensures SlotsOk(m.Store(p, slot)) && OrderOk(m.Store(p, slot))
  {
    hide Index, CarriesFrom;
    var m' := m.Store(p, slot);
    assert m'.Shaped();
    forall r: nat | m.Front() <= r < m.Front() + m.size && r != p ensures m'.At(r) == m.At(r) {
      Apart(m, p, r);
    }
  }

  lemma StoreKeepsInv(q: Queue, t: nat, k: nat, slot: Slot)
    requires Inv(q) && t in q.producers && q.producers[t].Copy? && k < q.producers[t].n
    requires |slot.words| == |slot.aux| == SLOT_INDICES && (k == 0 ==> slot.words[0] == 0)
    ensures Inv(q.(mem := q.mem.Store(q.producers[t].start + k, slot)))
  {
    hide Index, Chunks, SlotsOk, ContentsOk;
    var m, pc := q.mem, q.producers[t];
    var p := pc.start + k;
    assert ProducerOk(m, t, pc);
    StoreSlots(m, p, slot);
    forall u | u in q.producers ensures ProducerOk(m.Store(p, slot), u, q.producers[u]) {
      StoreThread(m, p, slot, u, q.producers[u], t);
    }
    assert ContentsOk(m.Store(p, slot)) by { ContentsFrame(m, m.Store(p, slot)); }
  }

  lemma ContentsFrame(m: Memory, m': Memory)
    requires ContentsOk(m) && m' == m.(slots := m'.slots, owner := m'.owner)
    ensures ContentsOk(m')
  {
  }

  // ---- publishing

  function Published(m: Memory, pc: Producer): Memory
    requires m.Shaped() && pc.Publish? && pc.batch != []
  {
    m.SetWord(pc.start, 0, pc.batch[0].index).(owner := m.owner - Run(pc.start, pc.n))
  }

  lemma PublishThread(m: Memory, u: nat, pc: Producer, t: nat, pub: Producer)
    requires m.Shaped() && OrderOk(m) && ProducerOk(m, u, pc) && pub.Publish? && RunOk(m, t, pub) && u != t
    ensures ProducerOk(Published(m, pub), u, pc)
  {
    hide Index, Chunks, CarriesFrom, Run;
    var p := pub.start;
    var slot := m.At(p).(words := m.At(p).words[0 := pub.batch[0].index]);
    StoreThread(m, p, slot, u, pc, t);
    var m' := Published(m, pub);
    assert forall r: nat :: m'.At(r) == m.Store(p, slot).At(r);
    if pc.Holds() {
      forall r | pc.start <= r < pc.start + pc.n ensures r !in Run(pub.start, pub.n) {
        assert r in m.owner && m.owner[r] == u;
      }
    }
  }

  lemma PublishSlots(m: Memory, t: nat, pub: Producer)
    requires m.Shaped() && OrderOk(m) && SlotsOk(m) && pub.Publish? && RunOk(m, t, pub) && Filled(m, pub)
    ensures SlotsOk(Published(m, pub)) && OrderOk(Published(m, pub))
  {
    hide Index, Chunks, Run;
    var m' := Published(m, pub);
    ChunksFacts(pub.batch);
    forall r: nat | m.Front() <= r < m.Front() + m.size && r != pub.start ensures m'.At(r) == m.At(r) {
      Apart(m, pub.start, r);
    }
    forall r: nat | m.Front() <= r < m.tail && r !in m'.owner ensures CarriesFrom(m'.At(r), m.stream[r], 0) {
      if r in m.owner {
        var k := r - pub.start;
        assert CarriesFrom(m.At(pub.start + k), Chunks(pub.batch)[k], if k == 0 then 1 else 0);
        assert m.stream[pub.start + k] == Chunks(pub.batch)[k];
      }
    }
  }

  lemma PublishKeepsInv(q: Queue, t: nat)
    requires Inv(q) && t in q.producers && q.producers[t].Publish?
    ensures q.producers[t].batch != []
    ensures Inv(Queue(Published(q.mem, q.producers[t]), q.producers[t := Count(q.producers[t].rejected, true)]))
  {
    hide Index, Chunks, SlotsOk, ContentsOk, Run;
    var m, pc := q.mem, q.producers[t];
    assert ProducerOk(m, t, pc);
    PublishSlots(m, t, pc);
    forall u | u in q.producers && u != t ensures ProducerOk(Published(m, pc), u, q.producers[u]) {
      PublishThread(m, u, q.producers[u], t, pc);
    }
    ContentsFrame(m, Published(m, pc));
  }

  // ---- the consumer

  // Producers notice only where the consumer looks next and how far the head has come.
  lemma ConsumerThread(m: Memory, m': Memory, u: nat, pc: Producer)
    requires m.Shaped() && ProducerOk(m, u, pc)
             && m' == m.(consumer := m'.consumer, head := m'.head, consumed := m'.consumed)
    requires m'.Front() == m.Front() && m.head <= m'.head
    ensures ProducerOk(m', u, pc)
  {
    hide Index, Chunks, CarriesFrom;
    assert forall p: nat :: m'.At(p) == m.At(p);
  }

  lemma ConsumerSlots(m: Memory, m': Memory)
    requires m.Shaped() && SlotsOk(m) && m' == m.(consumer := m'.consumer, head := m'.head, consumed := m'.consumed)
    requires m'.Front() == m.Front()
    ensures SlotsOk(m')
  {
    hide Index, CarriesFrom;
    assert forall p: nat :: m'.At(p) == m.At(p);
  }

  lemma ConsumerKeepsInv(q: Queue, m': Memory)
    requires Inv(q) && m' == q.mem.(consumer := m'.consumer, head := m'.head, consumed := m'.consumed)
    requires m'.Front() == q.mem.Front() && q.mem.head <= m'.head
    requires OrderOk(m') && ContentsOk(m') && PassOk(m')
    ensures Inv(Queue(m', q.producers))
  {
    hide Index, Chunks, SlotsOk, ContentsOk, ProducerOk;
    ConsumerSlots(q.mem, m');
    forall u | u in q.producers ensures ProducerOk(m', u, q.producers[u]) {
      ConsumerThread(q.mem, m', u, q.producers[u]);
    }
  }

  // A nonzero first word at the front belongs to a finished batch.
  lemma FrontPublished(q: Queue)
    requires Inv(q) && q.mem.At(q.mem.Front()).words[0] != 0
    ensures q.mem.Front() < q.mem.tail && q.mem.Front() !in q.mem.owner
    ensures CarriesFrom(q.mem.At(q.mem.Front()), q.mem.stream[q.mem.Front()], 0)
  {
    hide Index, ContentsOk, ProducersOk;
    if q.mem.Front() in q.mem.owner {
      FrontUnfinished(q);
    }
  }

  lemma FrontUnfinished(q: Queue)
    requires Inv(q) && q.mem.Front() in q.mem.owner
    ensures q.mem.At(q.mem.Front()).words[0] == 0
  {
    hide Index, Chunks, ContentsOk, SlotsOk;
    var t := q.mem.owner[q.mem.Front()];
    assert ProducerOk(q.mem, t, q.producers[t]);
  }

  lemma OneMore(stream: seq<seq<Item>>, head: nat, h: nat)
    requires head <= h < |stream|
    ensures Flatten(stream[head..h + 1]) == Flatten(stream[head..h]) + stream[h]
  {
    FlattenAppend(stream[head..h], [stream[h]]);
    assert stream[head..h + 1] == stream[head..h] + [stream[h]];
    assert Flatten([stream[h]]) == stream[h] + Flatten([]);
  }

  lemma ReadKeepsInv(q: Queue)
    requires Inv(q) && q.mem.consumer.Read?
    ensures var m := q.mem;
            PrefixLength(m.At(m.consumer.h).words) == |m.stream[m.consumer.h]| && Inv(q.(mem := ConsumerStep(m)))
  {
    hide Index, Chunks, CarriesFrom, ProducersOk;
    var m := q.mem;
    var h := m.consumer.h;
    CarriedItems(m.At(h), m.stream[h]);
    OneMore(m.stream, 0, h);
    assert m.stream[..h + 1] == m.stream[0..h + 1] && m.stream[..h] == m.stream[0..h];
    ConsumerKeepsInv(q, ConsumerStep(m));
  }

  lemma ClearThread(m: Memory, u: nat, pc: Producer)
    requires m.Shaped() && OrderOk(m) && ProducerOk(m, u, pc) && m.consumer.Clear?
    ensures ProducerOk(ConsumerStep(m), u, pc)
  {
    hide Index, Chunks, CarriesFrom;
    var m' := ConsumerStep(m);
    if pc.Holds() {
      assert pc.start in m.owner;
      forall r | pc.start <= r < pc.start + pc.n ensures m'.At(r) == m.At(r) {
        Apart(m, m.consumer.h, r);
      }
    }
  }

  lemma ClearSlots(m: Memory)
    requires m.Shaped() && OrderOk(m) && SlotsOk(m) && m.consumer.Clear?
    ensures SlotsOk(ConsumerStep(m)) && OrderOk(ConsumerStep(m))
  {
    hide Index, CarriesFrom;
    var m', h := ConsumerStep(m), m.consumer.h;
    NextLap(m.size, h);
    forall r: nat | h < r < h + m.size ensures m'.At(r) == m.At(r) {
      Apart(m, h, r);
    }
    assert m'.At(h + m.size) == m'.At(h);
  }

  lemma ClearKeepsInv(q: Queue)
    requires Inv(q) && q.mem.consumer.Clear?
    ensures Inv(q.(mem := ConsumerStep(q.mem)))
  {
    hide Index, Chunks, SlotsOk, ProducerOk;
    var m, h := q.mem, q.mem.consumer.h;
    ClearSlots(m);
    OneMore(m.stream, m.head, h);
    assert ConsumerStep(m).Shaped();
    forall u | u in q.producers ensures ProducerOk(ConsumerStep(m), u, q.producers[u]) {
      ClearThread(m, u, q.producers[u]);
    }
  }

  lemma ConsumeKeepsInv(q: Queue)
    requires Inv(q) && !q.mem.consumer.Away?
    ensures Inv(q.(mem := ConsumerStep(q.mem)))
  {
    hide Index, Chunks, SlotsOk, ProducersOk, CarriesFrom;
    var m := q.mem;
    match m.consumer
    case Check(h, count) =>
      if m.At(h).words[0] != 0 { FrontPublished(q); }
      ConsumerKeepsInv(q, ConsumerStep(m));
    case Read(_, _) => ReadKeepsInv(q);
    case Clear(_, _, _) => ClearKeepsInv(q);
    case StoreHead(_, _) => ConsumerKeepsInv(q, ConsumerStep(m));
    case Rearm(_) => ConsumerKeepsInv(q, ConsumerStep(m));
  }

  // ---- the theorems

  // What a producer asks for: all it needs, or all there is; nothing only when the ring is full.
  lemma GrantOk(m: Memory, tail: nat, items: nat)
    requires OrderOk(m) && m.head <= tail <= m.tail && items > 0
    ensures Grant(m.size, tail, m.head, items) == Least((items + 31) / 32, m.size - (tail - m.head))
    ensures Grant(m.size, tail, m.head, items) == 0 <==> tail - m.head == m.size
  {
  }

  lemma AskKeepsInv(q: Queue, t: nat, batch: seq<Item>, tail: nat, miss: bool)
    requires Inv(q) && t in q.producers && q.producers[t] == LoadHead(batch, tail)
    ensures Enabled(q, Produce(t, miss)) && Inv(Apply(q, Produce(t, miss)))
  {
    hide Index, Chunks, OrderOk, SlotsOk, ContentsOk, OwnersOk, PassOk, Grant;
    var m := q.mem;
    assert ProducerOk(m, t, q.producers[t]);
    if m.head > tail {
      MoveKeepsInv(q, t, LoadTail(batch));
    } else if Grant(m.size, tail, m.head, |batch|) == 0 {
      RefuseKeepsInv(q, t, batch);
    } else {
      GrantOk(m, tail, |batch|);
      MoveKeepsInv(q, t, SwapTail(batch, tail, m.head, Grant(m.size, tail, m.head, |batch|)));
    }
  }

  lemma ProduceKeepsInv(q: Queue, t: nat, miss: bool)
    requires Inv(q) && t in q.producers && !q.producers[t].Copy?
    ensures Enabled(q, Produce(t, miss)) && Inv(Apply(q, Produce(t, miss)))
  {
    hide Index, Chunks, OrderOk, SlotsOk, ContentsOk, OwnersOk, PassOk, Filled, RunOk, Grant;
    var m, pc := q.mem, q.producers[t];
    assert ProducerOk(m, t, pc);
    match pc
    case LoadTail(batch) => MoveKeepsInv(q, t, LoadHead(batch, m.tail));
    case LoadHead(batch, tail) => AskKeepsInv(q, t, batch, tail, miss);
    case SwapTail(batch, tail, seen, n) =>
      if miss || m.tail != tail { MoveKeepsInv(q, t, LoadTail(batch)); } else { ReserveKeepsInv(q, t, batch, seen, n); }
    case Publish(_, _, _, _) => PublishKeepsInv(q, t);
    case Count(_, sent) => CountKeepsInv(q, t, if sent then Some(Mark) else None);
    case Mark => LeaveKeepsInv(q, t);
  }

  lemma EventKeepsInv(q: Queue, e: Event)
    requires Inv(q) && Enabled(q, e)
    ensures Inv(Apply(q, e))
  {
    hide Index, Chunks, OrderOk, SlotsOk, ContentsOk, OwnersOk, ProducersOk, Filled;
    match e
    case Offer(t, batch) => OfferKeepsInv(q, t, batch);
    case Produce(t, miss) => ProduceKeepsInv(q, t, miss);
    case WriteWord(t, k, j, value) =>
      var p := q.producers[t].start + k;
      FirstWordKept(q, t);
      StoreKeepsInv(q, t, k, q.mem.At(p).(words := q.mem.At(p).words[j := value]));
    case WriteAux(t, k, j, value) =>
      var p := q.producers[t].start + k;
      FirstWordKept(q, t);
      StoreKeepsInv(q, t, k, q.mem.At(p).(aux := q.mem.At(p).aux[j := value]));
    case Copied(t) => CopiedKeepsInv(q, t);
    case Arrive => ArriveKeepsInv(q);
    case Consume => ConsumeKeepsInv(q);
  }

  lemma OfferKeepsInv(q: Queue, t: nat, batch: seq<Item>)
    requires Inv(q) && t !in q.producers && Good(batch)
    ensures Inv(q.(producers := q.producers[t := LoadTail(batch)]))
  {
    hide Index, OrderOk, SlotsOk, ContentsOk;
    MoveKeepsInv(q, t, LoadTail(batch));
  }

  lemma FirstWordKept(q: Queue, t: nat)
    requires Inv(q) && t in q.producers && q.producers[t].Holds()
    ensures q.mem.At(q.producers[t].start).words[0] == 0
  {
    assert ProducerOk(q.mem, t, q.producers[t]);
  }

  lemma CopiedKeepsInv(q: Queue, t: nat)
    requires Inv(q) && t in q.producers && q.producers[t].Copy? && Filled(q.mem, q.producers[t])
    ensures var pc := q.producers[t];
            Inv(q.(producers := q.producers[t := Publish(pc.batch, pc.start, pc.n, pc.rejected)]))
  {
    hide Index, OrderOk, SlotsOk, ContentsOk;
    var pc := q.producers[t];
    assert ProducerOk(q.mem, t, pc);
    MoveKeepsInv(q, t, Publish(pc.batch, pc.start, pc.n, pc.rejected));
  }

  lemma ArriveKeepsInv(q: Queue)
    requires Inv(q) && q.mem.consumer.Away?
    ensures Inv(q.(mem := q.mem.(consumer := Check(q.mem.head, 0))))
  {
    hide Index, SlotsOk, ProducersOk;
    ConsumerKeepsInv(q, q.mem.(consumer := Check(q.mem.head, 0)));
  }

  ghost function Initial(size: nat, limit: nat): Queue {
    var blank := Slot(seq(SLOT_INDICES, _ => 0), seq(SLOT_INDICES, _ => 0));
    Queue(Memory(size, limit, 0, 0, seq(size, _ => blank), 0, Away, [], map[], map[], 0, []), map[])
  }

  lemma InitialInv(size: nat, limit: nat)
    requires size > 0 && limit > 0
    ensures Inv(Initial(size, limit))
  {
  }

  // What every reachable state gives the callers.
  lemma HandedOverInOrder(q: Queue)
    requires Inv(q)
    ensures q.mem.consumed <= Flatten(q.mem.stream) && q.mem.tail - q.mem.head <= q.mem.size
    ensures q.producers == map[] ==> q.mem.offered == |Flatten(q.mem.stream)| + q.mem.dropped
    ensures q.mem.consumer.Away? && q.mem.head == q.mem.tail ==> q.mem.consumed == Flatten(q.mem.stream)
  {
    hide Index, SlotsOk, ProducersOk;
    var m := q.mem;
    FlattenAppend(m.stream[..Taken(m)], m.stream[Taken(m)..]);
    assert m.stream == m.stream[..Taken(m)] + m.stream[Taken(m)..];
    assert q.producers == map[] ==> m.owed == map[];
  }
}
