// The bounded multi-producer multi-consumer ring with one sequence number per slot, as a system of
// atomic steps. Any number of threads run enqueue and dequeue; each step is one load, store,
// read-modify-write or slot access of one thread. Positions are unbounded.
module LockFreeRing {
  import opened Common
  import opened SlotIndex

  datatype Slot<+T> = Slot(sequence: nat, value: Option<T>)

  // Where a thread is inside enqueue or dequeue, with the locals it needs.
  datatype Pc<+T> =
    | Idle
    | EnqLoadHead(v: T)
    | EnqLoadTail(v: T, head: nat)
    | EnqLoadSequence(v: T, head: nat)
    | EnqSwap(v: T, head: nat)
    | EnqWrite(v: T, pos: nat)
    | EnqAddTail(v: T, pos: nat)
    | EnqPublish(v: T, pos: nat)
    | DeqLoadHead
    | DeqLoadSequence(head: nat)
    | DeqSwap(head: nat)
    | DeqRead(pos: nat)
    | DeqAddTail(v: T, pos: nat)
    | DeqPublish(v: T, pos: nat)
  {
    // A producer, respectively consumer, that has reserved a position and not yet released its slot.
    predicate Produces() { EnqWrite? || EnqAddTail? || EnqPublish? }
    predicate Consumes() { DeqRead? || DeqAddTail? || DeqPublish? }
    // Reserved, but not yet counted in the tail cursor.
    predicate ProducerUncounted() { EnqWrite? || EnqAddTail? }
    predicate ConsumerUncounted() { DeqRead? || DeqAddTail? }
    // A consumer that has read its value.
    predicate Holding() { DeqAddTail? || DeqPublish? }
  }

  // The shared memory: cursors and slots. `enqueued` and `dequeued` record the value reserved for each
  // position and the deliveries in order; `writers` and `readers` record which thread has reserved a
  // position and not yet released its slot.
  datatype Memory<T> = Memory(
    size: nat,
    prodHead: nat, prodTail: nat,
    consHead: nat, consTail: nat,
    slots: seq<Slot<T>>,
    enqueued: seq<T>,
    dequeued: seq<(nat, T)>,
    writers: map<nat, nat>,
    readers: map<nat, nat>)
  {
    predicate Shaped() { size >= 2 && |slots| == size }

    function Capacity(): int { size - 1 }

    function Sequence(p: nat): nat
      requires Shaped()
    {
      slots[Index(size, p)].sequence
    }

    function Value(p: nat): Option<T>
      requires Shaped()
    {
      slots[Index(size, p)].value
    }

    function StoreSequence(p: nat, q: nat): Memory<T>
      requires Shaped()
    {
      this.(slots := slots[Index(size, p) := slots[Index(size, p)].(sequence := q)])
    }

    function StoreValue(p: nat, v: T): Memory<T>
      requires Shaped()
    {
      this.(slots := slots[Index(size, p) := slots[Index(size, p)].(value := Some(v))])
    }
  }

  datatype Ring<T> = Ring(mem: Memory<T>, threads: map<nat, Pc<T>>)

  function Initial<T>(size: nat): Ring<T> {
    Ring(Memory(size, 0, 0, 0, 0, seq(size, (i: nat) => Slot(i, None)), [], [], map[], map[]), map[])
  }

  // The memory and program counter after one atomic step of thread t at `pc`.
  // `miss` makes a compare-and-swap fail, as a weak one may do at any time.
  function Act<T>(m: Memory<T>, t: nat, pc: Pc<T>, miss: bool): (Memory<T>, Pc<T>)
    requires m.Shaped() && (pc.DeqRead? ==> m.Value(pc.pos).Some?)
  {
    match pc
    case Idle => (m, Idle)
    case EnqLoadHead(v) => (m, EnqLoadTail(v, m.prodHead))
    case EnqLoadTail(v, head) =>
      // head - consumer.tail wraps around when the head read is stale
      (m, if head < m.consTail || head - m.consTail >= m.Capacity() then Idle else EnqLoadSequence(v, head))
    case EnqLoadSequence(v, head) =>
      (m, if m.Sequence(head) != head then Idle else EnqSwap(v, head))
    case EnqSwap(v, head) =>
      if miss || m.prodHead != head then (m, EnqLoadHead(v))
      else (m.(prodHead := head + 1, enqueued := m.enqueued + [v], writers := m.writers[head := t]), EnqWrite(v, head))
    case EnqWrite(v, pos) => (m.StoreValue(pos, v), EnqAddTail(v, pos))
    case EnqAddTail(v, pos) => (m.(prodTail := m.prodTail + 1), EnqPublish(v, pos))
    case EnqPublish(v, pos) => (m.StoreSequence(pos, pos + 1).(writers := m.writers - {pos}), Idle)
    case DeqLoadHead => (m, DeqLoadSequence(m.consHead))
    case DeqLoadSequence(head) =>
      (m, if m.Sequence(head) != head + 1 then Idle else DeqSwap(head))
    case DeqSwap(head) =>
      if miss || m.consHead != head then (m, DeqLoadHead)
      else (m.(consHead := head + 1, readers := m.readers[head := t]), DeqRead(head))
    case DeqRead(pos) =>
      var v := m.Value(pos).value;
      (m.(dequeued := m.dequeued + [(pos, v)]), DeqAddTail(v, pos))
    case DeqAddTail(v, pos) => (m.(consTail := m.consTail + 1), DeqPublish(v, pos))
    case DeqPublish(v, pos) => (m.StoreSequence(pos, pos + m.size).(readers := m.readers - {pos}), Idle)
  }

  predicate CanStep<T>(r: Ring<T>, t: nat) {
    r.mem.Shaped() && t in r.threads && (r.threads[t].DeqRead? ==> r.mem.Value(r.threads[t].pos).Some?)
  }

  function Step<T>(r: Ring<T>, t: nat, miss: bool): Ring<T>
    requires CanStep(r, t)
  {
    var (mem, pc) := Act(r.mem, t, r.threads[t], miss);
    Ring(mem, r.threads[t := pc])
  }

  // A thread that is not inside an operation calls one.
  predicate CanCall<T>(r: Ring<T>, t: nat, pc: Pc<T>) {
    (t in r.threads ==> r.threads[t] == Idle) && (pc.EnqLoadHead? || pc == DeqLoadHead)
  }

  ghost predicate Next<T(!new)>(r: Ring<T>, r': Ring<T>) {
    || (exists t, pc :: CanCall(r, t, pc) && r' == r.(threads := r.threads[t := pc]))
    || (exists t, miss :: CanStep(r, t) && r' == Step(r, t, miss))
  }

  // ---- the invariant

  ghost predicate ThreadOk<T>(m: Memory<T>, t: nat, pc: Pc<T>)
    requires m.Shaped()
  {
    match pc
    case Idle => true
    case EnqLoadHead(_) => true
    case EnqLoadTail(_, head) => head <= m.prodHead
    case EnqLoadSequence(_, head) => head <= m.prodHead && head < m.consTail + m.Capacity()
    case EnqSwap(_, head) =>
      && head <= m.prodHead && head < m.consTail + m.Capacity()
      && (head == m.prodHead ==> m.Sequence(head) == head)
    case EnqWrite(v, pos) => ProducerOk(m, t, v, pos)
    case EnqAddTail(v, pos) => ProducerOk(m, t, v, pos) && m.Value(pos) == Some(v)
    case EnqPublish(v, pos) => ProducerOk(m, t, v, pos) && m.Value(pos) == Some(v)
    case DeqLoadHead => true
    case DeqLoadSequence(head) => head <= m.consHead
    case DeqSwap(head) => head <= m.consHead && (head == m.consHead ==> m.Sequence(head) == head + 1)
    case DeqRead(pos) => ConsumerOk(m, t, pos) && !Delivered(m.dequeued, pos)
    case DeqAddTail(v, pos) => ConsumerOk(m, t, pos) && m.enqueued[pos] == v && Delivered(m.dequeued, pos)
    case DeqPublish(v, pos) => ConsumerOk(m, t, pos) && m.enqueued[pos] == v && Delivered(m.dequeued, pos)
  }

  ghost predicate ProducerOk<T>(m: Memory<T>, t: nat, v: T, pos: nat)
    requires m.Shaped()
  {
    && m.consHead <= pos < m.prodHead && m.Sequence(pos) == pos && pos < |m.enqueued| && m.enqueued[pos] == v
    && pos in m.writers && m.writers[pos] == t
  }

  ghost predicate ConsumerOk<T>(m: Memory<T>, t: nat, pos: nat)
    requires m.Shaped()
  {
    && pos < m.consHead && m.prodHead <= pos + m.size && m.Sequence(pos) == pos + 1 && pos < |m.enqueued|
    && pos in m.readers && m.readers[pos] == t
  }

  ghost predicate Delivered<T>(dequeued: seq<(nat, T)>, p: nat) {
    exists i :: 0 <= i < |dequeued| && dequeued[i].0 == p
  }

  // The records of who holds what name threads that are really there.
  ghost predicate HoldersOk<T>(writers: map<nat, nat>, readers: map<nat, nat>, threads: map<nat, Pc<T>>) {
    && (forall p :: p in writers ==>
        writers[p] in threads && threads[writers[p]].Produces() && threads[writers[p]].pos == p)
    && (forall p :: p in readers ==>
        readers[p] in threads && threads[readers[p]].Consumes() && threads[readers[p]].pos == p)
  }

  // Every slot is accounted for: reserved positions are being written or published; free positions are
  // ready for the next lap or still being read. A published slot holds its value.
  ghost predicate SlotsOk<T>(m: Memory<T>)
    requires m.Shaped()
  {
    && (forall p: nat :: m.consHead <= p < m.prodHead ==>
        m.Sequence(p) == p + 1 || (m.Sequence(p) == p && p in m.writers))
    && (forall p: nat :: m.prodHead <= p < m.consHead + m.size ==>
        m.Sequence(p) == p || (p >= m.size && p - m.size in m.readers))
    && (forall p: nat :: m.Sequence(p) == p + 1 ==>
        p < m.prodHead && p < |m.enqueued| && m.Value(p) == Some(m.enqueued[p]))
  }

  ghost function Uncounted<T>(threads: map<nat, Pc<T>>, producers: bool): set<nat> {
    set t | t in threads && (if producers then threads[t].ProducerUncounted() else threads[t].ConsumerUncounted())
  }

  ghost predicate HeadsOk<T>(m: Memory<T>) {
    m.consHead <= m.prodHead == |m.enqueued| && m.prodHead <= m.consTail + m.Capacity()
  }

  // The tails lag the heads by the operations that have reserved but not yet counted.
  ghost predicate TailsOk<T>(m: Memory<T>, threads: map<nat, Pc<T>>) {
    && m.prodTail + |Uncounted(threads, true)| == m.prodHead
    && m.consTail + |Uncounted(threads, false)| == m.consHead
  }

  // What has been delivered: each position at most once, with the value enqueued there.
  ghost predicate DeliveriesOk<T>(m: Memory<T>) {
    && (forall i :: 0 <= i < |m.dequeued| ==>
          m.dequeued[i].0 < m.consHead && m.dequeued[i].0 < |m.enqueued|
              && m.dequeued[i].1 == m.enqueued[m.dequeued[i].0])
    && (forall i, j :: 0 <= i < j < |m.dequeued| ==> m.dequeued[i].0 != m.dequeued[j].0)
    && (forall p :: 0 <= p < m.consHead ==> Delivered(m.dequeued, p) || p in m.readers)
  }

  ghost predicate ThreadsOk<T>(m: Memory<T>, threads: map<nat, Pc<T>>)
    requires m.Shaped()
  {
    forall t :: t in threads ==> ThreadOk(m, t, threads[t])
  }

  ghost predicate Inv<T>(r: Ring<T>) {
    && r.mem.Shaped()
    && ThreadsOk(r.mem, r.threads)
    && HoldersOk(r.mem.writers, r.mem.readers, r.threads)
    && SlotsOk(r.mem) && HeadsOk(r.mem) && TailsOk(r.mem, r.threads) && DeliveriesOk(r.mem)
  }

  // ---- every step keeps the invariant

  lemma InitialInv<T>(size: nat)
    requires size >= 2
    ensures Inv(Initial<T>(size))
  {
    var r := Initial<T>(size);
    assert Uncounted(r.threads, true) == {} && Uncounted(r.threads, false) == {};
    forall p: nat ensures r.mem.Sequence(p) != p + 1 && (p < size ==> r.mem.Sequence(p) == p) {
      SmallIndex(size, p);
    }
  }

  lemma CountOut<T>(threads: map<nat, Pc<T>>, t: nat, pc: Pc<T>, producers: bool)
    requires t in Uncounted(threads, producers) && t !in Uncounted(threads[t := pc], producers)
    ensures |Uncounted(threads[t := pc], producers)| == |Uncounted(threads, producers)| - 1
  {
    assert Uncounted(threads[t := pc], producers) == Uncounted(threads, producers) - {t};
  }

  lemma CountIn<T>(threads: map<nat, Pc<T>>, t: nat, pc: Pc<T>, producers: bool)
    requires t !in Uncounted(threads, producers) && t in Uncounted(threads[t := pc], producers)
    ensures |Uncounted(threads[t := pc], producers)| == |Uncounted(threads, producers)| + 1
  {
    assert Uncounted(threads[t := pc], producers) == Uncounted(threads, producers) + {t};
  }

  lemma CountSame<T>(threads: map<nat, Pc<T>>, t: nat, pc: Pc<T>, producers: bool)
    requires t in Uncounted(threads, producers) <==> t in Uncounted(threads[t := pc], producers)
    ensures Uncounted(threads[t := pc], producers) == Uncounted(threads, producers)
  {
  }

  // Calls, loads and failed swaps change only where a thread is.
  lemma MoveKeepsInv<T>(r: Ring<T>, t: nat, pc: Pc<T>)
    requires Inv(r) && ThreadOk(r.mem, t, pc) && !pc.Produces() && !pc.Consumes()
    requires t in r.threads ==> !r.threads[t].Produces() && !r.threads[t].Consumes()
    ensures Inv(r.(threads := r.threads[t := pc]))
  {
    hide ThreadOk, SlotsOk, HeadsOk, DeliveriesOk;
    CountSame(r.threads, t, pc, true);
    CountSame(r.threads, t, pc, false);
  }

  // Another thread does not notice that position head is reserved.
  lemma ReserveThread<T>(m: Memory<T>, m': Memory<T>, u: nat, pc: Pc<T>, t: nat, v: T)
    requires m.Shaped() && HeadsOk(m) && ThreadOk(m, u, pc) && m.Sequence(m.prodHead) == m.prodHead
    requires m' == m.(prodHead := m.prodHead + 1, enqueued := m.enqueued + [v], writers := m.writers[m.prodHead := t])
    ensures ThreadOk(m', u, pc)
  {
    hide Index;
    if pc.Consumes() {
      NextLap(m.size, pc.pos);
      assert m.Sequence(pc.pos + m.size) == m.Sequence(pc.pos);
    }
  }

  lemma ReserveSlots<T>(m: Memory<T>, m': Memory<T>, t: nat, v: T)
    requires m.Shaped() && HeadsOk(m) && SlotsOk(m) && m.Sequence(m.prodHead) == m.prodHead
    requires m' == m.(prodHead := m.prodHead + 1, enqueued := m.enqueued + [v], writers := m.writers[m.prodHead := t])
    ensures SlotsOk(m')
  {
    hide Index;
    assert forall p: nat :: m'.Sequence(p) == m.Sequence(p) && m'.Value(p) == m.Value(p);
  }

  function Reserved<T>(m: Memory<T>, t: nat, v: T): Memory<T> {
    m.(prodHead := m.prodHead + 1, enqueued := m.enqueued + [v], writers := m.writers[m.prodHead := t])
  }

  lemma ReserveKeepsInv<T>(r: Ring<T>, t: nat)
    requires Inv(r) && t in r.threads && r.threads[t].EnqSwap? && r.mem.prodHead == r.threads[t].head
    ensures Inv(Ring(Reserved(r.mem, t, r.threads[t].v), r.threads[t := EnqWrite(r.threads[t].v, r.mem.prodHead)]))
  {
    hide SlotsOk, ThreadOk;
    var m, v := r.mem, r.threads[t].v;
    var m', pc' := Reserved(m, t, v), EnqWrite(v, m.prodHead);
    CountIn(r.threads, t, pc', true);
    CountSame(r.threads, t, pc', false);
    ReserveSelf(m, t, r.threads[t]);
    ReserveSlots(m, m', t, v);
    forall u | u in r.threads && u != t ensures ThreadOk(m', u, r.threads[u]) {
      ReserveThread(m, m', u, r.threads[u], t, v);
    }
  }

  lemma ReserveSelf<T>(m: Memory<T>, t: nat, pc: Pc<T>)
    requires m.Shaped() && HeadsOk(m) && ThreadOk(m, t, pc) && pc.EnqSwap? && m.prodHead == pc.head
    ensures m.Sequence(m.prodHead) == m.prodHead
    ensures ThreadOk(Reserved(m, t, pc.v), t, EnqWrite(pc.v, m.prodHead)) && HeadsOk(Reserved(m, t, pc.v))
  {
    assert Reserved(m, t, pc.v).Sequence(m.prodHead) == m.Sequence(m.prodHead);
  }

  // Slots with another index are not written.
  lemma WriteThread<T>(m: Memory<T>, u: nat, pc: Pc<T>, t: nat, v: T, pos: nat)
    requires m.Shaped() && ThreadOk(m, u, pc) && ProducerOk(m, t, v, pos) && u != t
    ensures ThreadOk(m.StoreValue(pos, v), u, pc)
  {
    hide Index;
    var m' := m.StoreValue(pos, v);
    assert forall p: nat :: m'.Sequence(p) == m.Sequence(p);
    if pc.Produces() {
      assert Index(m.size, pc.pos) != Index(m.size, pos);
    }
  }

  lemma WriteSlots<T>(m: Memory<T>, t: nat, v: T, pos: nat)
    requires m.Shaped() && SlotsOk(m) && ProducerOk(m, t, v, pos)
    ensures SlotsOk(m.StoreValue(pos, v))
  {
    hide Index;
    var m' := m.StoreValue(pos, v);
    assert forall p: nat :: m'.Sequence(p) == m.Sequence(p);
    forall p: nat | m.Sequence(p) == p + 1 ensures m'.Value(p) == m.Value(p) {
      if Index(m.size, p) == Index(m.size, pos) { SameIndex(m.size, p, p + 1); }
    }
  }

  lemma WriteSelf<T>(m: Memory<T>, t: nat, pc: Pc<T>)
    requires m.Shaped() && ThreadOk(m, t, pc) && pc.EnqWrite?
    ensures ProducerOk(m, t, pc.v, pc.pos)
    ensures ThreadOk(m.StoreValue(pc.pos, pc.v), t, EnqAddTail(pc.v, pc.pos))
  {
  }

  lemma WriteKeepsInv<T>(r: Ring<T>, t: nat)
    requires Inv(r) && t in r.threads && r.threads[t].EnqWrite?
    ensures var pc := r.threads[t]; Inv(Ring(r.mem.StoreValue(pc.pos, pc.v), r.threads[t := EnqAddTail(pc.v, pc.pos)]))
  {
    hide DeliveriesOk, SlotsOk, ThreadOk;
    var m, v, pos := r.mem, r.threads[t].v, r.threads[t].pos;
    CountSame(r.threads, t, EnqAddTail(v, pos), true);
    CountSame(r.threads, t, EnqAddTail(v, pos), false);
    WriteSelf(m, t, r.threads[t]);
    WriteSlots(m, t, v, pos);
    forall u | u in r.threads && u != t ensures ThreadOk(m.StoreValue(pos, v), u, r.threads[u]) {
      WriteThread(m, u, r.threads[u], t, v, pos);
    }
    assert DeliveriesOk(m.StoreValue(pos, v)) by { SameDeliveries(m, m.StoreValue(pos, v)); }
  }

  lemma SameDeliveries<T>(m: Memory<T>, m': Memory<T>)
    requires DeliveriesOk(m)
    requires m'.consHead == m.consHead && m'.enqueued == m.enqueued && m'.dequeued == m.dequeued
             && m'.readers == m.readers
    ensures DeliveriesOk(m')
  {
  }

  // Counting an operation in a tail cursor only loosens what threads rely on.
  lemma TailThread<T>(m: Memory<T>, m': Memory<T>, u: nat, pc: Pc<T>)
    requires m.Shaped() && ThreadOk(m, u, pc)
    requires m' == m.(prodTail := m'.prodTail, consTail := m'.consTail) && m.consTail <= m'.consTail
    ensures ThreadOk(m', u, pc)
  {
    hide Index;
    assert forall p: nat :: m'.Sequence(p) == m.Sequence(p) && m'.Value(p) == m.Value(p);
  }

  lemma TailSlots<T>(m: Memory<T>, m': Memory<T>)
    requires m.Shaped() && SlotsOk(m) && m' == m.(prodTail := m'.prodTail, consTail := m'.consTail)
    ensures SlotsOk(m')
  {
    hide Index;
    assert forall p: nat :: m'.Sequence(p) == m.Sequence(p) && m'.Value(p) == m.Value(p);
  }

  lemma ProducerTailKeepsInv<T>(r: Ring<T>, t: nat)
    requires Inv(r) && t in r.threads && r.threads[t].EnqAddTail?
    ensures var pc := r.threads[t];
            Inv(Ring(r.mem.(prodTail := r.mem.prodTail + 1), r.threads[t := EnqPublish(pc.v, pc.pos)]))
  {
    hide SlotsOk, ThreadOk, DeliveriesOk;
    var m, v, pos := r.mem, r.threads[t].v, r.threads[t].pos;
    var m' := m.(prodTail := m.prodTail + 1);
    CountOut(r.threads, t, EnqPublish(v, pos), true);
    CountSame(r.threads, t, EnqPublish(v, pos), false);
    TailSlots(m, m');
    SameDeliveries(m, m');
    forall u | u in r.threads ensures ThreadOk(m', u, r.threads[u]) {
      TailThread(m, m', u, r.threads[u]);
    }
    assert ThreadOk(m', t, EnqPublish(v, pos)) by { ProducerCounted(m', t, v, pos); }
  }

  lemma ProducerCounted<T>(m: Memory<T>, t: nat, v: T, pos: nat)
    requires m.Shaped() && ThreadOk(m, t, EnqAddTail(v, pos))
    ensures ThreadOk(m, t, EnqPublish(v, pos))
  {
  }

  lemma ConsumerTailKeepsInv<T>(r: Ring<T>, t: nat)
    requires Inv(r) && t in r.threads && r.threads[t].DeqAddTail?
    ensures var pc := r.threads[t];
            Inv(Ring(r.mem.(consTail := r.mem.consTail + 1), r.threads[t := DeqPublish(pc.v, pc.pos)]))
  {
    hide SlotsOk, ThreadOk, DeliveriesOk;
    var m, v, pos := r.mem, r.threads[t].v, r.threads[t].pos;
    var m' := m.(consTail := m.consTail + 1);
    CountOut(r.threads, t, DeqPublish(v, pos), false);
    CountSame(r.threads, t, DeqPublish(v, pos), true);
    TailSlots(m, m');
    SameDeliveries(m, m');
    forall u | u in r.threads ensures ThreadOk(m', u, r.threads[u]) {
      TailThread(m, m', u, r.threads[u]);
    }
    assert ThreadOk(m', t, DeqPublish(v, pos)) by { ConsumerCounted(m', t, v, pos); }
  }

  lemma ConsumerCounted<T>(m: Memory<T>, t: nat, v: T, pos: nat)
    requires m.Shaped() && ThreadOk(m, t, DeqAddTail(v, pos))
    ensures ThreadOk(m, t, DeqPublish(v, pos))
  {
  }

  // Storing a sequence number changes one slot.
  lemma Stored<T>(m: Memory<T>, pos: nat, q: nat)
    requires m.Shaped()
    ensures var m' := m.StoreSequence(pos, q);
            && m'.Shaped()
            && (forall p: nat :: m'.Sequence(p) == if Index(m.size, p) == Index(m.size, pos) then q else m.Sequence(p))
            && (forall p: nat :: m'.Value(p) == m.Value(p))
  {
    hide Index;
  }

  function Published<T>(m: Memory<T>, pos: nat): Memory<T>
    requires m.Shaped()
  {
    m.StoreSequence(pos, pos + 1).(writers := m.writers - {pos})
  }

  lemma PublishThread<T>(m: Memory<T>, u: nat, pc: Pc<T>, t: nat, v: T, pos: nat)
    requires m.Shaped() && HeadsOk(m) && ThreadOk(m, u, pc) && ProducerOk(m, t, v, pos) && u != t
    ensures ThreadOk(Published(m, pos), u, pc)
  {
    hide Index;
    Stored(m, pos, pos + 1);
    var m' := Published(m, pos);
    assert forall p: nat :: m'.Sequence(p) == m.StoreSequence(pos, pos + 1).Sequence(p) && m'.Value(p) == m.Value(p);
    if pc.Consumes() && Index(m.size, pc.pos) == Index(m.size, pos) {
      SameIndex(m.size, pc.pos, pc.pos + 1);
    }
    if pc.DeqSwap? && pc.head == m.consHead && Index(m.size, pc.head) == Index(m.size, pos) {
      SameIndex(m.size, pc.head, pc.head + 1);
    }
  }

  lemma PublishSlots<T>(m: Memory<T>, t: nat, v: T, pos: nat)
    requires m.Shaped() && HeadsOk(m) && SlotsOk(m) && ProducerOk(m, t, v, pos) && m.Value(pos) == Some(v)
    requires m.consTail <= m.consHead
    ensures SlotsOk(Published(m, pos))
  {
    hide Index;
    Stored(m, pos, pos + 1);
    var m' := Published(m, pos);
    assert forall p: nat :: m'.Sequence(p) == m.StoreSequence(pos, pos + 1).Sequence(p) && m'.Value(p) == m.Value(p);
    forall p: nat | m.consHead <= p < m.consHead + m.size && Index(m.size, p) == Index(m.size, pos) ensures p == pos {
      SameIndex(m.size, p, pos);
    }
  }

  lemma PublishKeepsInv<T>(r: Ring<T>, t: nat)
    requires Inv(r) && t in r.threads && r.threads[t].EnqPublish?
    ensures Inv(Ring(Published(r.mem, r.threads[t].pos), r.threads[t := Idle]))
  {
    hide SlotsOk, DeliveriesOk;
    var m, v, pos := r.mem, r.threads[t].v, r.threads[t].pos;
    assert ThreadOk(m, t, r.threads[t]);
    PublishAll(r, t, v, pos);
  }

  lemma PublishAll<T>(r: Ring<T>, t: nat, v: T, pos: nat)
    requires Inv(r) && t in r.threads && r.threads[t] == EnqPublish(v, pos)
    requires ProducerOk(r.mem, t, v, pos) && r.mem.Value(pos) == Some(v)
    ensures Inv(Ring(Published(r.mem, pos), r.threads[t := Idle]))
  {
    hide SlotsOk, ThreadOk, DeliveriesOk;
    var m := r.mem;
    CountSame(r.threads, t, Idle, true);
    CountSame(r.threads, t, Idle, false);
    PublishSlots(m, t, v, pos);
    SameDeliveries(m, Published(m, pos));
    forall u | u in r.threads && u != t ensures ThreadOk(Published(m, pos), u, r.threads[u]) {
      PublishThread(m, u, r.threads[u], t, v, pos);
    }
    assert ThreadOk(Published(m, pos), t, Idle) by { IdleOk(Published(m, pos), t); }
  }

  lemma IdleOk<T>(m: Memory<T>, t: nat)
    requires m.Shaped()
    ensures ThreadOk(m, t, Idle)
  {
  }

  function Claimed<T>(m: Memory<T>, t: nat): Memory<T> {
    m.(consHead := m.consHead + 1, readers := m.readers[m.consHead := t])
  }

  lemma ClaimThread<T>(m: Memory<T>, u: nat, pc: Pc<T>, t: nat)
    requires m.Shaped() && HeadsOk(m) && ThreadOk(m, u, pc) && m.Sequence(m.consHead) == m.consHead + 1
    ensures ThreadOk(Claimed(m, t), u, pc)
  {
    hide Index;
    var m' := Claimed(m, t);
    assert forall p: nat :: m'.Sequence(p) == m.Sequence(p) && m'.Value(p) == m.Value(p);
  }

  lemma ClaimSlots<T>(m: Memory<T>, t: nat)
    requires m.Shaped() && HeadsOk(m) && SlotsOk(m) && m.Sequence(m.consHead) == m.consHead + 1
    ensures SlotsOk(Claimed(m, t)) && m.consHead < m.prodHead
  {
    hide Index;
    var m' := Claimed(m, t);
    assert forall p: nat :: m'.Sequence(p) == m.Sequence(p) && m'.Value(p) == m.Value(p);
  }

  lemma ClaimSelf<T>(m: Memory<T>, t: nat)
    requires m.Shaped() && HeadsOk(m) && DeliveriesOk(m) && m.consHead < m.prodHead
    requires m.Sequence(m.consHead) == m.consHead + 1 && m.consTail <= m.consHead
    ensures var m' := Claimed(m, t);
            HeadsOk(m') && DeliveriesOk(m') && ThreadOk(m', t, DeqRead(m.consHead))
  {
    hide Index;
    assert Claimed(m, t).Sequence(m.consHead) == m.Sequence(m.consHead);
  }

  lemma ClaimKeepsInv<T>(r: Ring<T>, t: nat)
    requires Inv(r) && t in r.threads && r.threads[t].DeqSwap? && r.mem.consHead == r.threads[t].head
    ensures Inv(Ring(Claimed(r.mem, t), r.threads[t := DeqRead(r.mem.consHead)]))
  {
    hide SlotsOk, ThreadOk, DeliveriesOk;
    var m, pc' := r.mem, DeqRead(r.mem.consHead);
    assert m.Sequence(m.consHead) == m.consHead + 1 by { SwapSaw(m, t, r.threads[t]); }
    CountIn(r.threads, t, pc', false);
    CountSame(r.threads, t, pc', true);
    ClaimSlots(m, t);
    ClaimSelf(m, t);
    forall u | u in r.threads && u != t ensures ThreadOk(Claimed(m, t), u, r.threads[u]) {
      ClaimThread(m, u, r.threads[u], t);
    }
  }

  lemma SwapSaw<T>(m: Memory<T>, t: nat, pc: Pc<T>)
    requires m.Shaped() && ThreadOk(m, t, pc) && pc.DeqSwap? && pc.head == m.consHead
    ensures m.Sequence(m.consHead) == m.consHead + 1
  {
  }

  function Taken<T>(m: Memory<T>, pos: nat, v: T): Memory<T> {
    m.(dequeued := m.dequeued + [(pos, v)])
  }

  lemma TakeThread<T>(m: Memory<T>, u: nat, pc: Pc<T>, t: nat, pos: nat, v: T)
    requires m.Shaped() && ThreadOk(m, u, pc) && ConsumerOk(m, t, pos) && u != t
    ensures ThreadOk(Taken(m, pos, v), u, pc)
  {
    hide Index;
    var m' := Taken(m, pos, v);
    assert forall p: nat :: m'.Sequence(p) == m.Sequence(p) && m'.Value(p) == m.Value(p);
    assert forall p: nat :: Delivered(m.dequeued, p) ==> Delivered(m'.dequeued, p) by {
      forall p: nat | Delivered(m.dequeued, p) ensures Delivered(m'.dequeued, p) {
        var i :| 0 <= i < |m.dequeued| && m.dequeued[i].0 == p;
        assert m'.dequeued[i].0 == p;
      }
    }
  }

  lemma TakeMemory<T>(m: Memory<T>, t: nat, pos: nat)
    requires m.Shaped() && SlotsOk(m) && DeliveriesOk(m) && ThreadOk(m, t, DeqRead(pos))
    ensures m.Value(pos) == Some(m.enqueued[pos])
    ensures var v := m.enqueued[pos];
            SlotsOk(Taken(m, pos, v)) && DeliveriesOk(Taken(m, pos, v))
                && ThreadOk(Taken(m, pos, v), t, DeqAddTail(v, pos))
  {
    hide Index;
    var v := m.enqueued[pos];
    var m' := Taken(m, pos, v);
    assert forall p: nat :: m'.Sequence(p) == m.Sequence(p) && m'.Value(p) == m.Value(p);
    assert m'.dequeued[|m.dequeued|].0 == pos;
    forall p: nat | Delivered(m.dequeued, p) ensures Delivered(m'.dequeued, p) {
      var i :| 0 <= i < |m.dequeued| && m.dequeued[i].0 == p;
      assert m'.dequeued[i].0 == p;
    }
  }

  lemma TakeKeepsInv<T>(r: Ring<T>, t: nat)
    requires Inv(r) && t in r.threads && r.threads[t].DeqRead?
    ensures var pos := r.threads[t].pos;
            && pos < |r.mem.enqueued| && r.mem.Value(pos) == Some(r.mem.enqueued[pos])
            && var v := r.mem.enqueued[pos];
               Inv(Ring(Taken(r.mem, pos, v), r.threads[t := DeqAddTail(v, pos)]))
  {
    hide SlotsOk, ThreadOk, DeliveriesOk;
    var m, pos := r.mem, r.threads[t].pos;
    TakeMemory(m, t, pos);
    assert ConsumerOk(m, t, pos) by { ReaderOk(m, t, pos); }
    var v := m.enqueued[pos];
    CountSame(r.threads, t, DeqAddTail(v, pos), false);
    CountSame(r.threads, t, DeqAddTail(v, pos), true);
    forall u | u in r.threads && u != t ensures ThreadOk(Taken(m, pos, v), u, r.threads[u]) {
      TakeThread(m, u, r.threads[u], t, pos, v);
    }
  }

  lemma ReaderOk<T>(m: Memory<T>, t: nat, pos: nat)
    requires m.Shaped() && ThreadOk(m, t, DeqRead(pos))
    ensures ConsumerOk(m, t, pos)
  {
  }

  function Released<T>(m: Memory<T>, pos: nat): Memory<T>
    requires m.Shaped()
  {
    m.StoreSequence(pos, pos + m.size).(readers := m.readers - {pos})
  }

  lemma ReleaseThread<T>(m: Memory<T>, u: nat, pc: Pc<T>, t: nat, pos: nat)
    requires m.Shaped() && HeadsOk(m) && ThreadOk(m, u, pc) && ConsumerOk(m, t, pos) && u != t
    ensures ThreadOk(Released(m, pos), u, pc)
  {
    hide Index;
    Stored(m, pos, pos + m.size);
    var m' := Released(m, pos);
    assert forall p: nat ::
             m'.Sequence(p) == m.StoreSequence(pos, pos + m.size).Sequence(p) && m'.Value(p) == m.Value(p);
    if Index(m.size, pos) == Index(m.size, pos + 1) { SameIndex(m.size, pos, pos + 1); }
  }

  // Which positions share the slot being released.
  lemma ReleaseIndices<T>(m: Memory<T>, t: nat, pos: nat, p: nat)
    requires m.Shaped() && HeadsOk(m) && SlotsOk(m) && ConsumerOk(m, t, pos) && Index(m.size, p) == Index(m.size, pos)
    ensures !(m.consHead <= p < m.prodHead)
    ensures m.prodHead <= p < m.consHead + m.size ==> p == pos + m.size
    ensures p + 1 != pos + m.size
  {
    hide Index;
    NextLap(m.size, pos);
    assert m.Sequence(p) == m.Sequence(pos);
    if p == pos + 1 { SameIndex(m.size, pos, pos + 1); }
    if p + 1 == pos + m.size { SameIndex(m.size, p, p + 1); }
    if m.prodHead <= p < m.consHead + m.size { SameIndex(m.size, p, pos + m.size); }
  }

  lemma ReleaseSlots<T>(m: Memory<T>, t: nat, pos: nat)
    requires m.Shaped() && HeadsOk(m) && SlotsOk(m) && ConsumerOk(m, t, pos)
    ensures SlotsOk(Released(m, pos))
  {
    hide Index;
    Stored(m, pos, pos + m.size);
    var m' := Released(m, pos);
    assert forall p: nat ::
             m'.Sequence(p) == m.StoreSequence(pos, pos + m.size).Sequence(p) && m'.Value(p) == m.Value(p);
    NextLap(m.size, pos);
    forall p: nat | Index(m.size, p) == Index(m.size, pos)
      ensures !(m.consHead <= p < m.prodHead) && (m.prodHead <= p < m.consHead + m.size ==> p == pos + m.size)
              && p + 1 != pos + m.size
    {
      ReleaseIndices(m, t, pos, p);
    }
  }

  lemma ReleaseDeliveries<T>(m: Memory<T>, pos: nat)
    requires m.Shaped() && DeliveriesOk(m) && Delivered(m.dequeued, pos)
    ensures DeliveriesOk(Released(m, pos))
  {
  }

  lemma ReleaseKeepsInv<T>(r: Ring<T>, t: nat)
    requires Inv(r) && t in r.threads && r.threads[t].DeqPublish?
    ensures Inv(Ring(Released(r.mem, r.threads[t].pos), r.threads[t := Idle]))
  {
    hide SlotsOk, DeliveriesOk;
    assert ThreadOk(r.mem, t, r.threads[t]);
    ReleaseAll(r, t, r.threads[t].pos);
  }

  lemma ReleaseAll<T>(r: Ring<T>, t: nat, pos: nat)
    requires Inv(r) && t in r.threads && r.threads[t].DeqPublish? && r.threads[t].pos == pos
    requires ConsumerOk(r.mem, t, pos) && Delivered(r.mem.dequeued, pos)
    ensures Inv(Ring(Released(r.mem, pos), r.threads[t := Idle]))
  {
    hide SlotsOk, ThreadOk, DeliveriesOk;
    var m := r.mem;
    CountSame(r.threads, t, Idle, true);
    CountSame(r.threads, t, Idle, false);
    ReleaseSlots(m, t, pos);
    ReleaseDeliveries(m, pos);
    forall u | u in r.threads && u != t ensures ThreadOk(Released(m, pos), u, r.threads[u]) {
      ReleaseThread(m, u, r.threads[u], t, pos);
    }
    assert ThreadOk(Released(m, pos), t, Idle) by { IdleOk(Released(m, pos), t); }
  }

  // ---- the theorems

  lemma StepKeepsInv<T>(r: Ring<T>, t: nat, miss: bool)
    requires Inv(r) && t in r.threads
    ensures CanStep(r, t) && Inv(Step(r, t, miss))
  {
    hide ThreadsOk, HoldersOk, SlotsOk, HeadsOk, TailsOk, DeliveriesOk, Index;
    var pc := r.threads[t];
    match pc
    case EnqSwap(v, head) =>
      if miss || r.mem.prodHead != head { MoveKeepsInv(r, t, EnqLoadHead(v)); } else { ReserveKeepsInv(r, t); }
    case EnqWrite(_, _) => WriteKeepsInv(r, t);
    case EnqAddTail(_, _) => ProducerTailKeepsInv(r, t);
    case EnqPublish(_, _) => PublishKeepsInv(r, t);
    case DeqSwap(head) =>
      if miss || r.mem.consHead != head { MoveKeepsInv(r, t, DeqLoadHead); } else { ClaimKeepsInv(r, t); }
    case DeqRead(_) => TakeKeepsInv(r, t);
    case DeqAddTail(_, _) => ConsumerTailKeepsInv(r, t);
    case DeqPublish(_, _) => ReleaseKeepsInv(r, t);
    case _ =>
      LoadOk(r.mem, t, pc, miss, r.threads);
      MoveKeepsInv(r, t, Act(r.mem, t, pc, miss).1);
  }

  // What a load has seen is what the next step relies on.
  lemma LoadOk<T>(m: Memory<T>, t: nat, pc: Pc<T>, miss: bool, threads: map<nat, Pc<T>>)
    requires m.Shaped() && ThreadsOk(m, threads) && HeadsOk(m) && t in threads && threads[t] == pc
    requires pc.Idle? || pc.EnqLoadHead? || pc.EnqLoadTail? || pc.EnqLoadSequence? || pc.DeqLoadHead?
             || pc.DeqLoadSequence?
    ensures Act(m, t, pc, miss).0 == m && ThreadOk(m, t, Act(m, t, pc, miss).1)
  {
    hide Index;
    assert ThreadOk(m, t, pc);
  }

  lemma NextKeepsInv<T(!new)>(r: Ring<T>, r': Ring<T>)
    requires Inv(r) && Next(r, r')
    ensures Inv(r')
  {
    hide ThreadsOk, HoldersOk, SlotsOk, HeadsOk, TailsOk, DeliveriesOk, Index;
    if t, pc :| CanCall(r, t, pc) && r' == r.(threads := r.threads[t := pc]) {
      MoveKeepsInv(r, t, pc);
    } else {
      var t, miss :| CanStep(r, t) && r' == Step(r, t, miss);
      StepKeepsInv(r, t, miss);
    }
  }

  ghost predicate Run<T(!new)>(size: nat, states: seq<Ring<T>>) {
    && |states| > 0 && size >= 2 && states[0] == Initial(size)
    && forall k :: 0 <= k < |states| - 1 ==> Next(states[k], states[k + 1])
  }

  // Every state of every run of any number of threads satisfies the invariant.
  lemma {:induction false} EveryRunSafe<T(!new)>(size: nat, states: seq<Ring<T>>, k: nat)
    requires Run(size, states) && k < |states|
    ensures Inv(states[k])
  {
    if k == 0 {
      InitialInv<T>(size);
    } else {
      EveryRunSafe(size, states, k - 1);
      NextKeepsInv(states[k - 1], states[k]);
    }
  }

  // ---- what the invariant means to callers

  // A slot that a thread holds carries the number of the thread's position, or the next one.
  ghost predicate Holds<T>(m: Memory<T>, t: nat, pc: Pc<T>)
    requires m.Shaped()
  {
    || (pc.Produces() && m.Sequence(pc.pos) == pc.pos && pc.pos in m.writers && m.writers[pc.pos] == t)
    || (pc.Consumes() && m.Sequence(pc.pos) == pc.pos + 1 && pc.pos in m.readers && m.readers[pc.pos] == t)
  }

  lemma HeldByThread<T>(r: Ring<T>, t: nat)
    requires Inv(r) && t in r.threads && (r.threads[t].Produces() || r.threads[t].Consumes())
    ensures Holds(r.mem, t, r.threads[t]) && r.mem.size >= 2
  {
    hide SlotsOk, DeliveriesOk, TailsOk, HeadsOk, HoldersOk, Index;
    assert ThreadOk(r.mem, t, r.threads[t]);
  }

  // No slot is held by two threads at once.
  lemma NoSlotShared<T>(r: Ring<T>, t: nat, u: nat)
    requires Inv(r) && t in r.threads && u in r.threads && t != u
    requires (r.threads[t].Produces() || r.threads[t].Consumes())
             && (r.threads[u].Produces() || r.threads[u].Consumes())
    ensures Index(r.mem.size, r.threads[t].pos) != Index(r.mem.size, r.threads[u].pos)
  {
    hide Index, ThreadsOk, HoldersOk, SlotsOk, HeadsOk, DeliveriesOk, TailsOk;
    HeldByThread(r, t);
    HeldByThread(r, u);
    var m, p, q := r.mem, r.threads[t].pos, r.threads[u].pos;
    if Index(m.size, p) == Index(m.size, q) {
      assert m.Sequence(p) == m.Sequence(q);
      if r.threads[t].Produces() && r.threads[u].Consumes() { SameIndex(m.size, q, q + 1); }
      if r.threads[t].Consumes() && r.threads[u].Produces() { SameIndex(m.size, p, p + 1); }
    }
  }

  // A consumer that reads a slot finds the value enqueued at its position, not delivered before.
  lemma ReadSeesItsValue<T>(r: Ring<T>, t: nat)
    requires Inv(r) && t in r.threads && r.threads[t].DeqRead?
    ensures var pos := r.threads[t].pos;
            && pos < |r.mem.enqueued| && r.mem.Value(pos) == Some(r.mem.enqueued[pos])
            && !Delivered(r.mem.dequeued, pos)
            && forall u :: u in r.threads && r.threads[u].Produces() ==>
               Index(r.mem.size, r.threads[u].pos) != Index(r.mem.size, pos)
  {
    hide Index, HoldersOk, DeliveriesOk, TailsOk;
    assert ThreadOk(r.mem, t, r.threads[t]);
    forall u | u in r.threads && r.threads[u].Produces()
      ensures Index(r.mem.size, r.threads[u].pos) != Index(r.mem.size, r.threads[t].pos)
    {
      NoSlotShared(r, u, t);
    }
  }

  // Threads with distinct positions in a range are no more than the range has positions.
  lemma {:induction false} CountBound<T>(ts: set<nat>, threads: map<nat, Pc<T>>, lo: nat, hi: nat)
    requires lo <= hi
    requires forall t :: t in ts ==> t in threads && threads[t].Produces() && lo <= threads[t].pos < hi
    requires forall t, u :: t in ts && u in ts && t != u ==>
               threads[t].Produces() && threads[u].Produces() && threads[t].pos != threads[u].pos
    ensures |ts| <= hi - lo
    decreases hi
  {
    if lo < hi {
      if t :| t in ts && threads[t].pos == hi - 1 {
        CountBound(ts - {t}, threads, lo, hi - 1);
      } else {
        CountBound(ts, threads, lo, hi - 1);
      }
    } else {
      assert ts == {};
    }
  }

  // The cursors stay in order and reservations never exceed the capacity.
  lemma CursorOrder<T>(r: Ring<T>)
    requires Inv(r)
    ensures var m := r.mem;
            m.consTail <= m.consHead <= m.prodTail <= m.prodHead && m.prodHead - m.consTail <= m.size - 1
  {
    hide Index, SlotsOk, DeliveriesOk, HoldersOk;
    var ts := Uncounted(r.threads, true);
    forall t | t in ts ensures ProducerOk(r.mem, t, r.threads[t].v, r.threads[t].pos) {
      assert ThreadOk(r.mem, t, r.threads[t]);
    }
    CountBound(ts, r.threads, r.mem.consHead, r.mem.prodHead);
  }

  // ---- the ring as a bounded queue

  // What is in the ring: reserved by a producer and not yet claimed by a consumer, oldest first.
  ghost function Contents<T>(m: Memory<T>): seq<T>
    requires m.consHead <= m.prodHead == |m.enqueued|
  {
    m.enqueued[m.consHead..]
  }

  ghost predicate Quiescent<T>(r: Ring<T>) {
    forall t :: t in r.threads ==> !r.threads[t].Produces() && !r.threads[t].Consumes()
  }

  // Between operations every position is published or free, and everything claimed was delivered.
  lemma AtRest<T>(r: Ring<T>)
    requires Inv(r) && Quiescent(r)
    ensures var m := r.mem;
            && m.Shaped() && HeadsOk(m)
            && m.prodTail == m.prodHead && m.consTail == m.consHead
            && (forall p: nat :: m.consHead <= p < m.prodHead ==>
                m.Sequence(p) == p + 1 && m.Value(p) == Some(m.enqueued[p]))
            && m.Sequence(m.prodHead) == m.prodHead
            && (m.consHead == m.prodHead ==> m.Sequence(m.consHead) != m.consHead + 1)
            && (forall p: nat :: p < m.consHead ==> Delivered(m.dequeued, p))
  {
    hide Index;
    assert Uncounted(r.threads, true) == {} && Uncounted(r.threads, false) == {};
    assert r.mem.writers == map[] && r.mem.readers == map[];
  }

  ghost function Solo<T>(r: Ring<T>, t: nat, n: nat): Ring<T>
    requires Inv(r) && t in r.threads
    ensures Inv(Solo(r, t, n)) && t in Solo(r, t, n).threads
    decreases n
  {
    if n == 0 then r
    else
      StepKeepsInv(r, t, false);
      Solo(Step(r, t, false), t, n - 1)
  }

  // One step of a thread running alone, the other threads standing still.
  lemma SoloStep<T>(m: Memory<T>, others: map<nat, Pc<T>>, t: nat, pc: Pc<T>, n: nat, m': Memory<T>, pc': Pc<T>)
    requires Inv(Ring(m, others[t := pc])) && n > 0
    requires m.Shaped() && (pc.DeqRead? ==> m.Value(pc.pos).Some?) && Act(m, t, pc, false) == (m', pc')
    ensures Inv(Ring(m', others[t := pc']))
    ensures Solo(Ring(m, others[t := pc]), t, n) == Solo(Ring(m', others[t := pc']), t, n - 1)
  {
    hide Inv, Act;
    var r := Ring(m, others[t := pc]);
    StepKeepsInv(r, t, false);
    assert others[t := pc][t := pc'] == others[t := pc'];
    assert Step(r, t, false) == Ring(m', others[t := pc']);
  }

  lemma {:induction false} SoloIdle<T>(r: Ring<T>, t: nat, n: nat)
    requires Inv(r) && t in r.threads && r.threads[t] == Idle
    ensures Solo(r, t, n) == r
    decreases n
  {
    hide Inv;
    if n > 0 {
      StepKeepsInv(r, t, false);
      assert r.threads[t := Idle] == r.threads;
      SoloIdle(r, t, n - 1);
    }
  }

  // From rest, enqueue run by one thread appends exactly when the ring is not full.
  lemma SoloEnqueue<T>(r: Ring<T>, t: nat, v: T)
    requires Inv(r) && Quiescent(r) && CanCall(r, t, EnqLoadHead(v))
    ensures var called := r.(threads := r.threads[t := EnqLoadHead(v)]);
            && Inv(called)
            && var r' := Solo(called, t, 7);
               && r'.threads == r.threads[t := Idle]
               && if |Contents(r.mem)| < r.mem.size - 1
                  then Contents(r'.mem) == Contents(r.mem) + [v] && r'.mem.dequeued == r.mem.dequeued
                  else r'.mem == r.mem
  {
    hide Index, Inv, Solo;
    var m, o, h := r.mem, r.threads, r.mem.prodHead;
    MoveKeepsInv(r, t, EnqLoadHead(v));
    AtRest(r);
    SoloStep(m, o, t, EnqLoadHead(v), 7, m, EnqLoadTail(v, h));
    if m.prodHead - m.consHead < m.size - 1 {
      SoloStep(m, o, t, EnqLoadTail(v, h), 6, m, EnqLoadSequence(v, h));
      SoloStep(m, o, t, EnqLoadSequence(v, h), 5, m, EnqSwap(v, h));
      var m1 := Reserved(m, t, v);
      SoloStep(m, o, t, EnqSwap(v, h), 4, m1, EnqWrite(v, h));
      var m2 := m1.StoreValue(h, v);
      SoloStep(m1, o, t, EnqWrite(v, h), 3, m2, EnqAddTail(v, h));
      var m3 := m2.(prodTail := m2.prodTail + 1);
      SoloStep(m2, o, t, EnqAddTail(v, h), 2, m3, EnqPublish(v, h));
      SoloStep(m3, o, t, EnqPublish(v, h), 1, Published(m3, h), Idle);
      SoloIdle(Ring(Published(m3, h), o[t := Idle]), t, 0);
    } else {
      SoloStep(m, o, t, EnqLoadTail(v, h), 6, m, Idle);
      SoloIdle(Ring(m, o[t := Idle]), t, 5);
    }
  }

  // From rest, dequeue run by one thread delivers the oldest value exactly when there is one.
  lemma SoloDequeue<T>(r: Ring<T>, t: nat)
    requires Inv(r) && Quiescent(r) && CanCall(r, t, DeqLoadHead)
    ensures var called := r.(threads := r.threads[t := DeqLoadHead]);
            && Inv(called)
            && var r' := Solo(called, t, 6);
               && r'.threads == r.threads[t := Idle]
               && if Contents(r.mem) != []
                  then Contents(r'.mem) == Contents(r.mem)[1..]
                       && r'.mem.dequeued == r.mem.dequeued + [(r.mem.consHead, Contents(r.mem)[0])]
                  else r'.mem == r.mem
  {
    hide Index, Inv, Solo;
    var m, o, h := r.mem, r.threads, r.mem.consHead;
    MoveKeepsInv(r, t, DeqLoadHead);
    AtRest(r);
    SoloStep(m, o, t, DeqLoadHead, 6, m, DeqLoadSequence(h));
    if m.consHead < m.prodHead {
      SoloStep(m, o, t, DeqLoadSequence(h), 5, m, DeqSwap(h));
      var m1, v := Claimed(m, t), m.enqueued[h];
      SoloStep(m, o, t, DeqSwap(h), 4, m1, DeqRead(h));
      assert m1.Value(h) == m.Value(h);
      var m2 := Taken(m1, h, v);
      SoloStep(m1, o, t, DeqRead(h), 3, m2, DeqAddTail(v, h));
      var m3 := m2.(consTail := m2.consTail + 1);
      SoloStep(m2, o, t, DeqAddTail(v, h), 2, m3, DeqPublish(v, h));
      SoloStep(m3, o, t, DeqPublish(v, h), 1, Released(m3, h), Idle);
      SoloIdle(Ring(Released(m3, h), o[t := Idle]), t, 0);
    } else {
      SoloStep(m, o, t, DeqLoadSequence(h), 5, m, Idle);
      SoloIdle(Ring(m, o[t := Idle]), t, 4);
    }
  }

  // ---- what a refusal means

  // The thread's next step gives up: enqueue answers full, dequeue answers empty.
  ghost predicate Refuses<T>(r: Ring<T>, t: nat)
    requires CanStep(r, t)
  {
    var pc := r.threads[t];
    (pc.EnqLoadTail? || pc.EnqLoadSequence? || pc.DeqLoadSequence?) && Step(r, t, false).threads[t] == Idle
  }

  // Enqueue answers full at its first check exactly when it has read a head that the consumers have passed since, or
  // when every slot is reserved; at its second check exactly when the position it has read was reserved and published
  // since, or when that position is next and its slot is still held by the consumer of the lap before.
  lemma FullMeans<T>(r: Ring<T>, t: nat)
    requires Inv(r) && t in r.threads && (r.threads[t].EnqLoadTail? || r.threads[t].EnqLoadSequence?)
    ensures CanStep(r, t) && r.threads[t].head <= r.mem.prodHead
    ensures var m, head := r.mem, r.threads[t].head;
            r.threads[t].EnqLoadTail? ==>
              (Refuses(r, t) <==>
               head < m.consTail || (head == m.prodHead && m.prodHead - m.consTail >= m.Capacity()))
    ensures var m, head := r.mem, r.threads[t].head;
            r.threads[t].EnqLoadSequence? ==>
              (Refuses(r, t) <==>
               if head < m.prodHead then head !in m.writers else head >= m.size && head - m.size in m.readers)
  {
    hide Index, DeliveriesOk, HoldersOk, SlotsOk, HeadsOk, TailsOk;
    CursorOrder(r);
    SlotAtHead(r);
    assert ThreadOk(r.mem, t, r.threads[t]);
    if r.threads[t].head < r.mem.prodHead { PassedHead(r, r.threads[t].head); }
  }

  // A reserved position carries its own number exactly while its producer writes.
  lemma PassedHead<T>(r: Ring<T>, head: nat)
    requires Inv(r) && head < r.mem.prodHead
    ensures r.mem.Sequence(head) == head <==> head in r.mem.writers
  {
    hide Index, DeliveriesOk, TailsOk;
    var m := r.mem;
    if head in m.writers {
      assert ThreadOk(m, m.writers[head], r.threads[m.writers[head]]);
    } else if head < m.consHead {
      ClaimedSlot(r, head);
    }
  }

  // A claimed position carries the next number exactly while its consumer holds the slot, and never its own.
  lemma ClaimedSlot<T>(r: Ring<T>, head: nat)
    requires Inv(r) && head < r.mem.consHead
    ensures r.mem.Sequence(head) != head && (r.mem.Sequence(head) == head + 1 <==> head in r.mem.readers)
  {
    hide Index, DeliveriesOk, TailsOk, HeadsOk, SlotsOk, HoldersOk, ThreadsOk;
    var m := r.mem;
    if head in m.readers {
      HeldByReader(r, head);
    } else {
      var q := CurrentLap(m.size, head, m.consHead);
      assert m.Sequence(head) == m.Sequence(q);
      LapSequence(r, q);
    }
  }

  lemma HeldByReader<T>(r: Ring<T>, p: nat)
    requires Inv(r) && p in r.mem.readers
    ensures r.mem.Sequence(p) == p + 1
  {
    hide Index, DeliveriesOk, TailsOk, HeadsOk, SlotsOk;
    assert ThreadOk(r.mem, r.mem.readers[p], r.threads[r.mem.readers[p]]);
  }

  // What the slot of a position of the current lap can carry.
  lemma LapSequence<T>(r: Ring<T>, q: nat)
    requires Inv(r) && r.mem.consHead <= q < r.mem.consHead + r.mem.size
    ensures var m, s := r.mem, r.mem.Sequence(q);
            s == q || s == q + 1 || (q >= m.size && q - m.size in m.readers && s == q - m.size + 1)
  {
    hide Index, DeliveriesOk, TailsOk, HeadsOk, HoldersOk, ThreadsOk;
    var m := r.mem;
    if q >= m.size && q - m.size in m.readers {
      HeldByReader(r, q - m.size);
      NextLap(m.size, q - m.size);
    }
  }

  // The position of the same slot in the lap that begins at `lo`.
  lemma {:induction false} CurrentLap(size: nat, p: nat, lo: nat) returns (q: nat)
    requires size > 0 && p < lo
    ensures Index(size, q) == Index(size, p) && lo <= q < lo + size && p + size <= q
    decreases lo - p
  {
    hide Index;
    NextLap(size, p);
    q := p + size;
    if q < lo { q := CurrentLap(size, q, lo); }
  }

  lemma SlotAtHead<T>(r: Ring<T>)
    requires Inv(r) && r.mem.consTail <= r.mem.consHead
    ensures var m := r.mem;
            m.Sequence(m.prodHead) != m.prodHead <==> m.prodHead >= m.size && m.prodHead - m.size in m.readers
  {
    hide Index, DeliveriesOk, TailsOk, ThreadsOk, HoldersOk;
    var m := r.mem;
    if m.prodHead >= m.size && m.prodHead - m.size in m.readers {
      HeldByReader(r, m.prodHead - m.size);
      NextLap(m.size, m.prodHead - m.size);
    }
  }

  // Dequeue answers empty exactly when the position it has read was claimed since and is no longer held by its
  // consumer, or when that position is next and nothing is reserved there or its value is still being written.
  lemma EmptyMeans<T>(r: Ring<T>, t: nat)
    requires Inv(r) && t in r.threads && r.threads[t].DeqLoadSequence?
    ensures CanStep(r, t) && r.threads[t].head <= r.mem.consHead
    ensures var m, head := r.mem, r.threads[t].head;
            Refuses(r, t) <==>
            if head < m.consHead then head !in m.readers else head == m.prodHead || head in m.writers
  {
    hide Index, DeliveriesOk, TailsOk, HoldersOk, SlotsOk;
    assert ThreadOk(r.mem, t, r.threads[t]);
    if r.threads[t].head < r.mem.consHead { ClaimedSlot(r, r.threads[t].head); } else { SlotToClaim(r); }
  }

  lemma SlotToClaim<T>(r: Ring<T>)
    requires Inv(r)
    ensures var m := r.mem;
            m.Sequence(m.consHead) != m.consHead + 1 <==> m.consHead == m.prodHead || m.consHead in m.writers
  {
    hide Index, DeliveriesOk, TailsOk;
    var m := r.mem;
    if m.consHead in m.writers {
      assert ThreadOk(m, m.writers[m.consHead], r.threads[m.writers[m.consHead]]);
    }
  }

  // ---- a refusal with a stale head

  lemma RunMore<T(!new)>(size: nat, states: seq<Ring<T>>, r: Ring<T>)
    requires Run(size, states) && Next(states[|states| - 1], r)
    ensures Run(size, states + [r])
  {
    hide Next;
    var more := states + [r];
    forall k | 0 <= k < |more| - 1 ensures Next(more[k], more[k + 1]) {
      assert k < |states| - 1 ==> more[k] == states[k] && more[k + 1] == states[k + 1];
    }
  }

  lemma CallMore<T(!new)>(size: nat, states: seq<Ring<T>>, t: nat, pc: Pc<T>) returns (more: seq<Ring<T>>)
    requires Run(size, states) && CanCall(states[|states| - 1], t, pc)
    ensures Run(size, more)
    ensures var r := states[|states| - 1]; more == states + [r.(threads := r.threads[t := pc])]
  {
    var r := states[|states| - 1];
    more := states + [r.(threads := r.threads[t := pc])];
    hide Run, CanCall;
    RunMore(size, states, r.(threads := r.threads[t := pc]));
  }

  lemma StepMore<T(!new)>(size: nat, states: seq<Ring<T>>, t: nat) returns (more: seq<Ring<T>>)
    requires Run(size, states) && t in states[|states| - 1].threads
    ensures CanStep(states[|states| - 1], t) && more == states + [Step(states[|states| - 1], t, false)]
            && Run(size, more)
  {
    hide Inv, Act;
    var r := states[|states| - 1];
    EveryRunSafe(size, states, |states| - 1);
    StepKeepsInv(r, t, false);
    more := states + [Step(r, t, false)];
    RunMore(size, states, Step(r, t, false));
  }

  lemma {:induction false} SoloMore<T(!new)>(size: nat, states: seq<Ring<T>>, t: nat, n: nat)
    returns (more: seq<Ring<T>>)
    requires Run(size, states) && t in states[|states| - 1].threads
    ensures Inv(states[|states| - 1]) && Run(size, more) && more[|more| - 1] == Solo(states[|states| - 1], t, n)
    decreases n
  {
    hide Inv, Act;
    EveryRunSafe(size, states, |states| - 1);
    more := states;
    if n > 0 {
      more := StepMore(size, states, t);
      more := SoloMore(size, more, t, n - 1);
    }
  }

  // One value enqueued by a thread running alone, from rest.
  lemma EnqueueMore<T(!new)>(size: nat, states: seq<Ring<T>>, t: nat, v: T) returns (more: seq<Ring<T>>)
    requires Run(size, states)
    requires var r := states[|states| - 1];
             && Quiescent(r) && CanCall(r, t, EnqLoadHead(v)) && HeadsOk(r.mem)
             && r.mem.size == size && |Contents(r.mem)| < size - 1
    ensures Run(size, more)
    ensures var r, r' := states[|states| - 1], more[|more| - 1];
            && Quiescent(r') && r'.threads == r.threads[t := Idle] && HeadsOk(r'.mem) && r'.mem.size == size
            && Contents(r'.mem) == Contents(r.mem) + [v] && r'.mem.dequeued == r.mem.dequeued
  {
    hide Inv, Index, Solo, Next;
    EveryRunSafe(size, states, |states| - 1);
    SoloEnqueue(states[|states| - 1], t, v);
    more := CallMore(size, states, t, EnqLoadHead(v));
    more := SoloMore(size, more, t, 7);
    EveryRunSafe(size, more, |more| - 1);
    SizeKept(size, more, |more| - 1);
    AtRest(more[|more| - 1]);
  }

  lemma {:induction false} SizeKept<T(!new)>(size: nat, states: seq<Ring<T>>, k: nat)
    requires Run(size, states) && k < |states|
    ensures states[k].mem.size == size
  {
    if k > 0 {
      SizeKept(size, states, k - 1);
      assert Next(states[k - 1], states[k]);
    }
  }

  // At rest nothing was claimed that was not delivered.
  lemma AllDelivered<T(!new)>(size: nat, states: seq<Ring<T>>)
    requires Run(size, states) && Quiescent(states[|states| - 1]) && states[|states| - 1].mem.dequeued == []
    ensures states[|states| - 1].mem.consHead == 0
  {
    hide Inv, Index;
    var r := states[|states| - 1];
    EveryRunSafe(size, states, |states| - 1);
    AtRest(r);
    assert r.mem.consHead > 0 ==> Delivered(r.mem.dequeued, 0);
  }

  // A producer that was overtaken between its loads answers full, though only one of three places is taken.
  lemma SpuriousFull<T(!new)>(v: T, w: T) returns (states: seq<Ring<T>>)
    ensures Run(4, states)
    ensures var r := states[|states| - 1];
            CanStep(r, 0) && Refuses(r, 0) && r.threads[0].EnqLoadSequence? && Quiescent(r) && HeadsOk(r.mem)
                && Contents(r.mem) == [w]
  {
    hide Inv, Index, Solo;
    states := [Initial<T>(4)];
    states := CallMore(4, states, 0, EnqLoadHead(v));
    states := StepMore(4, states, 0);
    states := StepMore(4, states, 0);
    var before := states[|states| - 1];
    assert before == Ring(Initial<T>(4).mem, map[0 := EnqLoadSequence(v, 0)]);
    states := EnqueueMore(4, states, 1, w);
    AllDelivered(4, states);
    EveryRunSafe(4, states, |states| - 1);
    AtRest(states[|states| - 1]);
  }

  // A consumer that was overtaken between its loads answers empty, though a value is there and nothing is in flight.
  lemma SpuriousEmpty<T(!new)>(v: T, w: T) returns (states: seq<Ring<T>>)
    ensures Run(4, states)
    ensures var r := states[|states| - 1];
            CanStep(r, 0) && Refuses(r, 0) && r.threads[0].DeqLoadSequence? && Quiescent(r) && HeadsOk(r.mem)
                && Contents(r.mem) == [w]
  {
    hide Inv, Index, Solo;
    states := [Initial<T>(4)];
    states := EnqueueMore(4, states, 1, v);
    states := EnqueueMore(4, states, 1, w);
    AllDelivered(4, states);
    states := CallMore(4, states, 0, DeqLoadHead);
    states := StepMore(4, states, 0);
    EveryRunSafe(4, states, |states| - 1);
    SoloDequeue(states[|states| - 1], 2);
    states := CallMore(4, states, 2, DeqLoadHead);
    states := SoloMore(4, states, 2, 6);
    EveryRunSafe(4, states, |states| - 1);
    OvertakenConsumer(states[|states| - 1]);
  }

  lemma OvertakenConsumer<T>(r: Ring<T>)
    requires Inv(r) && Quiescent(r) && 0 in r.threads && r.threads[0] == DeqLoadSequence(0) && |r.mem.dequeued| > 0
    ensures CanStep(r, 0) && Refuses(r, 0)
  {
    hide Index, SlotsOk, TailsOk, ThreadsOk, HeadsOk;
    EmptyMeans(r, 0);
    assert 0 !in r.mem.readers;
    assert r.mem.dequeued[0].0 < r.mem.consHead;
  }
}
