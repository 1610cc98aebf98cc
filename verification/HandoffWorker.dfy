// All handoff queues of one destination worker and the 64-bit bitmap of queues with pending work.
// A u64 bitmap is the set of its set bits.
module HandoffWorkers {
  import opened Common
  import opened SlotIndex
  import opened HandoffQueues

  const BITS: nat := 64

  function AllBits(): (r: set<nat>)
    ensures forall b :: b in r <==> 0 <= b < BITS
  {
    HandoffQueues.Run(0, BITS)
  }

  // queue_bit: queue 64 and above raise every bit.
  function QueueBits(i: nat): set<nat> {
    if i < BITS then {i} else AllBits()
  }

  datatype Worker = Worker(queues: seq<Queue>, pending: set<nat>, todo: seq<nat>, active: Option<nat>)

  // The queues a dequeue pass visits for the bitmap it has swapped out.
  function Worklist(pending: set<nat>, n: nat): seq<nat> {
    if pending == AllBits() then seq(n, i => i) else Ascending(pending, 0)
  }

  function Ascending(bits: set<nat>, from: nat): (r: seq<nat>)
    ensures forall b :: b in r <==> b in bits && from <= b < BITS
    ensures forall a, b :: 0 <= a < b < |r| ==> r[a] < r[b]
    decreases BITS - from
  {
    if from >= BITS then []
    else
      var rest := Ascending(bits, from + 1);
      assert forall a :: 0 <= a < |rest| ==> rest[a] in rest;
      if from in bits then [from] + rest else rest
  }

  datatype Event =
    | Producing(i: nat, e: HandoffQueues.Event)
    | Swap
    | Visit
    | Dequeue

  predicate Enabled(w: Worker, ev: Event) {
    match ev
    case Producing(i, e) => i < |w.queues| && !e.Arrive? && !e.Consume? && HandoffQueues.Enabled(w.queues[i], e)
    case Swap => w.todo == [] && w.active == None
    case Visit =>
      && w.todo != [] && w.active == None && w.todo[0] < |w.queues|
      && HandoffQueues.Enabled(w.queues[w.todo[0]], Arrive)
    case Dequeue =>
      w.active.Some? && w.active.value < |w.queues| && HandoffQueues.Enabled(w.queues[w.active.value], Consume)
  }

  // The producer's last access: fetch_or of the queue's bits.
  predicate Marks(q: Queue, e: HandoffQueues.Event) {
    e.Produce? && e.t in q.producers && q.producers[e.t].Mark?
  }

  function Apply(w: Worker, ev: Event): Worker
    requires Enabled(w, ev)
  {
    match ev
    case Producing(i, e) =>
      var q := w.queues[i];
      w.(queues := w.queues[i := HandoffQueues.Apply(q, e)],
         pending := if Marks(q, e) then w.pending + QueueBits(i) else w.pending)
    case Swap => w.(pending := {}, todo := Worklist(w.pending, |w.queues|))
    case Visit =>
      var i := w.todo[0];
      w.(queues := w.queues[i := HandoffQueues.Apply(w.queues[i], Arrive)], todo := w.todo[1..], active := Some(i))
    case Dequeue =>
      var i := w.active.value;
      var q := w.queues[i];
      var q' := HandoffQueues.Apply(q, Consume);
      w.(queues := w.queues[i := q'],
         pending := if q.mem.consumer.Rearm? then w.pending + QueueBits(i) else w.pending,
         active := if q'.mem.consumer.Away? then None else Some(i))
  }

  // ---- no work is left behind

  // The next slot of the queue is published and not yet taken.
  predicate Busy(q: Queue) {
    q.mem.Shaped() && q.mem.At(q.mem.Front()).words[0] != 0
  }

  // Some producer has published and not yet raised the queue's bits.
  ghost predicate AboutToMark(producers: map<nat, Producer>) {
    exists t :: t in producers && Marking(producers[t])
  }

  predicate Marking(pc: Producer) {
    pc.Mark? || (pc.Count? && pc.sent)
  }

  // The pass in progress will look again or raise the bits itself.
  predicate Attending(q: Queue) {
    match q.mem.consumer
    case Away => false
    case StoreHead(_, count) => count >= q.mem.limit
    case _ => true
  }

  ghost predicate Covered(w: Worker, i: nat)
    requires i < |w.queues|
  {
    || QueueBits(i) <= w.pending
    || AboutToMark(w.queues[i].producers)
    || i in w.todo
    || Attending(w.queues[i])
  }

  ghost predicate WorkerInv(w: Worker) {
    && (forall i :: 0 <= i < |w.queues| ==> Inv(w.queues[i]))
    && (forall i :: 0 <= i < |w.queues| ==> (w.queues[i].mem.consumer.Away? <==> w.active != Some(i)))
    && (forall i :: i in w.todo ==> i < |w.queues|) && (w.active.Some? ==> w.active.value < |w.queues|)
    && w.pending <= AllBits() && (w.pending == AllBits() || forall b :: b in w.pending ==> b < |w.queues|)
    && (forall i :: 0 <= i < |w.queues| && Busy(w.queues[i]) ==> Covered(w, i))
  }

  // Only the producer publishing at the front makes the first word there nonzero.
  lemma FrontWordKept(q: Queue, e: HandoffQueues.Event)
    requires Inv(q) && HandoffQueues.Enabled(q, e) && !e.Arrive? && !e.Consume?
    requires !(e.Produce? && q.producers[e.t].Publish?)
    ensures Busy(HandoffQueues.Apply(q, e)) <==> Busy(q)
  {
    hide Index, Chunks, Inv;
    if e.WriteWord? || e.WriteAux? {
      WriteSpares(q, e);
    } else {
      var m' := HandoffQueues.Apply(q, e).mem;
      assert m'.slots == q.mem.slots && m'.size == q.mem.size && m'.Front() == q.mem.Front() && m'.limit == q.mem.limit;
      assert m'.Shaped();
    }
  }

  lemma WriteSpares(q: Queue, e: HandoffQueues.Event)
    requires Inv(q) && HandoffQueues.Enabled(q, e) && (e.WriteWord? || e.WriteAux?)
    ensures Busy(HandoffQueues.Apply(q, e)) <==> Busy(q)
  {
    hide Index, Chunks, SlotsOk, ContentsOk, OwnersOk;
    var m, pc := q.mem, q.producers[e.t];
    assert ProducerOk(m, e.t, pc);
    if pc.start + e.k != m.Front() { Apart(m, pc.start + e.k, m.Front()); }
  }

  // A marking producer keeps marking until its fetch_or.
  lemma MarkerKept(q: Queue, e: HandoffQueues.Event)
    requires HandoffQueues.Enabled(q, e) && AboutToMark(q.producers) && !Marks(q, e)
    ensures AboutToMark(HandoffQueues.Apply(q, e).producers)
  {
    hide Index, Chunks;
    var t :| t in q.producers && Marking(q.producers[t]);
    var q' := HandoffQueues.Apply(q, e);
    assert t in q'.producers && Marking(q'.producers[t]);
  }

  lemma PublisherMarks(q: Queue, t: nat, miss: bool)
    requires HandoffQueues.Enabled(q, Produce(t, miss)) && q.producers[t].Publish?
    ensures AboutToMark(HandoffQueues.Apply(q, Produce(t, miss)).producers)
  {
    hide Index, Chunks;
    var q' := HandoffQueues.Apply(q, Produce(t, miss));
    assert t in q'.producers && Marking(q'.producers[t]);
  }

  // Whatever a producer does, pending work of its queue stays covered.
  lemma ProducingCovered(w: Worker, i: nat, e: HandoffQueues.Event)
    requires WorkerInv(w) && Enabled(w, Producing(i, e))
    requires Busy(HandoffQueues.Apply(w.queues[i], e))
    ensures Covered(Apply(w, Producing(i, e)), i)
  {
    hide Index, Chunks, Inv;
    var q := w.queues[i];
    if e.Produce? && q.producers[e.t].Publish? {
      PublisherMarks(q, e.t, e.miss);
    } else {
      FrontWordKept(q, e);
      assert Covered(w, i);
      if AboutToMark(q.producers) && !Marks(q, e) { MarkerKept(q, e); }
      ConsumerKept(q, e);
    }
  }

  lemma ConsumerKept(q: Queue, e: HandoffQueues.Event)
    requires HandoffQueues.Enabled(q, e) && !e.Arrive? && !e.Consume?
    ensures var q' := HandoffQueues.Apply(q, e); q'.mem.consumer == q.mem.consumer && q'.mem.limit == q.mem.limit
  {
    hide Index, Chunks;
  }

  lemma ProducingKeeps(w: Worker, i: nat, e: HandoffQueues.Event)
    requires WorkerInv(w) && Enabled(w, Producing(i, e))
    ensures WorkerInv(Apply(w, Producing(i, e)))
  {
    hide Index, Chunks, Inv, HandoffQueues.Apply;
    var w' := Apply(w, Producing(i, e));
    EventKeepsInv(w.queues[i], e);
    ConsumerKept(w.queues[i], e);
    forall j | 0 <= j < |w'.queues| && Busy(w'.queues[j]) ensures Covered(w', j) {
      if j == i { ProducingCovered(w, i, e); } else { assert Covered(w, j); }
    }
  }

  // The list of a pass names every queue whose bits are all raised, and only queues that exist: every queue when all
  // bits are raised, and otherwise exactly those whose own bit is, in ascending order without repetition.
  lemma WorklistNames(pending: set<nat>, n: nat)
    requires pending <= AllBits() && (pending == AllBits() || forall b :: b in pending ==> b < n)
    ensures forall j :: j in Worklist(pending, n) ==> j < n
    ensures forall j :: 0 <= j < n && QueueBits(j) <= pending ==> j in Worklist(pending, n)
    ensures pending == AllBits() ==> forall j :: 0 <= j < n ==> j in Worklist(pending, n)
    ensures pending != AllBits() ==> forall j :: j in Worklist(pending, n) <==> j in pending
    ensures forall a, b :: 0 <= a < b < |Worklist(pending, n)| ==> Worklist(pending, n)[a] < Worklist(pending, n)[b]
  {
    hide AllBits, Ascending;
    if pending == AllBits() {
      var all := Worklist(pending, n);
      assert |all| == n && forall j :: 0 <= j < n ==> all[j] == j;
      forall j | 0 <= j < n ensures j in all {
        assert all[j] == j;
      }
    } else {
      assert forall j :: 0 <= j < n && QueueBits(j) <= pending ==> j < BITS && j in pending;
    }
  }

  // An event of queue i raises bit i alone, or every bit when i is beyond 63.
  lemma OwnBitsRaised(w: Worker, ev: Event, b: nat)
    requires Enabled(w, ev) && b in Apply(w, ev).pending && b !in w.pending
    ensures b < 64 && (ev.Producing? || ev.Dequeue?)
    ensures var i := if ev.Producing? then ev.i else w.active.value; b == i || i >= 64
  {
    hide HandoffQueues.Apply;
  }

  // Swapping the bitmap out moves every queue it names onto the list of the pass.
  lemma SwapKeeps(w: Worker)
    requires WorkerInv(w) && Enabled(w, Swap)
    ensures WorkerInv(Apply(w, Swap))
  {
    hide Inv, Busy, Worklist, AllBits, QueueBits, AboutToMark, Attending;
    var w' := Apply(w, Swap);
    WorklistNames(w.pending, |w.queues|);
    forall j | 0 <= j < |w'.queues| && Busy(w'.queues[j]) ensures Covered(w', j) {
      assert Covered(w, j);
    }
  }

  lemma VisitKeeps(w: Worker)
    requires WorkerInv(w) && Enabled(w, Visit)
    ensures WorkerInv(Apply(w, Visit))
  {
    hide Index, Inv, AllBits, QueueBits, AboutToMark, Busy;
    var w', i := Apply(w, Visit), w.todo[0];
    EventKeepsInv(w.queues[i], Arrive);
    assert w'.queues[i].mem.consumer.Check?;
    assert forall j :: j in w.todo[1..] ==> j in w.todo;
    forall j | 0 <= j < |w'.queues| && Busy(w'.queues[j]) ensures Covered(w', j) {
      if j != i {
        assert Covered(w, j);
        assert j in w.todo ==> j in w.todo[1..];
      }
    }
  }

  // The pass leaves a queue only with nothing published at the front, or with the queue's bits raised again,
  // or while a producer is about to raise them.
  lemma DequeueCovered(q: Queue)
    requires Inv(q) && !q.mem.consumer.Away? && Busy(HandoffQueues.Apply(q, Consume))
    ensures var q' := HandoffQueues.Apply(q, Consume);
            q.mem.consumer.Rearm? || Attending(q') || (Busy(q) && !Attending(q))
  {
    hide Index, SlotsOk, ContentsOk, ProducersOk, OwnersOk;
    var m, m' := q.mem, ConsumerStep(q.mem);
    assert m.consumer.StoreHead? ==> m'.Front() == m.Front() && m'.At(m.Front()) == m.At(m.Front());
    assert m.consumer.Check? ==> m'.Front() == m.Front() && m'.At(m.Front()) == m.At(m.Front());
  }

  lemma DequeueKeeps(w: Worker)
    requires WorkerInv(w) && Enabled(w, Dequeue)
    ensures WorkerInv(Apply(w, Dequeue))
  {
    hide Index, Inv, HandoffQueues.Apply, Busy;
    var w', i := Apply(w, Dequeue), w.active.value;
    EventKeepsInv(w.queues[i], Consume);
    SameProducers(w.queues[i]);
    forall j | 0 <= j < |w'.queues| && Busy(w'.queues[j]) ensures Covered(w', j) {
      if j == i { DequeueCovered(w.queues[i]); }
      if j != i || Busy(w.queues[i]) { assert Covered(w, j); }
    }
  }

  lemma SameProducers(q: Queue)
    requires HandoffQueues.Enabled(q, Consume)
    ensures HandoffQueues.Apply(q, Consume).producers == q.producers
  {
  }

  lemma EventKeepsWorkerInv(w: Worker, ev: Event)
    requires WorkerInv(w) && Enabled(w, ev)
    ensures WorkerInv(Apply(w, ev))
  {
    hide WorkerInv, HandoffQueues.Apply;
    match ev
    case Producing(i, e) => ProducingKeeps(w, i, e);
    case Swap => SwapKeeps(w);
    case Visit => VisitKeeps(w);
    case Dequeue => DequeueKeeps(w);
  }

  // ---- every run

  ghost predicate Run(states: seq<Worker>, events: seq<Event>) {
    && |states| == |events| + 1
    && (forall k :: 0 <= k < |events| ==> Enabled(states[k], events[k]) && states[k + 1] == Apply(states[k], events[k]))
  }

  lemma {:induction false} EveryRunSafe(states: seq<Worker>, events: seq<Event>, sizes: seq<(nat, nat)>, k: nat)
    requires Run(states, events) && k < |states|
    requires forall i :: 0 <= i < |sizes| ==> sizes[i].0 > 0 && sizes[i].1 > 0
    requires states[0]
             == Worker(seq(|sizes|, i requires 0 <= i < |sizes| => Initial(sizes[i].0, sizes[i].1)), {}, [], None)
    ensures WorkerInv(states[k])
  {
    if k == 0 {
      forall i | 0 <= i < |sizes| ensures Inv(states[0].queues[i]) && !Busy(states[0].queues[i]) {
        InitialInv(sizes[i].0, sizes[i].1);
      }
    } else {
      EveryRunSafe(states, events, sizes, k - 1);
      EventKeepsWorkerInv(states[k - 1], events[k - 1]);
    }
  }

  // The worker always has exactly one thing to do: begin a pass, visit the next queue of it, or go on with a queue.
  lemma WorkerCanGo(w: Worker)
    requires WorkerInv(w)
    ensures Enabled(w, Swap) <==> w.todo == [] && w.active == None
    ensures Enabled(w, Visit) <==> w.todo != [] && w.active == None
    ensures Enabled(w, Dequeue) <==> w.active.Some?
  {
    hide Index, SlotsOk, OrderOk, ContentsOk, ProducersOk, OwnersOk, PassOk, Busy;
    if w.todo != [] && w.active == None { assert w.todo[0] in w.todo; }
  }

  // No stranded work: outside a pass, a published slot at the head of a queue has its bits raised or a producer
  // about to raise them, whatever the number of the queue.
  lemma NothingStranded(w: Worker, i: nat)
    requires WorkerInv(w) && w.todo == [] && w.active == None && i < |w.queues|
    requires var m := w.queues[i].mem; m.Shaped() && m.At(m.head).words[0] != 0
    ensures QueueBits(i) <= w.pending || AboutToMark(w.queues[i].producers)
  {
    assert Busy(w.queues[i]);
    assert Covered(w, i);
  }
}
