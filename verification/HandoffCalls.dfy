// Whole calls of a handoff queue: how much of an offered batch is accepted over every interleaving, and what one
// dequeue pass takes.
module HandoffCalls {
  import opened Common
  import opened HandoffQueues
  import opened SlotIndex

  // ---- nobody is stuck

  // In every reachable state a producer can take its next step, or fill any word of its run but the first one.
  lemma ProducerCanGo(q: Queue, t: nat, miss: bool)
    requires Inv(q) && t in q.producers
    ensures !q.producers[t].Copy? ==> Enabled(q, Produce(t, miss))
    ensures q.producers[t].Copy? ==>
              forall k, j, value ::
                0 <= k < q.producers[t].n && 0 <= j < 32 ==>
                  && Enabled(q, WriteAux(t, k, j, value))
                  && (k > 0 || j > 0 ==> Enabled(q, WriteWord(t, k, j, value)))
  {
    hide Inv;
    assert q.mem.Shaped() by { IsShaped(q); }
    if !q.producers[t].Copy? { ProduceKeepsInv(q, t, miss); }
  }

  lemma IsShaped(q: Queue)
    requires Inv(q)
    ensures q.mem.Shaped()
  {
  }

  // The consumer can begin a pass exactly when it is not in one, and otherwise go on with it.
  lemma ConsumerCanGo(q: Queue)
    requires Inv(q)
    ensures Enabled(q, Arrive) <==> q.mem.consumer == Away
    ensures Enabled(q, Consume) <==> q.mem.consumer != Away
  {
  }

  // ---- one dequeue pass

  // A pass takes the next slot exactly when it is below its limit and the slot belongs to a finished batch.
  lemma PassGoesOn(q: Queue)
    requires Inv(q) && q.mem.consumer.Check?
    ensures var m := q.mem;
            Apply(q, Consume).mem.consumer.Read? <==>
            m.consumer.count < m.limit && m.consumer.h < m.tail && m.consumer.h !in m.owner
  {
    hide Index, ContentsOk, ProducersOk, PassOk;
    var m := q.mem;
    if m.At(m.consumer.h).words[0] != 0 { FrontPublished(q); }
  }

  // A pass that ends has moved the head over exactly the items it counts, fewer than its limit and one slot more,
  // and it raises the queue's bits again exactly when it has reached its limit.
  lemma PassStores(q: Queue)
    requires Inv(q) && q.mem.consumer.StoreHead?
    ensures var m, m', count := q.mem, Apply(q, Consume).mem, q.mem.consumer.count;
            && m'.head == m.consumer.h && m.head <= m'.head <= |m.stream|
            && count == |Flatten(m.stream[m.head..m'.head])| < m.limit + 32
            && (if count >= m.limit then m'.consumer == Rearm(m'.head) else m'.consumer == Away)
  {
    hide Index, ContentsOk, ProducersOk, SlotsOk;
  }

  // ---- one event of a producer

  // A producer reads a head not beyond its tail: it gives up exactly when the ring is full, and then its tail is
  // still the current one.
  lemma RefusedIffFull(q: Queue, t: nat, miss: bool)
    requires Inv(q) && t in q.producers && q.producers[t].LoadHead? && q.mem.head <= q.producers[t].tail
    ensures Enabled(q, Produce(t, miss)) && t in Apply(q, Produce(t, miss)).producers
    ensures var m, batch, tail := q.mem, q.producers[t].batch, q.producers[t].tail;
            var pc := Apply(q, Produce(t, miss)).producers[t];
            && tail <= m.tail
            && (if tail - m.head == m.size
                then pc == Count(|batch|, false) && m.tail == tail
                else pc.SwapTail? && pc.batch == batch && pc.tail == tail && pc.seen == m.head)
  {
    hide Index, SlotsOk, ContentsOk, PassOk;
    assert ProducerOk(q.mem, t, q.producers[t]);
    GrantOk(q.mem, q.producers[t].tail, |q.producers[t].batch|);
  }

  // A swap that succeeds reserves all the slots the batch needs or all that were free, and accepts what fits.
  lemma SwapAccepts(q: Queue, t: nat)
    requires Inv(q) && t in q.producers && q.producers[t].SwapTail? && q.producers[t].tail == q.mem.tail
    ensures Enabled(q, Produce(t, false)) && t in Apply(q, Produce(t, false)).producers
    ensures var m, pc, q' := q.mem, q.producers[t], Apply(q, Produce(t, false));
            var room := m.size - (m.tail - pc.seen);
            var n, a := Least((|pc.batch| + 31) / 32, room), Least(|pc.batch|, 32 * room);
            && pc.seen <= m.head && pc.seen <= m.tail && 0 < n && 0 < a <= |pc.batch|
            && q'.mem.tail == m.tail + n && m.stream <= q'.mem.stream
            && Flatten(q'.mem.stream[|m.stream|..]) == pc.batch[..a]
            && q'.producers[t] == Copy(pc.batch[..a], m.tail, n, |pc.batch| - a)
            && q'.mem.dropped == m.dropped
  {
    hide Index, SlotsOk, ContentsOk, PassOk, Chunks, Flatten;
    var m, pc := q.mem, q.producers[t];
    assert ProducerOk(m, t, pc);
    AcceptedBound(|pc.batch|, pc.n);
    AcceptedIs(|pc.batch|, m.size - (m.tail - pc.seen), pc.n);
    ChunksFacts(pc.batch[..Accepted(|pc.batch|, pc.n)]);
    var q' := Apply(q, Produce(t, false));
    assert q'.mem.stream[|m.stream|..] == Chunks(pc.batch[..Accepted(|pc.batch|, pc.n)]);
  }

  lemma AcceptedIs(items: nat, room: int, n: nat)
    requires 0 < n == Least((items + 31) / 32, room)
    ensures Accepted(items, n) == Least(items, 32 * room)
  {
  }

  // ---- whole calls

  ghost predicate History(states: seq<Queue>, events: seq<Event>) {
    && |states| == |events| + 1 && Inv(states[0])
    && forall k :: 0 <= k < |events| ==> Enabled(states[k], events[k]) && states[k + 1] == Apply(states[k], events[k])
  }

  lemma {:induction false} InvAlong(states: seq<Queue>, events: seq<Event>, k: nat)
    requires History(states, events) && k < |states|
    ensures Inv(states[k])
  {
    hide Inv, Apply, Enabled;
    if k > 0 {
      InvAlong(states, events, k - 1);
      EventKeepsInv(states[k - 1], events[k - 1]);
    }
  }

  lemma {:induction false} TailGrows(states: seq<Queue>, events: seq<Event>, l: nat, k: nat)
    requires History(states, events) && l <= k < |states|
    ensures states[l].mem.tail <= states[k].mem.tail && states[l].mem.size == states[k].mem.size
    decreases k
  {
    hide Inv, Apply, Enabled;
    if l < k {
      TailGrows(states, events, l, k - 1);
      TailKept(states[k - 1], events[k - 1]);
    }
  }

  lemma TailKept(q: Queue, e: Event)
    requires Enabled(q, e)
    ensures q.mem.tail <= Apply(q, e).mem.tail && q.mem.size == Apply(q, e).mem.size
  {
    hide Index, Chunks;
  }

  // Event i offers the batch, and producer t is inside that call in all states up to k.
  ghost predicate Offering(states: seq<Queue>, events: seq<Event>, t: nat, batch: seq<Item>, i: nat, k: nat) {
    && i < k < |states| == |events| + 1 && events[i] == Offer(t, batch)
    && forall l :: i < l <= k ==> t in states[l].producers
  }

  predicate Steps(e: Event, t: nat) {
    e.Produce? && e.t == t
  }

  // The items the steps of producer t between event i and state k have added to the stream.
  ghost function Sent(states: seq<Queue>, events: seq<Event>, t: nat, i: nat, k: nat): seq<Item>
    requires k < |states| == |events| + 1
    decreases k
  {
    if k <= i + 1 then []
    else Sent(states, events, t, i, k - 1)
         + if Steps(events[k - 1], t) then Added(states[k - 1].mem, states[k].mem) else []
  }

  ghost function Added(m: Memory, m': Memory): seq<Item> {
    if m.stream <= m'.stream then Flatten(m'.stream[|m.stream|..]) else []
  }

  // How many items those steps have counted as dropped.
  ghost function Lost(states: seq<Queue>, events: seq<Event>, t: nat, i: nat, k: nat): int
    requires k < |states| == |events| + 1
    decreases k
  {
    if k <= i + 1 then 0
    else Lost(states, events, t, i, k - 1)
         + if Steps(events[k - 1], t) then states[k].mem.dropped - states[k - 1].mem.dropped else 0
  }

  // In some state of the call the free slots had room for exactly `a` of the items.
  ghost predicate RoomFor(states: seq<Queue>, i: nat, k: nat, items: nat, a: nat) {
    exists l :: i < l < k < |states| && Fitting(states[l].mem, items) == a
  }

  function Fitting(m: Memory, items: nat): int {
    Least(items, 32 * (m.size - (m.tail - m.head)))
  }

  // In some state of the call the head was `seen` and the tail at least `tail`.
  ghost predicate Saw(states: seq<Queue>, i: nat, k: nat, tail: nat, seen: nat) {
    exists l :: i < l < k < |states| && states[l].mem.head == seen && tail <= states[l].mem.tail
  }

  // The producer's counter tells what its call has done so far.
  ghost predicate SoFar(states: seq<Queue>, batch: seq<Item>, i: nat, k: nat, pc: Producer, sent: seq<Item>,
                        lost: int) {
    match pc
    case LoadTail(b) => b == batch && sent == [] && lost == 0
    case LoadHead(b, _) => b == batch && sent == [] && lost == 0
    case SwapTail(b, tail, seen, _) => b == batch && sent == [] && lost == 0 && Saw(states, i, k, tail, seen)
    case Copy(b, _, _, rejected) => b == sent && lost == 0 && Split(states, batch, i, k, sent, rejected)
    case Publish(b, _, _, rejected) => b == sent && lost == 0 && Split(states, batch, i, k, sent, rejected)
    case Count(rejected, _) => lost == 0 && Split(states, batch, i, k, sent, rejected)
    case Mark => Split(states, batch, i, k, sent, lost)
  }

  // The batch is cut in two where the room ended: the first part is sent, the rest rejected.
  ghost predicate Split(states: seq<Queue>, batch: seq<Item>, i: nat, k: nat, sent: seq<Item>, rejected: int) {
    sent <= batch && |sent| + rejected == |batch| && RoomFor(states, i, k, |batch|, |sent|)
  }

  lemma SoFarLater(states: seq<Queue>, batch: seq<Item>, i: nat, k: nat, pc: Producer, sent: seq<Item>, lost: int)
    requires k + 1 < |states| && SoFar(states, batch, i, k, pc, sent, lost)
    ensures SoFar(states, batch, i, k + 1, pc, sent, lost)
  {
    hide Fitting;
    forall a: nat | RoomFor(states, i, k, |batch|, a) ensures RoomFor(states, i, k + 1, |batch|, a) {
      var l :| i < l < k < |states| && Fitting(states[l].mem, |batch|) == a;
    }
    forall tail: nat, seen: nat | Saw(states, i, k, tail, seen) ensures Saw(states, i, k + 1, tail, seen) {
      var l :| i < l < k < |states| && states[l].mem.head == seen && tail <= states[l].mem.tail;
    }
  }

  // An event that is not a step of producer t at most lets it go from copying to publishing.
  lemma NotItsStep(q: Queue, e: Event, t: nat)
    requires Enabled(q, e) && t in q.producers && !Steps(e, t)
    ensures var q' := Apply(q, e);
            && t in q'.producers
            && var pc := q.producers[t];
               q'.producers[t] == pc
               || (pc.Copy? && q'.producers[t] == Publish(pc.batch, pc.start, pc.n, pc.rejected))
  {
    hide Index, Chunks;
  }

  // The steps of a producer other than the successful swap add nothing; only the count drops.
  lemma ItsStep(q: Queue, t: nat, miss: bool)
    requires Enabled(q, Produce(t, miss)) && Inv(q)
    requires !(q.producers[t].SwapTail? && !miss && q.producers[t].tail == q.mem.tail)
    ensures var q' := Apply(q, Produce(t, miss));
            && Added(q.mem, q'.mem) == []
            && q'.mem.dropped - q.mem.dropped == (if q.producers[t].Count? then q.producers[t].rejected else 0)
  {
    hide Index, Chunks, Inv;
    assert q.mem.stream[|q.mem.stream|..] == [];
  }

  lemma SoFarSwap(states: seq<Queue>, events: seq<Event>, t: nat, batch: seq<Item>, i: nat, k: nat)
    requires History(states, events) && Offering(states, events, t, batch, i, k) && k < |events|
    requires SoFar(states, batch, i, k, states[k].producers[t], Sent(states, events, t, i, k),
                   Lost(states, events, t, i, k))
    requires states[k].producers[t].SwapTail? && states[k].producers[t].tail == states[k].mem.tail
    requires events[k] == Produce(t, false)
    ensures t in states[k + 1].producers
    ensures SoFar(states, batch, i, k + 1, states[k + 1].producers[t], Sent(states, events, t, i, k + 1),
                  Lost(states, events, t, i, k + 1))
  {
    hide Inv, Apply, Enabled, Flatten;
    InvAlong(states, events, k);
    SwapAccepts(states[k], t);
    var tail, seen := states[k].producers[t].tail, states[k].producers[t].seen;
    var l :| i < l < k < |states| && states[l].mem.head == seen && tail <= states[l].mem.tail;
    TailGrows(states, events, l, k);
    assert Fitting(states[l].mem, |batch|) == |Added(states[k].mem, states[k + 1].mem)|;
  }

  // Where a step other than the successful swap leads.
  lemma ItsNext(states: seq<Queue>, batch: seq<Item>, t: nat, i: nat, k: nat, miss: bool, sent: seq<Item>, lost: int)
    requires i < k < |states| - 1 && Inv(states[k]) && t in states[k].producers
    requires Enabled(states[k], Produce(t, miss)) && states[k + 1] == Apply(states[k], Produce(t, miss))
    requires var pc := states[k].producers[t];
             && SoFar(states, batch, i, k, pc, sent, lost)
             && !(pc.SwapTail? && !miss && pc.tail == states[k].mem.tail)
    ensures var pc, pcs := states[k].producers[t], states[k + 1].producers;
            var lost' := lost + if pc.Count? then pc.rejected else 0;
            if t in pcs then SoFar(states, batch, i, k + 1, pcs[t], sent, lost')
            else Split(states, batch, i, k + 1, sent, lost')
  {
    hide Index, Chunks, Split, Saw, Inv, Grant;
    var pc := states[k].producers[t];
    SoFarLater(states, batch, i, k, pc, sent, lost);
    if pc.LoadHead? && states[k].mem.head <= pc.tail {
      RefusedIffFull(states[k], t, miss);
      Snapshot(states, batch, i, k, pc.tail);
    } else if pc.Count? {
      assert Split(states, batch, i, k + 1, sent, pc.rejected);
    }
  }

  lemma Snapshot(states: seq<Queue>, batch: seq<Item>, i: nat, k: nat, tail: nat)
    requires i < k < |states| - 1 && tail <= states[k].mem.tail
    ensures Saw(states, i, k + 1, tail, states[k].mem.head)
    ensures var m := states[k].mem; m.tail - m.head == m.size ==> Split(states, batch, i, k + 1, [], |batch|)
  {
    assert var m := states[k].mem; m.tail - m.head == m.size ==> Fitting(m, |batch|) == 0;
  }

  // Inside a call the counter tells what was sent and what was dropped.
  lemma {:induction false} InOffer(states: seq<Queue>, events: seq<Event>, t: nat, batch: seq<Item>, i: nat, k: nat)
    requires History(states, events) && Offering(states, events, t, batch, i, k)
    ensures SoFar(states, batch, i, k, states[k].producers[t], Sent(states, events, t, i, k),
                  Lost(states, events, t, i, k))
    decreases k
  {
    hide Inv, Enabled, Split, Saw, Added;
    if k == i + 1 {
      assert states[k] == Apply(states[i], Offer(t, batch));
    } else {
      InOffer(states, events, t, batch, i, k - 1);
      OneMoreEvent(states, events, t, batch, i, k - 1);
    }
  }

  lemma OneMoreEvent(states: seq<Queue>, events: seq<Event>, t: nat, batch: seq<Item>, i: nat, k: nat)
    requires History(states, events) && Offering(states, events, t, batch, i, k) && k < |events|
    requires SoFar(states, batch, i, k, states[k].producers[t], Sent(states, events, t, i, k),
                   Lost(states, events, t, i, k))
    ensures var pcs, sent, lost :=
                states[k + 1].producers, Sent(states, events, t, i, k + 1), Lost(states, events, t, i, k + 1);
            if t in pcs then SoFar(states, batch, i, k + 1, pcs[t], sent, lost)
            else Split(states, batch, i, k + 1, sent, lost)
  {
    hide Inv, Apply, Enabled, Split, Saw, Added;
    var q, e, pc := states[k], events[k], states[k].producers[t];
    var sent, lost := Sent(states, events, t, i, k), Lost(states, events, t, i, k);
    InvAlong(states, events, k);
    assert sent + [] == sent;
    if !Steps(e, t) {
      NotItsStep(q, e, t);
      SoFarLater(states, batch, i, k, pc, sent, lost);
    } else if pc.SwapTail? && !e.miss && pc.tail == q.mem.tail {
      SoFarSwap(states, events, t, batch, i, k);
    } else {
      ItsStep(q, t, e.miss);
      ItsNext(states, batch, t, i, k, e.miss, sent, lost);
    }
  }

  // A call that has returned has sent the part of its batch that fitted into the free slots of one state of the
  // call, cut at a slot, and has counted the rest as dropped. So it sends nothing only if the ring was full then.
  lemma OfferAccepts(states: seq<Queue>, events: seq<Event>, t: nat, batch: seq<Item>, i: nat, j: nat)
    requires History(states, events) && i + 1 < j < |states|
    requires Offering(states, events, t, batch, i, j - 1) && t !in states[j].producers
    ensures var sent, lost := Sent(states, events, t, i, j), Lost(states, events, t, i, j);
            && sent <= batch && |sent| + lost == |batch|
            && exists l :: i < l < j && var m := states[l].mem;
                 && m.head <= m.tail <= m.head + m.size
                 && |sent| == Least(|batch|, 32 * (m.size - (m.tail - m.head)))
  {
    hide Inv, Apply, Enabled, Added;
    InOffer(states, events, t, batch, i, j - 1);
    OneMoreEvent(states, events, t, batch, i, j - 1);
    var sent := Sent(states, events, t, i, j);
    var l :| i < l < j < |states| && Fitting(states[l].mem, |batch|) == |sent|;
    InvAlong(states, events, l);
    InOrder(states[l]);
  }

  lemma InOrder(q: Queue)
    requires Inv(q)
    ensures q.mem.head <= q.mem.tail <= q.mem.head + q.mem.size
  {
  }

  // ---- an undisturbed call

  lemma FirstLoad(q: Queue, t: nat, batch: seq<Item>) returns (q1: Queue, q2: Queue)
    requires Inv(q) && Enabled(q, Offer(t, batch))
    ensures q1 == Apply(q, Offer(t, batch)) && Enabled(q1, Produce(t, false)) && q2 == Apply(q1, Produce(t, false))
    ensures Inv(q2) && q2 == Queue(q.mem, q.producers[t := LoadHead(batch, q.mem.tail)])
  {
    hide Inv, Index, Chunks;
    q1 := Apply(q, Offer(t, batch));
    EventKeepsInv(q, Offer(t, batch));
    ProduceKeepsInv(q1, t, false);
    q2 := Apply(q1, Produce(t, false));
  }

  lemma SecondLoad(q: Queue, t: nat, batch: seq<Item>) returns (q': Queue)
    requires Inv(q) && t in q.producers && q.producers[t] == LoadHead(batch, q.mem.tail)
    ensures Enabled(q, Produce(t, false)) && q' == Apply(q, Produce(t, false)) && Inv(q')
    ensures Enabled(q', Produce(t, false)) && t in q'.producers
    ensures q'.producers == q.producers[t := q'.producers[t]] && q'.mem.stream == q.mem.stream
    ensures if q.mem.tail - q.mem.head == q.mem.size
            then q'.producers[t] == Count(|batch|, false) && q'.mem.dropped == q.mem.dropped
            else q'.mem == q.mem && q'.producers[t].SwapTail? && q'.producers[t].batch == batch
                 && q'.producers[t].tail == q.mem.tail && q'.producers[t].seen == q.mem.head
  {
    hide Inv, Index, Chunks;
    InOrder(q);
    RefusedIffFull(q, t, false);
    ProduceKeepsInv(q, t, false);
    q' := Apply(q, Produce(t, false));
    ProduceKeepsInv(q', t, false);
  }

  // Four events of one producer: it is refused with a full ring, and otherwise has its run reserved.
  lemma Undisturbed(q: Queue, t: nat, batch: seq<Item>) returns (q1: Queue, q2: Queue, q3: Queue)
    requires Inv(q) && Enabled(q, Offer(t, batch))
    ensures q1 == Apply(q, Offer(t, batch))
    ensures Enabled(q1, Produce(t, false)) && q2 == Apply(q1, Produce(t, false))
    ensures Enabled(q2, Produce(t, false)) && q3 == Apply(q2, Produce(t, false)) && Enabled(q3, Produce(t, false))
    ensures var m, room := q.mem, q.mem.size - (q.mem.tail - q.mem.head);
            var n, a := Least((|batch| + 31) / 32, room), Least(|batch|, 32 * room);
            var q4 := Apply(q3, Produce(t, false));
            if room == 0 then
              && q3.producers == q.producers[t := Count(|batch|, false)]
              && q4.mem.stream == m.stream && q4.mem.dropped == m.dropped + |batch|
            else
              && 0 < n && 0 < a <= |batch| && t in q4.producers
              && q4.producers[t] == Copy(batch[..a], m.tail, n, |batch| - a)
              && q4.mem.tail == m.tail + n && Flatten(q4.mem.stream) == Flatten(m.stream) + batch[..a]
  {
    hide Inv, Index, Chunks, Flatten, Enabled;
    q1, q2 := FirstLoad(q, t, batch);
    q3 := SecondLoad(q2, t, batch);
    if q.mem.tail - q.mem.head != q.mem.size {
      hide Apply;
      SwapAccepts(q3, t);
      var q4 := Apply(q3, Produce(t, false));
      FlattenAppend(q.mem.stream, q4.mem.stream[|q.mem.stream|..]);
      assert q4.mem.stream == q.mem.stream + q4.mem.stream[|q.mem.stream|..];
    }
  }
}
