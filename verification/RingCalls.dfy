// Whole calls of the lock-free ring: how a call of enqueue or dequeue can end, and what it has done by then,
// over every run of any number of threads.
module RingCalls {
  import opened Common
  import opened LockFreeRing
  import opened SlotIndex

  // The program counter lies inside the call.
  ghost predicate Inside<T>(call: Pc<T>, pc: Pc<T>) {
    match pc
    case Idle => false
    case EnqLoadHead(v) => call == EnqLoadHead(v)
    case EnqLoadTail(v, _) => call == EnqLoadHead(v)
    case EnqLoadSequence(v, _) => call == EnqLoadHead(v)
    case EnqSwap(v, _) => call == EnqLoadHead(v)
    case EnqWrite(v, _) => call == EnqLoadHead(v)
    case EnqAddTail(v, _) => call == EnqLoadHead(v)
    case EnqPublish(v, _) => call == EnqLoadHead(v)
    case _ => call == DeqLoadHead
  }

  // ---- one step

  // A call ends by releasing its slot or by refusing, and in no other way.
  lemma EndsOnlyBy<T>(r: Ring<T>, t: nat, miss: bool)
    requires Inv(r) && t in r.threads && r.threads[t] != Idle
    ensures CanStep(r, t)
    ensures Step(r, t, miss).threads[t] == Idle <==>
            r.threads[t].EnqPublish? || r.threads[t].DeqPublish? || Refuses(r, t)
    ensures Refuses(r, t) ==> Step(r, t, miss).mem == r.mem
  {
    hide Inv, Index;
    StepKeepsInv(r, t, miss);
  }

  // A swap that fails changes nothing but sends its caller, with the same value, back to the load of the head. Unless
  // it fails spuriously, another thread has succeeded since that load.
  lemma FailedSwap<T>(r: Ring<T>, t: nat, miss: bool)
    requires Inv(r) && t in r.threads
    ensures CanStep(r, t)
    ensures r.threads[t].EnqSwap? && (miss || r.mem.prodHead != r.threads[t].head) ==>
              Step(r, t, miss) == r.(threads := r.threads[t := EnqLoadHead(r.threads[t].v)])
    ensures r.threads[t].DeqSwap? && (miss || r.mem.consHead != r.threads[t].head) ==>
              Step(r, t, miss) == r.(threads := r.threads[t := DeqLoadHead])
    ensures r.threads[t].EnqSwap? && r.mem.prodHead != r.threads[t].head ==> r.threads[t].head < r.mem.prodHead
    ensures r.threads[t].DeqSwap? && r.mem.consHead != r.threads[t].head ==> r.threads[t].head < r.mem.consHead
  {
    hide HoldersOk, SlotsOk, HeadsOk, TailsOk, DeliveriesOk, Index;
    assert ThreadOk(r.mem, t, r.threads[t]);
    StepKeepsInv(r, t, miss);
  }

  // The step is one of thread t, and it reserves a position.
  ghost predicate Appends<T>(r: Ring<T>, r': Ring<T>, t: nat) {
    t in r.threads && t in r'.threads && r'.threads[t] != r.threads[t] && r'.mem.enqueued != r.mem.enqueued
  }

  // The step is one of thread t, and it delivers a value.
  ghost predicate Delivers<T>(r: Ring<T>, r': Ring<T>, t: nat) {
    t in r.threads && t in r'.threads && r'.threads[t] != r.threads[t] && r'.mem.dequeued != r.mem.dequeued
  }

  // What one step of anyone does to a thread inside a call.
  ghost predicate MovesOn<T>(r: Ring<T>, r': Ring<T>, t: nat)
    requires t in r.threads && t in r'.threads
  {
    var pc, pc' := r.threads[t], r'.threads[t];
    && (pc.Produces() && pc'.Produces() ==> pc.pos == pc'.pos)
    && (pc.Produces() ==> pc'.Produces() || pc' == Idle)
    && (Appends(r, r', t) <==> !pc.Produces() && pc'.Produces())
    && (Appends(r, r', t) ==> pc'.pos == |r.mem.enqueued| && r'.mem.enqueued == r.mem.enqueued + [pc'.v])
  }

  ghost predicate TakesOn<T>(r: Ring<T>, r': Ring<T>, t: nat)
    requires t in r.threads && t in r'.threads
  {
    var pc, pc' := r.threads[t], r'.threads[t];
    && (pc.Holding() && pc'.Holding() ==> pc.pos == pc'.pos && pc.v == pc'.v)
    && (pc.Holding() ==> pc'.Holding() || pc' == Idle)
    && (Delivers(r, r', t) <==> !pc.Holding() && pc'.Holding())
    && (Delivers(r, r', t) ==> r'.mem.dequeued == r.mem.dequeued + [(pc'.pos, pc'.v)])
  }

  lemma OneStep<T(!new)>(r: Ring<T>, r': Ring<T>, t: nat, call: Pc<T>)
    requires Inv(r) && Next(r, r') && t in r.threads && Inside(call, r.threads[t])
    ensures t in r'.threads && (r'.threads[t] == Idle || Inside(call, r'.threads[t]))
    ensures MovesOn(r, r', t) && TakesOn(r, r', t)
    ensures r'.threads[t] == Idle ==> CanStep(r, t) && r' == Step(r, t, false)
  {
    hide ThreadsOk, HoldersOk, SlotsOk, TailsOk, DeliveriesOk, Index;
    if u, pc :| CanCall(r, u, pc) && r' == r.(threads := r.threads[u := pc]) {
      assert u != t;
    } else {
      var u, miss :| CanStep(r, u) && r' == Step(r, u, miss);
      if u == t { OwnStep(r, t, miss, call); }
    }
  }

  lemma OwnStep<T>(r: Ring<T>, t: nat, miss: bool, call: Pc<T>)
    requires Inv(r) && CanStep(r, t) && Inside(call, r.threads[t])
    ensures var r' := Step(r, t, miss);
            && (r'.threads[t] == Idle || Inside(call, r'.threads[t]))
            && MovesOn(r, r', t) && TakesOn(r, r', t)
            && (r'.threads[t] == Idle ==> r' == Step(r, t, false))
  {
    hide ThreadsOk, HoldersOk, SlotsOk, TailsOk, DeliveriesOk, Index;
  }

  // ---- whole calls

  // Event i of the run calls, and thread t is inside that call in all states up to k.
  ghost predicate Running<T>(states: seq<Ring<T>>, t: nat, call: Pc<T>, i: nat, k: nat) {
    && i < k < |states| && CanCall(states[i], t, call)
    && states[i + 1] == states[i].(threads := states[i].threads[t := call])
    && forall l :: i < l <= k ==> Busy(states[l], t)
  }

  ghost predicate Busy<T>(r: Ring<T>, t: nat) {
    t in r.threads && r.threads[t] != Idle
  }

  ghost predicate AppendsAt<T>(states: seq<Ring<T>>, t: nat, l: nat) {
    l + 1 < |states| && Appends(states[l], states[l + 1], t)
  }

  ghost predicate DeliversAt<T>(states: seq<Ring<T>>, t: nat, l: nat) {
    l + 1 < |states| && Delivers(states[l], states[l + 1], t)
  }

  // Inside the call of event i and before event k, thread t has appended nothing.
  ghost predicate NoAppend<T>(states: seq<Ring<T>>, t: nat, i: nat, k: nat) {
    forall l :: i < l < k ==> !AppendsAt(states, t, l)
  }

  // It has appended exactly once, v at position p.
  ghost predicate OneAppend<T>(states: seq<Ring<T>>, t: nat, i: nat, k: nat, v: T, p: nat) {
    exists l ::
      && i < l < k && AppendsAt(states, t, l)
      && p == |states[l].mem.enqueued| && states[l + 1].mem.enqueued == states[l].mem.enqueued + [v]
      && NoAppend(states, t, i, l) && NoAppend(states, t, l, k)
  }

  ghost predicate NoDelivery<T>(states: seq<Ring<T>>, t: nat, i: nat, k: nat) {
    forall l :: i < l < k ==> !DeliversAt(states, t, l)
  }

  // It has delivered exactly once, the value v of position p.
  ghost predicate OneDelivery<T>(states: seq<Ring<T>>, t: nat, i: nat, k: nat, p: nat, v: T) {
    exists l ::
      && i < l < k && DeliversAt(states, t, l)
      && states[l + 1].mem.dequeued == states[l].mem.dequeued + [(p, v)]
      && NoDelivery(states, t, i, l) && NoDelivery(states, t, l, k)
  }

  ghost predicate Done<T>(states: seq<Ring<T>>, t: nat, i: nat, k: nat)
    requires k < |states| && t in states[k].threads
  {
    var pc := states[k].threads[t];
    && (if pc.Produces() then OneAppend(states, t, i, k, pc.v, pc.pos) else NoAppend(states, t, i, k))
    && (if pc.Holding() then OneDelivery(states, t, i, k, pc.pos, pc.v) else NoDelivery(states, t, i, k))
  }

  lemma DoneOneMore<T>(states: seq<Ring<T>>, t: nat, i: nat, k: nat)
    requires i < k < |states| - 1 && Busy(states[k], t) && Busy(states[k + 1], t)
    requires MovesOn(states[k], states[k + 1], t) && TakesOn(states[k], states[k + 1], t) && Done(states, t, i, k)
    requires exists call :: Inside(call, states[k].threads[t]) && Inside(call, states[k + 1].threads[t])
    ensures Done(states, t, i, k + 1)
  {
    hide Appends, Delivers;
  }

  lemma DoneAtFirst<T>(states: seq<Ring<T>>, t: nat, call: Pc<T>, i: nat)
    requires Running(states, t, call, i, i + 1)
    ensures Inside(call, states[i + 1].threads[t]) && Done(states, t, i, i + 1)
  {
  }

  // Inside a call a thread has appended, respectively delivered, exactly when its counter says so.
  lemma {:induction false} InCall<T(!new)>(size: nat, states: seq<Ring<T>>, t: nat, call: Pc<T>, i: nat, k: nat)
    requires Run(size, states) && Running(states, t, call, i, k)
    ensures t in states[k].threads && Inside(call, states[k].threads[t]) && Done(states, t, i, k)
    decreases k
  {
    hide Next, Done, MovesOn, TakesOn, Inv;
    if k > i + 1 {
      InCall(size, states, t, call, i, k - 1);
      EveryRunSafe(size, states, k - 1);
      assert Busy(states[k], t);
      OneStep(states[k - 1], states[k], t, call);
      DoneOneMore(states, t, i, k - 1);
    } else {
      DoneAtFirst(states, t, call, i);
    }
  }

  // Thread t is inside the call up to state j - 1 and back in state j.
  ghost predicate Ends<T>(states: seq<Ring<T>>, t: nat, call: Pc<T>, i: nat, j: nat) {
    && 0 < j < |states| && Running(states, t, call, i, j - 1)
    && t in states[j].threads && states[j].threads[t] == Idle
  }

  // The step that ends a call is the thread's own; it appends and delivers nothing.
  lemma LastStep<T(!new)>(r: Ring<T>, r': Ring<T>, t: nat, call: Pc<T>)
    requires Inv(r) && Next(r, r') && t in r.threads && Inside(call, r.threads[t])
    requires t in r'.threads && r'.threads[t] == Idle
    ensures CanStep(r, t) && r' == Step(r, t, false) && !Appends(r, r', t) && !Delivers(r, r', t)
    ensures r.threads[t].EnqPublish? || r.threads[t].DeqPublish? || Refuses(r, t)
  {
    hide Next, Inv, Index, Step, Refuses;
    OneStep(r, r', t, call);
    EndsOnlyBy(r, t, false);
  }

  lemma DoneAtLast<T>(states: seq<Ring<T>>, t: nat, i: nat, j: nat)
    requires i + 1 < j < |states| && t in states[j - 1].threads && Done(states, t, i, j - 1)
    requires !Appends(states[j - 1], states[j], t) && !Delivers(states[j - 1], states[j], t)
    ensures var pc := states[j - 1].threads[t];
            && (if pc.Produces() then OneAppend(states, t, i, j, pc.v, pc.pos) else NoAppend(states, t, i, j))
            && (if pc.Holding() then OneDelivery(states, t, i, j, pc.pos, pc.v) else NoDelivery(states, t, i, j))
  {
    hide Appends, Delivers;
  }

  lemma PublishedLast<T>(r: Ring<T>, t: nat, v: T)
    requires Inv(r) && t in r.threads && r.threads[t].EnqPublish? && r.threads[t].v == v
    ensures CanStep(r, t) && Step(r, t, false).mem.Shaped()
    ensures PublishedAt(Step(r, t, false).mem, r.threads[t].pos, v)
  {
    hide SlotsOk, HoldersOk, TailsOk, DeliveriesOk, Index;
    assert ThreadOk(r.mem, t, r.threads[t]);
  }

  lemma ReleasedLast<T>(r: Ring<T>, t: nat)
    requires Inv(r) && t in r.threads && r.threads[t].DeqPublish?
    ensures CanStep(r, t)
    ensures var m, pc := Step(r, t, false).mem, r.threads[t];
            && m.Shaped() && pc.pos < |m.enqueued| && m.enqueued[pc.pos] == pc.v
            && m.Sequence(pc.pos) == pc.pos + r.mem.size
  {
    hide SlotsOk, HoldersOk, TailsOk, DeliveriesOk, Index;
    assert ThreadOk(r.mem, t, r.threads[t]);
  }

  // A call of enqueue with v ends refused, having appended nothing, or it has appended v exactly once, and
  // the slot of that position holds v and is published.
  lemma EnqueueEnds<T(!new)>(size: nat, states: seq<Ring<T>>, t: nat, v: T, i: nat, j: nat)
    requires Run(size, states) && Ends(states, t, EnqLoadHead(v), i, j)
    ensures CanStep(states[j - 1], t) && states[j].mem.Shaped()
    ensures if Refuses(states[j - 1], t)
            then NoAppend(states, t, i, j)
            else exists p :: OneAppend(states, t, i, j, v, p) && PublishedAt(states[j].mem, p, v)
  {
    hide Next, MovesOn, TakesOn, Inv, OneAppend, NoAppend, Index;
    InCall(size, states, t, EnqLoadHead(v), i, j - 1);
    EveryRunSafe(size, states, j - 1);
    LastStep(states[j - 1], states[j], t, EnqLoadHead(v));
    DoneAtLast(states, t, i, j);
    if !Refuses(states[j - 1], t) { PublishedLast(states[j - 1], t, v); }
  }

  // A call of dequeue ends refused, having delivered nothing, or it has delivered exactly once: the value it
  // returns is the one enqueued at that position, and the slot is free for the next lap.
  lemma DequeueEnds<T(!new)>(size: nat, states: seq<Ring<T>>, t: nat, i: nat, j: nat)
    requires Run(size, states) && Ends(states, t, DeqLoadHead, i, j)
    ensures CanStep(states[j - 1], t) && states[j].mem.Shaped()
    ensures if Refuses(states[j - 1], t)
            then NoDelivery(states, t, i, j)
            else states[j - 1].threads[t].DeqPublish?
                 && var v, p := states[j - 1].threads[t].v, states[j - 1].threads[t].pos;
                    && OneDelivery(states, t, i, j, p, v) && p < |states[j].mem.enqueued|
                    && states[j].mem.enqueued[p] == v && states[j].mem.Sequence(p) == p + size
  {
    hide Next, MovesOn, TakesOn, Inv, OneDelivery, NoDelivery, Index;
    InCall(size, states, t, DeqLoadHead, i, j - 1);
    EveryRunSafe(size, states, j - 1);
    SizeKept(size, states, j - 1);
    LastStep(states[j - 1], states[j], t, DeqLoadHead);
    DoneAtLast(states, t, i, j);
    if !Refuses(states[j - 1], t) { ReleasedLast(states[j - 1], t); }
  }

  ghost predicate PublishedAt<T>(m: Memory<T>, p: nat, v: T)
    requires m.Shaped()
  {
    p < |m.enqueued| && m.enqueued[p] == v && m.Sequence(p) == p + 1 && m.Value(p) == Some(v)
  }

  // ---- nothing happens outside a call

  lemma {:induction false} InsideACall<T(!new)>(size: nat, states: seq<Ring<T>>, t: nat, k: nat)
    returns (call: Pc<T>, i: nat)
    requires Run(size, states) && k < |states| && Busy(states[k], t)
    ensures Running(states, t, call, i, k)
    decreases k
  {
    hide Inv, Act;
    assert k > 0 && Next(states[k - 1], states[k]);
    if Busy(states[k - 1], t) {
      call, i := InsideACall(size, states, t, k - 1);
    } else {
      i := k - 1;
      call := CallOf(states[k - 1], states[k], t);
    }
  }

  lemma CallOf<T(!new)>(r: Ring<T>, r': Ring<T>, t: nat) returns (call: Pc<T>)
    requires Next(r, r') && !Busy(r, t) && Busy(r', t)
    ensures CanCall(r, t, call) && r' == r.(threads := r.threads[t := call])
  {
    hide Index;
    var u, pc :| CanCall(r, u, pc) && r' == r.(threads := r.threads[u := pc]);
    call := pc;
  }

  // Whatever is appended was offered by a call of enqueue that is running.
  lemma EveryAppendIsACall<T(!new)>(size: nat, states: seq<Ring<T>>, k: nat) returns (t: nat, v: T, i: nat)
    requires Run(size, states) && k + 1 < |states| && states[k + 1].mem.enqueued != states[k].mem.enqueued
    ensures Running(states, t, EnqLoadHead(v), i, k) && AppendsAt(states, t, k)
    ensures states[k + 1].mem.enqueued == states[k].mem.enqueued + [v]
  {
    hide Inv, Running, Index;
    assert Next(states[k], states[k + 1]);
    var u, miss :| CanStep(states[k], u) && states[k + 1] == Step(states[k], u, miss);
    t, v := u, states[k].threads[u].v;
    var call;
    call, i := InsideACall(size, states, t, k);
    InCall(size, states, t, call, i, k);
  }

  // Whatever is delivered goes to a call of dequeue that is running.
  lemma EveryDeliveryIsACall<T(!new)>(size: nat, states: seq<Ring<T>>, k: nat) returns (t: nat, i: nat)
    requires Run(size, states) && k + 1 < |states| && states[k + 1].mem.dequeued != states[k].mem.dequeued
    ensures Running(states, t, DeqLoadHead, i, k) && DeliversAt(states, t, k)
  {
    hide Inv, Running, Index;
    assert Next(states[k], states[k + 1]);
    var u, miss :| CanStep(states[k], u) && states[k + 1] == Step(states[k], u, miss);
    t := u;
    var call;
    call, i := InsideACall(size, states, t, k);
    InCall(size, states, t, call, i, k);
  }
}
