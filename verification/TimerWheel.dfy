// The hierarchical timer wheel: one, two or three rings, an optional overflow list, cascades,
// and the circular lists inside the entry vector.
module TimerWheels {
  import opened Arithmetic
  import opened Common
  import opened TimerArena
  import opened TimerRuns
  import opened WheelArithmetic

  datatype StartError = ZeroInterval | IntervalOutOfRange

  // Entries, lists, free list and the abstract timers agree. `loose` timers are off every list.
  ghost predicate Shape<T>(g: Geometry, es: seq<Entry<T>>, free: seq<nat>, lists: seq<seq<nat>>, home: map<nat, nat>,
                           timers: map<nat, Timer<T>>, loose: set<nat>) {
    && Linked(es, g.Heads(), lists, home)
    && timers.Keys == home.Keys + loose && home.Keys !! loose
    && (forall e :: e in timers ==> g.Heads() <= e < |es| && Carries(es[e], timers[e]))
    && (forall e :: 0 <= e < |es| && es[e].live ==> e in timers)
    && Distinct(free)
    && (forall e :: e in free <==> g.Heads() <= e < |es| && !es[e].live)
  }

  ghost predicate Carries<T>(entry: Entry<T>, timer: Timer<T>) {
    entry.live && entry.payload == Some(timer.payload) && entry.expiration == timer.expiration
  }

  // Every listed timer waits where it will be met at its due tick.
  ghost predicate Sound<T>(g: Geometry, tick: nat, es: seq<Entry<T>>, home: map<nat, nat>,
                           timers: map<nat, Timer<T>>, stage: nat)
    requires g.Valid()
  {
    forall e :: e in home ==> e < |es| && e in timers && Waits(g, tick, es[e], home[e], timers[e], stage)
  }

  ghost predicate Waits<T>(g: Geometry, tick: nat, entry: Entry<T>, home: nat, timer: Timer<T>, stage: nat)
    requires g.Valid()
  {
    && Placed(g, tick, timer.due, home, entry.fastOffset, entry.slowOffset, stage)
    && (home == g.Rings() ==> timer.due == timer.expiration)
  }

  function Payloads<T>(timers: map<nat, Timer<T>>, hs: seq<nat>): seq<T>
    requires forall h :: h in hs ==> h in timers
  {
    seq(|hs|, i requires 0 <= i < |hs| => timers[hs[i]].payload)
  }

  // Exactly the timers in `fired`, all due at `tick`, left the wheel, and their payloads were appended in that order.
  ghost predicate Fires<T>(before: map<nat, Timer<T>>, after: map<nat, Timer<T>>, out: seq<T>, out': seq<T>,
                           fired: seq<nat>, tick: nat) {
    && Distinct(fired)
    && (forall h :: h in fired ==> h in before && before[h].due == tick)
    && after == before - Elements(fired)
    && out' == out + Payloads(before, fired)
  }

  // Everything due by `tick` has fired, in the order of the due ticks.
  ghost predicate FiredUpTo<T>(before: map<nat, Timer<T>>, after: map<nat, Timer<T>>, out: seq<T>, out': seq<T>,
                               fired: seq<nat>, tick: nat) {
    && Distinct(fired)
    && (forall h :: h in fired <==> h in before && before[h].due <= tick)
    && (forall i, j :: 0 <= i < j < |fired| ==> before[fired[i]].due <= before[fired[j]].due)
    && after == before - Elements(fired)
    && out' == out + Payloads(before, fired)
  }

  lemma FiredOneMoreTick<T>(a: map<nat, Timer<T>>, b: map<nat, Timer<T>>, c: map<nat, Timer<T>>, out: seq<T>,
                            out': seq<T>, out'': seq<T>, f: seq<nat>, f': seq<nat>, tick: nat)
    requires FiredUpTo(a, b, out, out', f, tick) && Fires(b, c, out', out'', f', tick + 1)
    requires forall h :: h in b && b[h].due == tick + 1 ==> h in f'
    ensures FiredUpTo(a, c, out, out'', f + f', tick + 1)
    ensures |out''| == |out| + |f + f'|
    ensures forall h :: h in f + f' ==> h in a
    ensures forall h :: h in f' ==> a[h].due == tick + 1
  {
    assert Elements(f + f') == Elements(f) + Elements(f');
    assert forall h :: h in f' ==> h in b && h !in Elements(f) && a[h].due == tick + 1;
    assert forall h :: h in b <==> h in a && h !in f;
    assert Payloads(a, f + f') == Payloads(a, f) + Payloads(b, f');
  }

  lemma FiredNothingYet<T>(timers: map<nat, Timer<T>>, out: seq<T>, tick: nat)
    requires forall h :: h in timers ==> timers[h].due > tick
    ensures FiredUpTo(timers, timers, out, out, [], tick)
  {
    assert timers - Elements([]) == timers;
  }

  lemma FiresNothing<T>(timers: map<nat, Timer<T>>, out: seq<T>, tick: nat)
    ensures Fires(timers, timers, out, out, [], tick)
  {
    assert timers - Elements([]) == timers;
  }

  lemma FiresOne<T>(a: map<nat, Timer<T>>, out: seq<T>, h: nat, tick: nat)
    requires h in a && a[h].due == tick
    ensures Fires(a, a - {h}, out, out + [a[h].payload], [h], tick)
  {
    assert Elements([h]) == {h};
    assert Payloads(a, [h]) == [a[h].payload];
  }

  lemma FiresBoth<T>(a: map<nat, Timer<T>>, b: map<nat, Timer<T>>, c: map<nat, Timer<T>>, out: seq<T>, out': seq<T>,
                     out'': seq<T>, f: seq<nat>, f': seq<nat>, tick: nat)
    requires Fires(a, b, out, out', f, tick) && Fires(b, c, out', out'', f', tick)
    ensures Fires(a, c, out, out'', f + f', tick)
  {
    assert Elements(f + f') == Elements(f) + Elements(f');
    assert forall i :: 0 <= i < |f| ==> f[i] in Elements(f);
    assert forall h :: h in f' ==> h in b && h !in Elements(f);
    assert Payloads(a, f + f') == Payloads(a, f) + Payloads(b, f');
  }

  // A stage ends when the list that came up in ring r has been emptied or nothing came up.
  lemma SettleAll<T>(g: Geometry, r: nat, tick: nat, es: seq<Entry<T>>, home: map<nat, nat>, timers: map<nat, Timer<T>>)
    requires g.Valid() && r <= 3 && Sound(g, tick, es, home, timers, r + 1)
    requires forall e :: e in home ==> home[e] != RipeHead(g, r, tick) || !Aligned(g.slots, r, tick)
    ensures Sound(g, tick, es, home, timers, r)
  {
    forall e | e in home ensures e < |es| && e in timers && Waits(g, tick, es[e], home[e], timers[e], r) {
      assert Waits(g, tick, es[e], home[e], timers[e], r + 1);
      Settled(g, r, tick, timers[e].due, home[e], es[e].fastOffset, es[e].slowOffset);
    }
  }

  // Moving links around changes nothing else.
  lemma Relinked<T>(g: Geometry, es: seq<Entry<T>>, es': seq<Entry<T>>, free: seq<nat>, lists: seq<seq<nat>>,
                    home: map<nat, nat>, timers: map<nat, Timer<T>>, loose: set<nat>,
                    lists': seq<seq<nat>>, home': map<nat, nat>, loose': set<nat>)
    requires Shape(g, es, free, lists, home, timers, loose)
    requires SameTimers(es, es') && Linked(es', g.Heads(), lists', home')
    requires home'.Keys + loose' == home.Keys + loose && home'.Keys !! loose'
    ensures Shape(g, es', free, lists', home', timers, loose')
  {
  }

  lemma ShapeTaken<T>(g: Geometry, es: seq<Entry<T>>, free: seq<nat>, lists: seq<seq<nat>>, home: map<nat, nat>,
                      timers: map<nat, Timer<T>>, head: nat)
    requires Shape(g, es, free, lists, home, timers, {}) && head < g.Heads()
    ensures head < |es| && head < |lists|
    ensures var rest := lists[head];
            && (forall e :: e in rest <==> e in home && home[e] == head)
            && Loose(Taken(es, head), head, rest) && es[head].next == First(head, rest)
            && Shape(g, Taken(es, head), free, lists[head := []], map e | e in home && home[e] != head :: home[e],
                     timers, Elements(rest))
  {
    TakeKeepsLinked(es, g.Heads(), lists, home, head);
    var home' := map e | e in home && home[e] != head :: home[e];
    assert home'.Keys + Elements(lists[head]) == home.Keys;
    Relinked(g, es, Taken(es, head), free, lists, home, timers, {}, lists[head := []], home', Elements(lists[head]));
  }

  function NewTimer<T>(payload: T, expiration: nat): Entry<T> {
    Entry(INVALID_INDEX, INVALID_INDEX, Some(payload), true, 0, 0, expiration)
  }

  function FreedEntry<T>(entry: Entry<T>): Entry<T> {
    entry.(live := false, next := INVALID_INDEX, prev := INVALID_INDEX, payload := None)
  }

  // Every slot past the heads is either a timer or on the free list.
  lemma SlotsAddUp<T>(g: Geometry, es: seq<Entry<T>>, free: seq<nat>, lists: seq<seq<nat>>, home: map<nat, nat>,
                      timers: map<nat, Timer<T>>, loose: set<nat>)
    requires Shape(g, es, free, lists, home, timers, loose)
    ensures |timers| + |free| == |es| - g.Heads()
  {
    RangeCount(g.Heads(), |es|);
    assert timers.Keys + Elements(free) == Range(g.Heads(), |es|);
    assert |timers.Keys + Elements(free)| == |timers.Keys| + |Elements(free)|;
    DistinctSize(free);
  }

  lemma SlotTaken<T>(g: Geometry, es: seq<Entry<T>>, free: seq<nat>, lists: seq<seq<nat>>, home: map<nat, nat>,
                     timers: map<nat, Timer<T>>, loose: set<nat>, slot: nat)
    requires Shape(g, es, free, lists, home, timers, loose) && slot in timers
    ensures |free| + g.Heads() < |es|
  {
    SlotsAddUp(g, es, free, lists, home, timers, loose);
    assert slot in timers.Keys;
  }

  ghost function Range(lo: nat, hi: nat): set<nat>
    decreases hi
  {
    if hi <= lo then {} else Range(lo, hi - 1) + {hi - 1}
  }

  lemma {:induction false} RangeCount(lo: nat, hi: nat)
    requires lo <= hi
    ensures forall e :: e in Range(lo, hi) <==> lo <= e < hi
    ensures |Range(lo, hi)| == hi - lo
    decreases hi
  {
    if lo < hi { RangeCount(lo, hi - 1); }
  }

  lemma ShapeFreed<T>(g: Geometry, es: seq<Entry<T>>, free: seq<nat>, lists: seq<seq<nat>>, home: map<nat, nat>,
                      timers: map<nat, Timer<T>>, loose: set<nat>, slot: nat)
    requires Shape(g, es, free, lists, home, timers, loose) && slot in loose
    ensures slot < |es|
    ensures Shape(g, es[slot := FreedEntry(es[slot])], free + [slot], lists, home, timers - {slot}, loose - {slot})
  {
    LinkedFrame(es, es[slot := FreedEntry(es[slot])], g.Heads(), lists, home);
  }

  lemma ShapeReused<T>(g: Geometry, es: seq<Entry<T>>, free: seq<nat>, lists: seq<seq<nat>>, home: map<nat, nat>,
                       timers: map<nat, Timer<T>>, timer: Timer<T>)
    requires Shape(g, es, free, lists, home, timers, {}) && free != []
    ensures var slot := free[|free| - 1];
            && slot < |es| && slot !in timers
            && Shape(g, es[slot := NewTimer(timer.payload, timer.expiration)], free[..|free| - 1], lists, home,
                     timers[slot := timer], {slot})
  {
    var slot := free[|free| - 1];
    var free' := free[..|free| - 1];
    assert slot in free;
    assert free == free' + [slot];
    assert slot !in free' && Distinct(free');
    assert forall e :: e in free' <==> e in free && e != slot;
    LinkedFrame(es, es[slot := NewTimer(timer.payload, timer.expiration)], g.Heads(), lists, home);
  }

  lemma ShapeGrown<T>(g: Geometry, es: seq<Entry<T>>, free: seq<nat>, lists: seq<seq<nat>>, home: map<nat, nat>,
                      timers: map<nat, Timer<T>>, timer: Timer<T>)
    requires Shape(g, es, free, lists, home, timers, {})
    ensures |es| !in timers
    ensures Shape(g, es + [NewTimer(timer.payload, timer.expiration)], free, lists, home, timers[|es| := timer], {|es|})
  {
    LinkedFrame(es, es + [NewTimer(timer.payload, timer.expiration)], g.Heads(), lists, home);
  }

  // A timer off the lists is added where it waits correctly.
  lemma SoundAdd<T>(g: Geometry, tick: nat, es: seq<Entry<T>>, es': seq<Entry<T>>, home: map<nat, nat>,
                    timers: map<nat, Timer<T>>, stage: nat, slot: nat, head: nat)
    requires g.Valid() && Sound(g, tick, es, home, timers, stage) && SameTimers(es, es')
    requires slot < |es| && slot in timers && Waits(g, tick, es[slot], head, timers[slot], stage)
    ensures Sound(g, tick, es', home[slot := head], timers, stage)
  {
  }

  // Soundness looks only at the offsets of homed timers.
  lemma SoundFrame<T>(g: Geometry, tick: nat, es: seq<Entry<T>>, es': seq<Entry<T>>, home: map<nat, nat>,
                      home': map<nat, nat>,
                      timers: map<nat, Timer<T>>, timers': map<nat, Timer<T>>, stage: nat)
    requires g.Valid() && Sound(g, tick, es, home, timers, stage) && |es| <= |es'|
    requires forall e :: e in home' ==>
               e in home && home'[e] == home[e] && e in timers && e in timers' && timers'[e] == timers[e]
    requires forall e :: 0 <= e < |es| && e in home' ==>
               es'[e].fastOffset == es[e].fastOffset && es'[e].slowOffset == es[e].slowOffset
    ensures Sound(g, tick, es', home', timers', stage)
  {
    forall e | e in home' ensures e < |es'| && e in timers' && Waits(g, tick, es'[e], home'[e], timers'[e], stage) {
      assert Waits(g, tick, es[e], home[e], timers[e], stage);
    }
  }

  lemma ShapeOffsets<T>(g: Geometry, es: seq<Entry<T>>, free: seq<nat>, lists: seq<seq<nat>>, home: map<nat, nat>,
                        timers: map<nat, Timer<T>>, loose: set<nat>, slot: nat, fast: nat, slow: nat)
    requires Shape(g, es, free, lists, home, timers, loose) && slot in loose
    ensures slot < |es|
    ensures Shape(g, es[slot := es[slot].(fastOffset := fast, slowOffset := slow)], free, lists, home, timers, loose)
  {
    LinkedFrame(es, es[slot := es[slot].(fastOffset := fast, slowOffset := slow)], g.Heads(), lists, home);
  }

  // The timers of a list that has just come up in ring r remember their lower digits.
  ghost predicate CameUp<T>(g: Geometry, r: nat, tick: nat, es: seq<Entry<T>>, timers: map<nat, Timer<T>>,
                            rest: seq<nat>)
    requires g.Valid()
  {
    forall e :: e in rest ==>
      && e < |es| && e in timers && Quot(g.slots, r, timers[e].due) == Quot(g.slots, r, tick)
      && (r > 0 ==> es[e].fastOffset == Digit(g.slots, 0, timers[e].due))
      && (r > 1 ==> es[e].slowOffset == Digit(g.slots, 1, timers[e].due))
  }

  lemma CameUpFrame<T>(g: Geometry, r: nat, tick: nat, es: seq<Entry<T>>, es': seq<Entry<T>>, timers: map<nat,
                       Timer<T>>,
                       timers': map<nat, Timer<T>>, rest: seq<nat>, slot: nat)
    requires g.Valid() && rest != [] && CameUp(g, r, tick, es, timers, rest) && |es| == |es'|
    requires slot == rest[0] && slot !in rest[1..] && forall e :: e in timers && e != slot ==>
               e in timers' && timers'[e] == timers[e]
    requires forall e :: 0 <= e < |es| && e != slot ==>
               es'[e].fastOffset == es[e].fastOffset && es'[e].slowOffset == es[e].slowOffset
    ensures CameUp(g, r, tick, es', timers', rest[1..])
  {
    assert forall e :: e in rest[1..] ==> e in rest && e != slot;
  }

  // Taking the list that came up settles its ring.
  lemma TakenCameUp<T>(g: Geometry, r: nat, tick: nat, es: seq<Entry<T>>, es': seq<Entry<T>>, home: map<nat, nat>,
                       home': map<nat, nat>, timers: map<nat, Timer<T>>, head: nat, rest: seq<nat>)
    requires g.Valid() && r < g.wheels && Sound(g, tick, es, home, timers, r + 1) && SameTimers(es, es')
    requires head == RipeHead(g, r, tick) && forall e :: e in rest <==> e in home && home[e] == head
    requires home' == map e | e in home && home[e] != head :: home[e]
    ensures CameUp(g, r, tick, es', timers, rest)
    ensures Sound(g, tick, es', home', timers, r)
  {
    SoundFrame(g, tick, es, es', home, home', timers, timers, r + 1);
    SettleAll(g, r, tick, es', home', timers);
    forall e | e in rest
      ensures && e < |es'| && e in timers && Quot(g.slots, r, timers[e].due) == Quot(g.slots, r, tick)
              && (r > 0 ==> es'[e].fastOffset == Digit(g.slots, 0, timers[e].due))
              && (r > 1 ==> es'[e].slowOffset == Digit(g.slots, 1, timers[e].due))
    {
      assert Waits(g, tick, es[e], home[e], timers[e], r + 1);
      Ripe(g.slots, r, tick, timers[e].due, r + 1);
    }
  }

  // The timers of the overflow list when its horizon begins.
  ghost predicate Overflowed<T>(g: Geometry, tick: nat, timers: map<nat, Timer<T>>, rest: seq<nat>)
    requires g.Valid()
  {
    forall e :: e in rest ==>
      e in timers && timers[e].due == timers[e].expiration && Quot(g.slots, 3, timers[e].due) >= Quot(g.slots, 3, tick)
  }

  lemma TakenOverflow<T>(g: Geometry, tick: nat, es: seq<Entry<T>>, es': seq<Entry<T>>, home: map<nat, nat>,
                         home': map<nat, nat>, timers: map<nat, Timer<T>>, rest: seq<nat>)
    requires g.Valid() && g.Overflows() && Sound(g, tick, es, home, timers, 4) && SameTimers(es, es')
    requires forall e :: e in rest <==> e in home && home[e] == g.Rings()
    requires home' == map e | e in home && home[e] != g.Rings() :: home[e]
    ensures Overflowed(g, tick, timers, rest)
    ensures Sound(g, tick, es', home', timers, 3)
  {
    SoundFrame(g, tick, es, es', home, home', timers, timers, 4);
    SettleAll(g, 3, tick, es', home', timers);
    assert forall e :: e in rest ==> Waits(g, tick, es[e], home[e], timers[e], 4);
  }

  // Stage 4 holds right after the clock moved.
  lemma SoundTick<T>(g: Geometry, tick: nat, es: seq<Entry<T>>, home: map<nat, nat>, timers: map<nat, Timer<T>>)
    requires g.Valid() && Sound(g, tick, es, home, timers, 0)
    ensures Sound(g, tick + 1, es, home, timers, 4)
  {
    forall e | e in home ensures e < |es| && e in timers && Waits(g, tick + 1, es[e], home[e], timers[e], 4) {
      assert Waits(g, tick, es[e], home[e], timers[e], 0);
      TickKeepsPlaced(g, tick, timers[e].due, home[e], es[e].fastOffset, es[e].slowOffset);
    }
  }

  // Nothing came up in ring r: either it did not step or the wheel has no such ring.
  lemma NothingCameUp<T>(g: Geometry, r: nat, tick: nat, es: seq<Entry<T>>, home: map<nat, nat>, timers: map<nat,
                         Timer<T>>)
    requires g.Valid() && 1 <= r <= 3 && Sound(g, tick, es, home, timers, r + 1)
    requires !Aligned(g.slots, r, tick) || (if r < 3 then g.wheels <= r else !g.Overflows())
    ensures Sound(g, tick, es, home, timers, r)
  {
    forall e | e in home ensures home[e] != RipeHead(g, r, tick) || !Aligned(g.slots, r, tick) {
      assert Waits(g, tick, es[e], home[e], timers[e], r + 1);
    }
    SettleAll(g, r, tick, es, home, timers);
  }

  // Between ticks every timer on a list is still to come.
  lemma AllToCome<T>(g: Geometry, tick: nat, es: seq<Entry<T>>, home: map<nat, nat>, timers: map<nat, Timer<T>>)
    requires g.Valid() && Sound(g, tick, es, home, timers, 0)
    ensures forall e :: e in home ==> e in timers && timers[e].due > tick
  {
    forall e | e in home ensures e in timers && timers[e].due > tick {
      assert Waits(g, tick, es[e], home[e], timers[e], 0);
      var r := if home[e] < g.slots then 0 else if g.wheels > 1 && home[e] < 2 * g.slots then 1
               else if g.wheels > 2 && home[e] < 3 * g.slots then 2 else 3;
      if timers[e].due <= tick { QuotMono(g.slots, r, timers[e].due, tick); }
    }
  }

  // A walk that is back at its head has met everything.
  lemma NothingLeft<T>(g: Geometry, es: seq<Entry<T>>, free: seq<nat>, lists: seq<seq<nat>>, home: map<nat, nat>,
                       timers: map<nat, Timer<T>>, head: nat, rest: seq<nat>)
    requires Shape(g, es, free, lists, home, timers, Elements(rest)) && head < g.Heads() && First(head, rest) == head
    ensures Elements(rest) == {}
  {
    assert forall i :: 0 <= i < |rest| ==> rest[i] in Elements(rest);
    assert forall e :: e in Elements(rest) ==> e in timers;
  }

  class TimerWheel<T> {
    const g: Geometry
    const maxExpirations: nat
    var currentTick: nat
    var index: seq<nat>
    var slotHeads: seq<nat>
    var overflowHead: nat
    var entries: seq<Entry<T>>
    var free: seq<nat>
    var fastSlotBitmap: set<nat>
    var len: nat
    // The timers running, and where the lists keep them.
    ghost var timers: map<nat, Timer<T>>
    ghost var lists: seq<seq<nat>>
    ghost var home: map<nat, nat>

    // What the wheel looks like from outside.
    ghost function State(): Wheel<T>
      reads this
    {
      Wheel(currentTick, timers)
    }

    ghost predicate Valid()
      reads this
    {
      Mid({}, 0)
    }

    ghost predicate Mid(loose: set<nat>, stage: nat)
      reads this
    {
      && Fixed()
      && Shape(g, entries, free, lists, home, timers, loose)
      && len + |free| + g.Heads() == |entries|
      && InStep(g, index, currentTick)
      && Sound(g, currentTick, entries, home, timers, stage)
      && (g.fastBitmap ==> forall e :: e in home && home[e] < g.slots ==> home[e] in fastSlotBitmap)
    }

    ghost predicate Fixed()
      reads this`slotHeads, this`overflowHead
    {
      && g.Valid()
      && |slotHeads| == g.Rings()
      && (forall i :: 0 <= i < |slotHeads| ==> slotHeads[i] == i)
      && (g.overflow ==> overflowHead == g.Rings())
    }

    constructor (g: Geometry, maxExpirations: nat)
      requires g.Valid()
      ensures Valid() && this.g == g && this.maxExpirations == maxExpirations
      ensures timers == map[] && currentTick == 0 && free == [] && |entries| == g.Heads() && fresh(this)
    {
      this.g := g;
      this.maxExpirations := maxExpirations;
      currentTick := 0;
      index := [0, 0, 0];
      slotHeads := seq(g.Rings(), i => i);
      overflowHead := if g.overflow then g.Rings() else INVALID_INDEX;
      entries := seq(g.Heads(), (i: nat) => ListHead(i));
      free := [];
      fastSlotBitmap := {};
      len := 0;
      timers := map[];
      lists := seq(g.Heads(), i => []);
      home := map[];
      new;
      assert forall r :: 0 <= r < 3 ==> Digit(g.slots, r, 0) == 0 by {
        Quotient(0, g.slots, 0, 0);
      }
    }

    // ---- list operations

    method AddToList(head: nat, slot: nat, ghost loose: set<nat>, ghost back: nat, ghost rest: seq<nat>)
      requires Shape(g, entries, free, lists, home, timers, loose) && head < g.Heads() && slot in loose
      requires Loose(entries, back, rest) && slot !in rest && Elements(rest) <= loose
      modifies this`entries, this`lists, this`home
      ensures SameTimers(old(entries), entries)
      ensures home == old(home)[slot := head]
      ensures Shape(g, entries, free, lists, home, timers, loose - {slot})
      ensures Loose(entries, back, rest)
    {
      hide Linked, Loose;
      PushKeepsLinked(entries, g.Heads(), lists, home, head, slot);
      assert forall e :: e in rest ==> e in Elements(rest);
      LooseFrame(entries, Pushed(entries, head, slot), back, rest);
      Relinked(g, entries, Pushed(entries, head, slot), free, lists, home, timers, loose,
               lists[head := [slot] + lists[head]], home[slot := head], loose - {slot});
      entries := Pushed(entries, head, slot);
      lists := lists[head := [slot] + lists[head]];
      home := home[slot := head];
    }

    method Unlink(slot: nat)
      requires Shape(g, entries, free, lists, home, timers, {}) && slot in timers
      modifies this`entries, this`lists, this`home
      ensures SameTimers(old(entries), entries)
      ensures home == old(home) - {slot}
      ensures Shape(g, entries, free, lists, home, timers, {slot})
    {
      hide Linked;
      ghost var lists' := UnlinkKeepsLinked(entries, g.Heads(), lists, home, slot);
      Relinked(g, entries, Unlinked(entries, slot), free, lists, home, timers, {}, lists', home - {slot}, {slot});
      entries := Unlinked(entries, slot);
      lists := lists';
      home := home - {slot};
    }

    // Empties the list at `head`; what was on it hangs together through `next`.
    method TakeList(head: nat) returns (next: nat, ghost rest: seq<nat>)
      requires Shape(g, entries, free, lists, home, timers, {}) && head < g.Heads()
      modifies this`entries, this`lists, this`home
      ensures SameTimers(old(entries), entries)
      ensures home == map e | e in old(home) && old(home)[e] != head :: old(home)[e]
      ensures forall e :: e in rest <==> e in old(home) && old(home)[e] == head
      ensures Loose(entries, head, rest) && next == First(head, rest)
      ensures Shape(g, entries, free, lists, home, timers, Elements(rest))
    {
      hide Shape, Loose;
      ShapeTaken(g, entries, free, lists, home, timers, head);
      next := entries[head].next;
      rest := lists[head];
      entries := Taken(entries, head);
      lists := lists[head := []];
      home := map e | e in home && home[e] != head :: home[e];
    }

    // One step along a taken chain.
    method Detach(slot: nat, ghost head: nat, ghost rest: seq<nat>, ghost stage: nat) returns (next: nat)
      requires rest != [] && slot == rest[0] && Mid(Elements(rest), stage) && Loose(entries, head, rest)
      modifies this`entries
      ensures SameTimers(old(entries), entries) && Mid(Elements(rest), stage)
      ensures Loose(entries, head, rest[1..]) && next == First(head, rest[1..])
      ensures slot in Elements(rest) && slot in timers && slot < |entries| && slot !in rest[1..]
      ensures Elements(rest[1..]) == Elements(rest) - {slot} && Carries(entries[slot], timers[slot])
    {
      hide Waits, Linked;
      assert slot in Elements(rest);
      assert rest == [slot] + rest[1..];
      ghost var es := Detached(entries, slot);
      LinkedFrame(entries, es, g.Heads(), lists, home);
      LooseFrame(entries, es, head, rest[1..]);
      Relinked(g, entries, es, free, lists, home, timers, Elements(rest), lists, home, Elements(rest));
      SoundFrame(g, currentTick, entries, es, home, home, timers, timers, stage);
      next := entries[slot].next;
      entries := Detached(entries, slot);
    }

    method FreeTimer(slot: nat, ghost loose: set<nat>)
      requires Shape(g, entries, free, lists, home, timers, loose) && len + |free| + g.Heads() == |entries|
               && slot in loose
      modifies this`entries, this`free, this`timers, this`len
      ensures slot < |old(entries)| && entries == old(entries)[slot := FreedEntry(old(entries)[slot])]
      ensures timers == old(timers) - {slot} && len + |free| + g.Heads() == |entries| && free == old(free) + [slot]
      ensures Shape(g, entries, free, lists, home, timers, loose - {slot})
    {
      ShapeFreed(g, entries, free, lists, home, timers, loose, slot);
      SlotTaken(g, entries, free, lists, home, timers, loose, slot);
      entries := entries[slot := FreedEntry(entries[slot])];
      len := len - 1;
      free := free + [slot];
      timers := timers - {slot};
    }

    method AllocateTimer(payload: T, expiration: nat, ghost due: nat) returns (slot: nat)
      requires Shape(g, entries, free, lists, home, timers, {}) && len + |free| + g.Heads() == |entries|
      requires free == [] ==> |entries| <= U32_MAX
      modifies this`entries, this`free, this`timers, this`len
      ensures slot !in old(timers) && timers == old(timers)[slot := Timer(payload, expiration, due)]
      ensures len + |free| + g.Heads() == |entries|
      ensures |entries| == |old(entries)| + if old(free) == [] then 1 else 0
      ensures forall e :: 0 <= e < |old(entries)| && e != slot ==> entries[e] == old(entries[e])
      ensures Shape(g, entries, free, lists, home, timers, {slot})
    {
      hide Linked;
      ghost var timer := Timer(payload, expiration, due);
      if free != [] {
        ShapeReused(g, entries, free, lists, home, timers, timer);
        slot := free[|free| - 1];
        free := free[..|free| - 1];
        entries := entries[slot := NewTimer(payload, expiration)];
        timers := timers[slot := timer];
      } else {
        ShapeGrown(g, entries, free, lists, home, timers, timer);
        slot := |entries|;
        entries := entries + [NewTimer(payload, expiration)];
        timers := timers[slot := timer];
      }
      len := len + 1;
    }

    // ---- placing and expiring

    method Put(head: nat, slot: nat, ghost loose: set<nat>, ghost stage: nat, ghost back: nat, ghost rest: seq<nat>)
      requires Mid(loose, stage) && slot in loose && head < g.Heads()
      requires Loose(entries, back, rest) && slot !in rest && Elements(rest) <= loose
      requires slot < |entries| && slot in timers && Waits(g, currentTick, entries[slot], head, timers[slot], stage)
      requires g.fastBitmap && head < g.slots ==> head in fastSlotBitmap
      modifies this`entries, this`lists, this`home
      ensures Mid(loose - {slot}, stage) && home == old(home)[slot := head]
      ensures SameTimers(old(entries), entries) && Loose(entries, back, rest)
    {
      hide Shape, Sound, Loose, Waits;
      ghost var es := entries;
      ghost var home0 := home;
      AddToList(head, slot, loose, back, rest);
      SoundAdd(g, currentTick, es, entries, home0, timers, stage, slot, head);
    }

    method AddToFastSlot(fast: nat, slot: nat, ghost loose: set<nat>, ghost stage: nat, ghost back: nat,
                         ghost rest: seq<nat>)
      requires Mid(loose, stage) && slot in loose && fast < g.slots
      requires Loose(entries, back, rest) && slot !in rest && Elements(rest) <= loose
      requires slot < |entries| && slot in timers && Waits(g, currentTick, entries[slot], fast, timers[slot], stage)
      modifies this`entries, this`lists, this`home, this`fastSlotBitmap
      ensures Mid(loose - {slot}, stage) && home == old(home)[slot := fast]
      ensures SameTimers(old(entries), entries) && Loose(entries, back, rest)
    {
      if g.fastBitmap {
        fastSlotBitmap := fastSlotBitmap + {fast};
      }
      Put(slotHeads[fast], slot, loose, stage, back, rest);
    }

    method SetOffsets(slot: nat, fast: nat, slow: nat, ghost loose: set<nat>, ghost stage: nat, ghost back: nat,
                      ghost rest: seq<nat>)
      requires Mid(loose, stage) && slot in loose && Loose(entries, back, rest)
      modifies this`entries
      ensures Mid(loose, stage) && Loose(entries, back, rest)
      ensures slot < |entries| == |old(entries)|
              && entries == old(entries)[slot := old(entries)[slot].(fastOffset := fast, slowOffset := slow)]
    {
      hide Linked, Loose, Waits;
      ShapeOffsets(g, entries, free, lists, home, timers, loose, slot, fast, slow);
      ghost var es := entries[slot := entries[slot].(fastOffset := fast, slowOffset := slow)];
      SoundFrame(g, currentTick, entries, es, home, home, timers, timers, stage);
      LooseFrame(entries, es, back, rest);
      entries := entries[slot := entries[slot].(fastOffset := fast, slowOffset := slow)];
    }

    method PlaceTimerDirect(slot: nat, interval: nat, ghost loose: set<nat>, ghost stage: nat, ghost back: nat,
                            ghost rest: seq<nat>)
      returns (ghost head: nat)
      requires Mid(loose, stage) && slot in loose && slot in timers && slot < |entries|
      requires Loose(entries, back, rest) && slot !in rest && Elements(rest) <= loose
      requires var e := currentTick + interval;
               && HomeFor(g, currentTick, e) < g.Rings()
               && Placed(g, currentTick, timers[slot].due, HomeFor(g, currentTick, e),
                         Digit(g.slots, 0, e), Digit(g.slots, 1, e), stage)
      modifies this`entries, this`lists, this`home, this`fastSlotBitmap
      ensures Mid(loose - {slot}, stage) && Loose(entries, back, rest)
      ensures home == old(home)[slot := head] && head < g.Rings() && |entries| == |old(entries)|
    {
      hide Shape, Sound, Loose;
      OffsetsChooseHome(g, index, currentTick, interval);
      var (fast, slow, glacier) := TimerOffsets(g, index, interval);
      if g.wheels > 2 && glacier != index[2] {
        SetOffsets(slot, fast, slow, loose, stage, back, rest);
        head := slotHeads[2 * g.slots + glacier];
        Put(slotHeads[2 * g.slots + glacier], slot, loose, stage, back, rest);
      } else if g.wheels > 1 && slow != index[1] {
        SetOffsets(slot, fast, entries[slot].slowOffset, loose, stage, back, rest);
        head := slotHeads[g.slots + slow];
        Put(slotHeads[g.slots + slow], slot, loose, stage, back, rest);
      } else {
        head := fast;
        AddToFastSlot(fast, slot, loose, stage, back, rest);
      }
    }

    // Takes a loose timer out of the wheel.
    method Release(slot: nat, ghost loose: set<nat>, ghost stage: nat, ghost back: nat, ghost rest: seq<nat>)
      requires Mid(loose, stage) && slot in loose
      requires Loose(entries, back, rest) && slot !in rest
      modifies this`entries, this`free, this`timers, this`len
      ensures Mid(loose - {slot}, stage) && Loose(entries, back, rest)
      ensures timers == old(timers) - {slot} && free == old(free) + [slot]
      ensures |entries| == |old(entries)| && forall e :: 0 <= e < |entries| && e != slot ==>
                entries[e] == old(entries)[e]
    {
      hide Linked, Loose, Waits;
      ghost var es := entries;
      ghost var timers0 := timers;
      FreeTimer(slot, loose);
      LooseFrame(es, entries, back, rest);
      SoundFrame(g, currentTick, es, entries, home, home, timers0, timers, stage);
    }

    method ExpireTimer(slot: nat, expired: seq<T>, ghost loose: set<nat>, ghost stage: nat, ghost back: nat,
                       ghost rest: seq<nat>)
      returns (expired': seq<T>)
      requires Mid(loose, stage) && slot in loose && slot in timers && timers[slot].due == currentTick
      requires Loose(entries, back, rest) && slot !in rest
      modifies this`entries, this`free, this`timers, this`len
      ensures Mid(loose - {slot}, stage) && Loose(entries, back, rest)
      ensures timers == old(timers) - {slot}
      ensures |entries| == |old(entries)| && forall e :: 0 <= e < |entries| && e != slot ==>
                entries[e] == old(entries)[e]
      ensures Fires(old(timers), timers, expired, expired', [slot], currentTick)
    {
      FiresOne(timers, expired, slot, currentTick);
      expired' := expired + [entries[slot].payload.value];
      Release(slot, loose, stage, back, rest);
    }

    // ---- one tick

    method SlowStep(slot: nat, head: nat, ghost rest: seq<nat>, expired: seq<T>)
      returns (next: nat, expired': seq<T>, ghost f: seq<nat>)
      requires rest != [] && slot == rest[0] && g.Valid() && g.wheels > 1 && Aligned(g.slots, 1, currentTick)
      requires Mid(Elements(rest), 1) && Loose(entries, head, rest) && CameUp(g, 1, currentTick, entries, timers, rest)
      modifies this`entries, this`free, this`lists, this`home, this`timers, this`len, this`fastSlotBitmap
      ensures Mid(Elements(rest[1..]), 1) && Loose(entries, head, rest[1..]) && next == First(head, rest[1..])
      ensures CameUp(g, 1, currentTick, entries, timers, rest[1..])
      ensures Fires(old(timers), timers, expired, expired', f, currentTick) && |entries| == |old(entries)|
    {
      hide Shape, Sound, Loose, Fires;
      ghost var es := entries;
      next := Detach(slot, head, rest, 1);
      Cascade(g.slots, 1, currentTick, timers[slot].due, 1);
      var fast := entries[slot].fastOffset;
      if fast == index[0] {
        expired' := ExpireTimer(slot, expired, Elements(rest), 1, head, rest[1..]);
        f := [slot];
        CameUpFrame(g, 1, currentTick, es, entries, old(timers), timers, rest, slot);
      } else {
        AddToFastSlot(fast, slot, Elements(rest), 1, head, rest[1..]);
        expired', f := expired, [];
        FiresNothing(timers, expired, currentTick);
        CameUpFrame(g, 1, currentTick, es, entries, timers, timers, rest, slot);
      }
    }

    method CascadeSlow(expired: seq<T>) returns (expired': seq<T>, ghost fired: seq<nat>)
      requires Mid({}, 2) && g.wheels > 1 && Aligned(g.slots, 1, currentTick)
      modifies this`entries, this`free, this`lists, this`home, this`timers, this`len, this`fastSlotBitmap
      ensures Mid({}, 1) && Fires(old(timers), timers, expired, expired', fired, currentTick)
      ensures |entries| == |old(entries)|
    {
      hide Shape, Sound, Loose, CameUp, Fires;
      var head := slotHeads[g.slots + index[1]];
      ghost var es, home0 := entries, home;
      var next, rest := TakeList(head);
      assert head == RipeHead(g, 1, currentTick);
      TakenCameUp(g, 1, currentTick, es, entries, home0, home, timers, head, rest);
      expired', fired := expired, [];
      FiresNothing(timers, expired, currentTick);
      while next != head
        invariant Mid(Elements(rest), 1) && Loose(entries, head, rest) && next == First(head, rest)
        invariant CameUp(g, 1, currentTick, entries, timers, rest)
        invariant Fires(old(timers), timers, expired, expired', fired, currentTick) && |entries| == |old(entries)|
        decreases |rest|
      {
        ghost var timers0, out0, f := timers, expired', [];
        next, expired', f := SlowStep(next, head, rest, expired');
        FiresBoth(old(timers), timers0, timers, expired, out0, expired', fired, f, currentTick);
        fired, rest := fired + f, rest[1..];
      }
      NothingLeft(g, entries, free, lists, home, timers, head, rest);
    }

    method GlacierStep(slot: nat, head: nat, ghost rest: seq<nat>, expired: seq<T>)
      returns (next: nat, expired': seq<T>, ghost f: seq<nat>)
      requires rest != [] && slot == rest[0] && g.Valid() && g.wheels > 2 && Aligned(g.slots, 2, currentTick)
      requires Mid(Elements(rest), 2) && Loose(entries, head, rest) && CameUp(g, 2, currentTick, entries, timers, rest)
      modifies this`entries, this`free, this`lists, this`home, this`timers, this`len, this`fastSlotBitmap
      ensures Mid(Elements(rest[1..]), 2) && Loose(entries, head, rest[1..]) && next == First(head, rest[1..])
      ensures CameUp(g, 2, currentTick, entries, timers, rest[1..])
      ensures Fires(old(timers), timers, expired, expired', f, currentTick) && |entries| == |old(entries)|
    {
      hide Shape, Sound, Loose, Fires;
      ghost var es := entries;
      next := Detach(slot, head, rest, 2);
      Cascade(g.slots, 2, currentTick, timers[slot].due, 2);
      var slow, fast := entries[slot].slowOffset, entries[slot].fastOffset;
      if slow == index[1] {
        Cascade(g.slots, 1, currentTick, timers[slot].due, 2);
      }
      if slow == index[1] && fast == index[0] {
        expired' := ExpireTimer(slot, expired, Elements(rest), 2, head, rest[1..]);
        f := [slot];
        CameUpFrame(g, 2, currentTick, es, entries, old(timers), timers, rest, slot);
      } else {
        if slow == index[1] {
          AddToFastSlot(fast, slot, Elements(rest), 2, head, rest[1..]);
        } else {
          Put(slotHeads[g.slots + slow], slot, Elements(rest), 2, head, rest[1..]);
        }
        expired', f := expired, [];
        FiresNothing(timers, expired, currentTick);
        CameUpFrame(g, 2, currentTick, es, entries, timers, timers, rest, slot);
      }
    }

    method CascadeGlacier(expired: seq<T>) returns (expired': seq<T>, ghost fired: seq<nat>)
      requires Mid({}, 3) && g.wheels > 2 && Aligned(g.slots, 2, currentTick)
      modifies this`entries, this`free, this`lists, this`home, this`timers, this`len, this`fastSlotBitmap
      ensures Mid({}, 2) && Fires(old(timers), timers, expired, expired', fired, currentTick)
      ensures |entries| == |old(entries)|
    {
      hide Shape, Sound, Loose, CameUp, Fires;
      var head := slotHeads[2 * g.slots + index[2]];
      ghost var es, home0 := entries, home;
      var next, rest := TakeList(head);
      TakenCameUp(g, 2, currentTick, es, entries, home0, home, timers, head, rest);
      expired', fired := expired, [];
      FiresNothing(timers, expired, currentTick);
      while next != head
        invariant Mid(Elements(rest), 2) && Loose(entries, head, rest) && next == First(head, rest)
        invariant CameUp(g, 2, currentTick, entries, timers, rest)
        invariant Fires(old(timers), timers, expired, expired', fired, currentTick) && |entries| == |old(entries)|
        decreases |rest|
      {
        ghost var timers0, out0, f := timers, expired', [];
        next, expired', f := GlacierStep(next, head, rest, expired');
        FiresBoth(old(timers), timers0, timers, expired, out0, expired', fired, f, currentTick);
        fired, rest := fired + f, rest[1..];
      }
      NothingLeft(g, entries, free, lists, home, timers, head, rest);
    }

    method OverflowStep(slot: nat, head: nat, ghost rest: seq<nat>, expired: seq<T>)
      returns (next: nat, expired': seq<T>, ghost f: seq<nat>)
      requires rest != [] && slot == rest[0] && g.Valid() && g.Overflows() && Aligned(g.slots, 3, currentTick)
      requires Mid(Elements(rest), 3) && Loose(entries, head, rest) && Overflowed(g, currentTick, timers, rest)
      modifies this`entries, this`free, this`lists, this`home, this`timers, this`len, this`fastSlotBitmap
      ensures Mid(Elements(rest[1..]), 3) && Loose(entries, head, rest[1..]) && next == First(head, rest[1..])
      ensures Overflowed(g, currentTick, timers, rest[1..])
      ensures Fires(old(timers), timers, expired, expired', f, currentTick) && |entries| == |old(entries)|
    {
      hide Shape, Sound, Loose, Fires;
      next := Detach(slot, head, rest, 3);
      assert forall e :: e in rest[1..] ==> e in rest;
      var expiration := entries[slot].expiration;
      NotPast(g.slots, currentTick, expiration);
      if expiration <= currentTick {
        expired' := ExpireTimer(slot, expired, Elements(rest), 3, head, rest[1..]);
        f := [slot];
      } else {
        var interval := expiration - currentTick;
        OverflowIff(g, currentTick, interval);
        if g.ShouldOverflow(currentTick, interval) {
          Put(overflowHead, slot, Elements(rest), 3, head, rest[1..]);
        } else {
          SameTurnPlaced(g, currentTick, expiration, 3);
          ghost var _ := PlaceTimerDirect(slot, interval, Elements(rest), 3, head, rest[1..]);
        }
        expired', f := expired, [];
        FiresNothing(timers, expired, currentTick);
      }
    }

    method ProcessOverflow(expired: seq<T>) returns (expired': seq<T>, ghost fired: seq<nat>)
      requires Mid({}, 4) && g.Overflows() && Aligned(g.slots, 3, currentTick)
      modifies this`entries, this`free, this`lists, this`home, this`timers, this`len, this`fastSlotBitmap
      ensures Mid({}, 3) && Fires(old(timers), timers, expired, expired', fired, currentTick)
      ensures |entries| == |old(entries)|
    {
      hide Shape, Sound, Loose, Overflowed, Fires;
      var head := overflowHead;
      ghost var es, home0 := entries, home;
      var next, rest := TakeList(head);
      TakenOverflow(g, currentTick, es, entries, home0, home, timers, rest);
      expired', fired := expired, [];
      FiresNothing(timers, expired, currentTick);
      while next != head
        invariant Mid(Elements(rest), 3) && Loose(entries, head, rest) && next == First(head, rest)
        invariant Overflowed(g, currentTick, timers, rest)
        invariant Fires(old(timers), timers, expired, expired', fired, currentTick) && |entries| == |old(entries)|
        decreases |rest|
      {
        ghost var timers0, out0, f := timers, expired', [];
        next, expired', f := OverflowStep(next, head, rest, expired');
        FiresBoth(old(timers), timers0, timers, expired, out0, expired', fired, f, currentTick);
        fired, rest := fired + f, rest[1..];
      }
      NothingLeft(g, entries, free, lists, home, timers, head, rest);
    }

    method ExpireFastSlot(expired: seq<T>) returns (expired': seq<T>, ghost fired: seq<nat>)
      requires Mid({}, 1)
      modifies this`entries, this`free, this`lists, this`home, this`timers, this`len, this`fastSlotBitmap
      ensures Mid({}, 0) && Fires(old(timers), timers, expired, expired', fired, currentTick)
      ensures |entries| == |old(entries)|
    {
      hide Shape, Sound, Loose, Fires;
      var fastSlot := index[0];
      var head := slotHeads[fastSlot];
      ghost var es, home0 := entries, home;
      var next, rest := TakeList(head);
      TakenCameUp(g, 0, currentTick, es, entries, home0, home, timers, head, rest);
      ghost var homed := home;
      expired', fired := expired, [];
      FiresNothing(timers, expired, currentTick);
      while next != head
        invariant Mid(Elements(rest), 0) && Loose(entries, head, rest) && next == First(head, rest)
        invariant CameUp(g, 0, currentTick, entries, timers, rest) && home == homed
        invariant Fires(old(timers), timers, expired, expired', fired, currentTick) && |entries| == |old(entries)|
        decreases |rest|
      {
        ghost var timers0, out0, es0, slot := timers, expired', entries, next;
        next, expired' := FastStep(next, head, rest, expired');
        FiresBoth(old(timers), timers0, timers, expired, out0, expired', fired, [slot], currentTick);
        fired, rest := fired + [slot], rest[1..];
      }
      NothingLeft(g, entries, free, lists, home, timers, head, rest);
      if g.fastBitmap {
        fastSlotBitmap := fastSlotBitmap - {fastSlot};
      }
    }

    method FastStep(slot: nat, head: nat, ghost rest: seq<nat>, expired: seq<T>) returns (next: nat, expired': seq<T>)
      requires rest != [] && slot == rest[0]
      requires Mid(Elements(rest), 0) && Loose(entries, head, rest) && CameUp(g, 0, currentTick, entries, timers, rest)
      modifies this`entries, this`free, this`timers, this`len
      ensures Mid(Elements(rest[1..]), 0) && Loose(entries, head, rest[1..]) && next == First(head, rest[1..])
      ensures CameUp(g, 0, currentTick, entries, timers, rest[1..])
      ensures Fires(old(timers), timers, expired, expired', [slot], currentTick) && |entries| == |old(entries)|
    {
      hide Shape, Sound, Loose, Fires;
      ghost var es := entries;
      next := Detach(slot, head, rest, 0);
      expired' := ExpireTimer(slot, expired, Elements(rest), 0, head, rest[1..]);
      CameUpFrame(g, 0, currentTick, es, entries, old(timers), timers, rest, slot);
    }

    method AdvanceRing(ring: nat) returns (wrapped: bool)
      requires ring < |index|
      modifies this`index
      ensures index == old(index)[ring := Advanced(g.slots, old(index)[ring])]
      ensures wrapped <==> old(index)[ring] + 1 == g.slots
    {
      var next := index[ring] + 1;
      wrapped := next == g.slots;
      index := index[ring := if wrapped then 0 else next];
    }

    // The clock moves and with it the ring indices; nothing has been processed yet.
    method Step() returns (fastWrapped: bool, slowWrapped: bool, glacierWrapped: bool)
      requires Valid() && currentTick < U64_MAX
      modifies this`currentTick, this`index
      ensures currentTick == old(currentTick) + 1 && Mid({}, 4)
      ensures fastWrapped <==> Aligned(g.slots, 1, currentTick)
      ensures g.wheels > 1 ==> (slowWrapped <==> Aligned(g.slots, 2, currentTick))
      ensures g.wheels > 2 ==> (glacierWrapped <==> Aligned(g.slots, 3, currentTick))
      ensures (slowWrapped ==> fastWrapped && g.wheels > 1) && (glacierWrapped ==> slowWrapped && g.wheels > 2)
    {
      hide Shape, Sound, Aligned;
      IndicesStep(g, index, currentTick);
      SoundTick(g, currentTick, entries, home, timers);
      currentTick := currentTick + 1;
      fastWrapped := AdvanceRing(0);
      slowWrapped := false;
      glacierWrapped := false;
      if fastWrapped && g.wheels > 1 {
        slowWrapped := AdvanceRing(1);
      }
      if slowWrapped && g.wheels > 2 {
        glacierWrapped := AdvanceRing(2);
      }
    }

    // advance_one_tick: exactly the timers due in the new tick are pushed, and the rest are still to come.
    method AdvanceOneTick(expired: seq<T>) returns (expired': seq<T>, ghost fired: seq<nat>)
      requires Valid() && currentTick < U64_MAX
      modifies this
      ensures Valid() && currentTick == old(currentTick) + 1
      ensures Next(old(State()), Ticked(fired), State())
      ensures Fires(old(timers), timers, expired, expired', fired, currentTick) && |entries| == |old(entries)|
    {
      hide Shape, Sound, Aligned, Fires;
      var fastWrapped, slowWrapped, glacierWrapped := Step();
      expired', fired := expired, [];
      FiresNothing(timers, expired, currentTick);
      ghost var f, timers0, out0 := [], timers, expired;
      if glacierWrapped && g.overflow {
        expired', fired := ProcessOverflow(expired');
      } else {
        NothingCameUp(g, 3, currentTick, entries, home, timers);
      }
      timers0, out0 := timers, expired';
      if slowWrapped && g.wheels > 2 {
        expired', f := CascadeGlacier(expired');
        FiresBoth(old(timers), timers0, timers, expired, out0, expired', fired, f, currentTick);
        fired := fired + f;
      } else {
        NothingCameUp(g, 2, currentTick, entries, home, timers);
      }
      timers0, out0 := timers, expired';
      if fastWrapped && g.wheels > 1 {
        expired', f := CascadeSlow(expired');
        FiresBoth(old(timers), timers0, timers, expired, out0, expired', fired, f, currentTick);
        fired := fired + f;
      } else {
        NothingCameUp(g, 1, currentTick, entries, home, timers);
      }
      timers0, out0 := timers, expired';
      expired', f := ExpireFastSlot(expired');
      FiresBoth(old(timers), timers0, timers, expired, out0, expired', fired, f, currentTick);
      fired := fired + f;
      Pending();
      FiredExactly(old(timers), timers, expired, expired', fired, currentTick);
    }

    // There is a free entry, or the index of a new one fits 32 bits.
    ghost predicate Room()
      reads this
    {
      free == [] ==> |entries| <= U32_MAX
    }

    // Timers live beyond the list heads, and an entry without a timer is free.
    lemma EntryBounds()
      requires Valid()
      ensures forall h :: h in timers ==> g.Heads() <= h < |entries|
      ensures timers == map[] && |entries| > g.Heads() ==> free != []
    {
      if timers == map[] && |entries| > g.Heads() {
        assert !entries[g.Heads()].live;
        assert g.Heads() in free;
      }
    }

    // Whatever still runs is due later than now.
    lemma Pending()
      requires Valid()
      ensures forall h :: h in timers ==> timers[h].due > currentTick
    {
      AllToCome(g, currentTick, entries, home, timers);
    }

    // ---- the public operations

    method Start(payload: T, interval: nat) returns (r: Result<nat, StartError>)
      requires Valid() && Room()
      modifies this
      ensures Valid() && currentTick == old(currentTick)
      ensures |entries| == |old(entries)| + if r.Ok? && old(free) == [] then 1 else 0
      ensures r == Err(ZeroInterval) <==> interval == 0
      ensures r.Ok? <==> g.Accepts(currentTick, interval)
      ensures r.Ok? <==>
                && 0 < interval && currentTick + interval <= U64_MAX
                && ((g.wheels == 3 && g.overflow)
                    || interval < Power(g.slots, g.wheels)
                    || (g.wheels == 1 && interval == g.slots))
      ensures r.Err? ==> timers == old(timers)
      ensures r.Ok? ==>
                && 0 <= DueTick(g, currentTick, interval)
                && Next(old(State()),
                        Started(r.value, Timer(payload, currentTick + interval, DueTick(g, currentTick, interval))),
                        State())
    {
      hide Shape, Sound;
      var ok := ValidateInterval(interval);
      if ok.Err? {
        return Err(ok.error);
      }
      OnTimeIffPunctual(g, currentTick, interval);
      ghost var es, timers0 := entries, timers;
      var slot := AllocateTimer(payload, currentTick + interval, DueTick(g, currentTick, interval));
      AllocatedSound(g, currentTick, es, entries, free, lists, home, timers0, timers, slot);
      PlaceTimer(slot, interval);
      r := Ok(slot);
    }

    method Stop(handle: nat) returns (stopped: bool)
      requires Valid()
      modifies this
      ensures Valid() && currentTick == old(currentTick)
      ensures stopped <==> handle in old(timers)
      ensures if stopped then Next(old(State()), Stopped(handle), State()) else timers == old(timers)
      ensures |entries| == |old(entries)| && |free| >= |old(free)|
    {
      hide Shape, Sound;
      stopped := HandleIsLive(handle);
      if stopped {
        UnlinkTimer(handle);
        Release(handle, {handle}, 0, 0, []);
        assert {handle} - {handle} == {};
      }
    }

    method Update(handle: nat, interval: nat) returns (r: Result<bool, StartError>)
      requires Valid()
      modifies this
      ensures Valid() && currentTick == old(currentTick)
      ensures r.Ok? <==> g.Accepts(currentTick, interval)
      ensures r.Ok? <==>
                && 0 < interval && currentTick + interval <= U64_MAX
                && ((g.wheels == 3 && g.overflow)
                    || interval < Power(g.slots, g.wheels)
                    || (g.wheels == 1 && interval == g.slots))
      ensures r == Err(ZeroInterval) <==> interval == 0
      ensures r.Ok? ==> (r.value <==> handle in old(timers))
      ensures r == Ok(true) ==>
                && 0 <= DueTick(g, currentTick, interval)
                && Next(old(State()), Updated(handle, Timer(old(timers)[handle].payload, currentTick + interval,
                                                            DueTick(g, currentTick, interval))), State())
      ensures r != Ok(true) ==> timers == old(timers)
      ensures |entries| == |old(entries)| && free == old(free)
    {
      hide Shape, Sound, DueTick;
      var ok := ValidateInterval(interval);
      if ok.Err? {
        return Err(ok.error);
      }
      var live := HandleIsLive(handle);
      if !live {
        return Ok(false);
      }
      OnTimeIffPunctual(g, currentTick, interval);
      UnlinkTimer(handle);
      Retime(handle, currentTick + interval, DueTick(g, currentTick, interval));
      PlaceTimer(handle, interval);
      r := Ok(true);
    }

    method Len() returns (n: nat)
      requires Valid()
      ensures n == |timers|
    {
      SlotsAddUp(g, entries, free, lists, home, timers, {});
      n := len;
    }

    // first_expires_in_ticks: a lower bound on the wait, good up to the next wrap of the fast ring.
    method FirstExpiresInTicks() returns (r: Option<nat>)
      requires Valid()
      ensures r.Some? <==> g.fastBitmap
      ensures r.Some? ==> r.value <= g.slots
      ensures r.Some? ==> forall k :: 0 <= k < r.value ==> SlotAfter(g.slots, index[0], k) !in fastSlotBitmap
      ensures r.Some? && r.value < g.slots ==> (index[0] + r.value) % g.slots in fastSlotBitmap
      ensures r.Some? ==> forall s :: s in fastSlotBitmap && s < g.slots ==>
                r.value <= if s >= index[0] then s - index[0] else s + g.slots - index[0]
      ensures r.Some? ==> forall h :: h in timers ==>
                timers[h].due >= currentTick + r.value || timers[h].due >= currentTick + g.slots - index[0]
    {
      hide Linked, Sound;
      if !g.fastBitmap {
        return None;
      }
      var current := index[0];
      for offset := 0 to g.slots
        invariant forall k :: 0 <= k < offset ==> SlotAfter(g.slots, current, k) !in fastSlotBitmap
      {
        var slot := SlotAfter(g.slots, current, offset);
        if slot in fastSlotBitmap {
          WaitBound(g, currentTick, entries, home, timers, fastSlotBitmap, offset);
          Nearest(g.slots, current, offset, fastSlotBitmap);
          return Some(offset);
        }
      }
      WaitBound(g, currentTick, entries, home, timers, fastSlotBitmap, g.slots);
      Nearest(g.slots, current, g.slots, fastSlotBitmap);
      return Some(g.slots);
    }

    method HandleIsLive(handle: nat) returns (live: bool)
      requires Valid()
      ensures live <==> handle in timers
    {
      live := handle < |entries| && entries[handle].live;
    }

    method ValidateInterval(interval: nat) returns (r: Result<(), StartError>)
      requires g.Valid()
      ensures r == Err(ZeroInterval) <==> interval == 0
      ensures r.Ok? <==> g.Accepts(currentTick, interval)
      ensures r.Ok? <==>
                && 0 < interval && currentTick + interval <= U64_MAX
                && ((g.wheels == 3 && g.overflow)
                    || interval < Power(g.slots, g.wheels)
                    || (g.wheels == 1 && interval == g.slots))
    {
      AcceptedIntervals(g, currentTick, interval);
      if interval == 0 {
        return Err(ZeroInterval);
      }
      if currentTick + interval > U64_MAX {
        return Err(IntervalOutOfRange);
      }
      if !g.Overflows() && interval > g.MaxDirectInterval() {
        return Err(IntervalOutOfRange);
      }
      return Ok(());
    }

    // Takes a running timer off its list.
    method UnlinkTimer(slot: nat)
      requires Valid() && slot in timers
      modifies this`entries, this`lists, this`home
      ensures Mid({slot}, 0) && slot < |entries| == |old(entries)|
    {
      hide Linked, Waits;
      ghost var es, home0 := entries, home;
      Unlink(slot);
      SoundFrame(g, currentTick, es, entries, home0, home, timers, timers, 0);
    }

    // Gives an unlinked timer a new expiration.
    method Retime(slot: nat, expiration: nat, ghost due: nat)
      requires Mid({slot}, 0) && slot < |entries| && slot in timers
      modifies this`entries, this`timers
      ensures Mid({slot}, 0) && slot < |entries| == |old(entries)|
      ensures timers == old(timers)[slot := Timer(old(timers)[slot].payload, expiration, due)]
    {
      hide Linked, Waits;
      ghost var es := entries[slot := entries[slot].(expiration := expiration)];
      ghost var timers' := timers[slot := Timer(timers[slot].payload, expiration, due)];
      LinkedFrame(entries, es, g.Heads(), lists, home);
      SoundFrame(g, currentTick, entries, es, home, home, timers, timers', 0);
      assert timers'.Keys == timers.Keys;
      entries := entries[slot := entries[slot].(expiration := expiration)];
      timers := timers';
    }

    method PlaceTimer(slot: nat, interval: nat)
      requires Mid({slot}, 0) && slot < |entries| && slot in timers && 0 < interval
      requires timers[slot].due == DueTick(g, currentTick, interval)
               && timers[slot].expiration == currentTick + interval
      modifies this`entries, this`lists, this`home, this`fastSlotBitmap
      ensures Valid() && |entries| == |old(entries)|
    {
      hide Shape, Sound;
      assert {slot} - {slot} == {};
      if g.ShouldOverflow(currentTick, interval) {
        OverflowIff(g, currentTick, interval);
        Put(overflowHead, slot, {slot}, 0, 0, []);
      } else {
        DuePlaced(g, currentTick, interval);
        ghost var _ := PlaceTimerDirect(slot, interval, {slot}, 0, 0, []);
      }
    }

    // expire: runs up to `ticks` ticks, stopping early only after a tick that exhausted the budget.
    method Expire(ticks: nat, expired: seq<T>) returns (expired': seq<T>, count: nat, ghost fired: seq<nat>)
      requires Valid() && currentTick + ticks <= U64_MAX
      modifies this
      ensures Valid() && old(currentTick) <= currentTick <= old(currentTick) + ticks
      ensures FiredUpTo(old(timers), timers, expired, expired', fired, currentTick)
      ensures count == |fired| && |entries| == |old(entries)|
      ensures currentTick < old(currentTick) + ticks ==> 0 < maxExpirations <= count
      ensures 0 < maxExpirations ==>
                forall i :: maxExpirations - 1 <= i < |fired| ==>
                    fired[i] in old(timers) && old(timers)[fired[i]].due == currentTick
    {
      hide Shape, Sound, Fires, FiredUpTo;
      expired', fired := expired, [];
      Pending();
      FiredNothingYet(timers, expired, currentTick);
      for k := 0 to ticks
        invariant Valid() && currentTick == old(currentTick) + k && |entries| == |old(entries)|
        invariant FiredUpTo(old(timers), timers, expired, expired', fired, currentTick)
        invariant |expired'| == |expired| + |fired| && forall h :: h in fired ==> h in old(timers)
        invariant 0 < maxExpirations ==>
                    forall i :: maxExpirations - 1 <= i < |fired| ==> old(timers)[fired[i]].due == currentTick
      {
        if maxExpirations != 0 && |expired'| - |expired| >= maxExpirations {
          break;
        }
        ghost var timers0, out0, f := timers, expired', [];
        expired', f := AdvanceOneTick(expired');
        FiredOneMoreTick(old(timers), timers0, timers, expired, out0, expired', fired, f, currentTick - 1);
        fired := fired + f;
      }
      count := |expired'| - |expired|;
    }
  }

  lemma WaitBound<T>(g: Geometry, tick: nat, es: seq<Entry<T>>, home: map<nat, nat>, timers: map<nat, Timer<T>>,
                     bitmap: set<nat>, offset: nat)
    requires g.Valid() && Sound(g, tick, es, home, timers, 0) && home.Keys == timers.Keys && offset <= g.slots
    requires forall e :: e in home && home[e] < g.slots ==> home[e] in bitmap
    requires forall k :: 0 <= k < offset ==> SlotAfter(g.slots, Digit(g.slots, 0, tick), k) !in bitmap
    ensures forall h :: h in timers ==>
              timers[h].due >= tick + offset || timers[h].due >= tick + g.slots - Digit(g.slots, 0, tick)
  {
    forall h | h in timers
      ensures timers[h].due >= tick + offset || timers[h].due >= tick + g.slots - Digit(g.slots, 0, tick)
    {
      var due := timers[h].due;
      assert Waits(g, tick, es[h], home[h], timers[h], 0);
      if home[h] < g.slots {
        ModAdd(g.slots, tick, due - tick);
        assert due - tick < g.slots ==> SlotAfter(g.slots, Digit(g.slots, 0, tick), due - tick) == home[h];
      } else {
        NextWrap(g.slots, tick, due, if g.wheels > 1 && home[h] < 2 * g.slots then 1
                                     else if g.wheels > 2 && home[h] < 3 * g.slots then 2 else 3);
      }
    }
  }

  // A freshly allocated slot disturbs nothing that is listed.
  lemma AllocatedSound<T>(g: Geometry, tick: nat, es: seq<Entry<T>>, es': seq<Entry<T>>, free': seq<nat>,
                          lists: seq<seq<nat>>,
                          home: map<nat, nat>, timers: map<nat, Timer<T>>, timers': map<nat, Timer<T>>, slot: nat)
    requires g.Valid() && Sound(g, tick, es, home, timers, 0) && |es| <= |es'|
    requires slot !in timers && slot in timers' && timers' == timers[slot := timers'[slot]]
    requires forall e :: 0 <= e < |es| && e != slot ==> es'[e] == es[e]
    requires Shape(g, es', free', lists, home, timers', {slot})
    ensures Sound(g, tick, es', home, timers', 0)
    ensures slot < |es'|
  {
    hide Waits, Linked;
    assert forall e :: e in home ==> e in timers;
    SoundFrame(g, tick, es, es', home, home, timers, timers', 0);
  }

  lemma FiredExactly<T>(before: map<nat, Timer<T>>, after: map<nat, Timer<T>>, out: seq<T>, out': seq<T>,
                        fired: seq<nat>, tick: nat)
    requires Fires(before, after, out, out', fired, tick) && forall h :: h in after ==> after[h].due > tick
    ensures forall h :: h in fired <==> h in before && before[h].due == tick
    ensures Distinct(fired) && after == before - Elements(fired)
  {
    assert forall h :: h in before && h !in fired ==> h in after && after[h] == before[h];
  }
}
