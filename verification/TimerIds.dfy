// Timers named by (slot, timer id) with a generation per slot, on top of the wheel.
module TimerIdLayer {
  import opened Arithmetic
  import opened Common
  import opened TimerArena
  import opened TimerIdTables
  import opened TimerRuns
  import opened TimerWheels
  import opened WheelArithmetic

  // The first flat index of a slot.
  function Base(tps: nat, slot: nat): nat {
    slot * tps
  }

  ghost function Flats(lo: nat, hi: nat): set<nat> {
    set flat | flat in UpTo(hi) && lo <= flat
  }

  // The flat indices that claiming a slot for a generation stops: all of the slot, when it had another generation.
  ghost function Dropped(tps: nat, generations: seq<nat>, slot: nat, generation: nat): set<nat> {
    if slot < |generations| && generations[slot] != generation then Flats(Base(tps, slot), Base(tps, slot + 1)) else {}
  }

  // The tables once the slot has been claimed.
  ghost function Claimed(i: Ids, tps: nat, generations: seq<nat>, slot: nat, generation: nat): Ids {
    StopAll(Grown(i, Base(tps, slot + 1)), Dropped(tps, generations, slot, generation))
  }

  // Claiming a slot for another generation clears the bits of that slot and no others.
  lemma ClaimedBits(i: Ids, tps: nat, generations: seq<nat>, slot: nat, generation: nat)
    ensures forall flat :: flat in Claimed(i, tps, generations, slot, generation).bits <==>
                           && flat in i.bits
                           && !(slot < |generations| && generations[slot] != generation
                                && slot * tps <= flat < slot * tps + tps)
  {
    Bases(tps, slot, slot);
  }

  lemma Bases(tps: nat, slots: nat, slot: nat)
    requires slot <= slots
    ensures Base(tps, slot) <= Base(tps, slots) && Base(tps, slot + 1) == Base(tps, slot) + tps
    ensures slot < slots ==> Base(tps, slot) + tps <= Base(tps, slots)
  {
    assert slot < slots ==> (slot + 1) * tps <= slots * tps;
  }

  // A flat index tells its slot and id.
  lemma FlatRoundTrip(tps: nat, slot: nat, id: nat)
    requires id < tps
    ensures (Base(tps, slot) + id) / tps == slot && (Base(tps, slot) + id) % tps == id
  {
    Quotient(slot * tps + id, tps, slot, id);
  }

  lemma FlatBound(tps: nat, slots: nat, flat: nat)
    requires tps > 0 && flat < Base(tps, slots)
    ensures flat / tps < slots && flat == Base(tps, flat / tps) + flat % tps && flat % tps < tps
  {
    Rest(tps, flat);
    Below(tps, slots, flat);
  }

  lemma NoneBeyond(i: Ids, lo: nat, hi: nat)
    requires Bounded(i) && |i.slots| <= lo
    ensures Flats(lo, hi) !! i.bits
  {
  }

  lemma OneMoreFlat(lo: nat, hi: nat)
    requires lo <= hi
    ensures Flats(lo, lo) == {} && Flats(lo, hi + 1) == Flats(lo, hi) + {hi}
  {
  }

  // Claiming a slot keeps the bijection exactly when no uncollected bit it clears is aliased.
  lemma ClaimMatched(i: Ids, tps: nat, generations: seq<nat>, slot: nat, generation: nat)
    requires Matched(i)
    ensures Matched(Claimed(i, tps, generations, slot, generation))
            <==> Unaliased(i, Dropped(tps, generations, slot, generation))
    ensures Unaliased(i, Dropped(tps, generations, slot, generation)) ==>
              ArmedOf(Claimed(i, tps, generations, slot, generation))
              == ArmedOf(i) - Dropped(tps, generations, slot, generation)
  {
    hide Matched, Unaliased, ArmedOf, StopAll, Grown, Dropped;
    var grown, touched := Grown(i, Base(tps, slot + 1)), Dropped(tps, generations, slot, generation);
    MatchedBounded(i);
    GrownSame(i, Base(tps, slot + 1));
    StopMatched(grown, touched);
    if Unaliased(grown, touched) { StopKeeps(grown, touched); }
  }

  // The tables once the slot is claimed and one of its timers is stopped.
  ghost function Disarmed(i: Ids, tps: nat, generations: seq<nat>, slot: nat, generation: nat, flat: nat): Ids {
    StopAll(Claimed(i, tps, generations, slot, generation), {flat})
  }

  lemma DisarmMatched(i: Ids, tps: nat, generations: seq<nat>, slot: nat, generation: nat, flat: nat)
    requires Matched(i)
    ensures var j, touched := Disarmed(i, tps, generations, slot, generation, flat),
                              Dropped(tps, generations, slot, generation) + {flat};
            && (Matched(j) <==> Unaliased(i, touched))
            && (Unaliased(i, touched) ==> ArmedOf(j) == ArmedOf(i) - touched)
  {
    hide Matched, Unaliased, ArmedOf, StopAll, Grown, Dropped;
    var grown, dropped := Grown(i, Base(tps, slot + 1)), Dropped(tps, generations, slot, generation);
    MatchedBounded(i);
    GrownSame(i, Base(tps, slot + 1));
    StopTwice(grown, dropped, {flat});
    StopMatched(grown, dropped + {flat});
    if Unaliased(grown, dropped + {flat}) { StopKeeps(grown, dropped + {flat}); }
  }

  // Arming keeps the bijection exactly when no uncollected bit it clears is aliased and the payload tells the timer.
  lemma ArmMatched(i: Ids, tps: nat, generations: seq<nat>, slot: nat, generation: nat, flat: nat, h: nat,
                   timer: Timer<nat>)
    requires Matched(i)
    requires var j := Disarmed(i, tps, generations, slot, generation, flat);
             Bounded(j) && flat < |j.slots| && flat !in j.bits && h !in j.timers
    ensures var j, touched := Disarmed(i, tps, generations, slot, generation, flat),
                              Dropped(tps, generations, slot, generation) + {flat};
            && (Matched(StartAt(j, flat, h, timer)) <==> Unaliased(i, touched) && timer.payload == flat)
            && (Unaliased(i, touched) ==> ArmedOf(StartAt(j, flat, h, timer)) == (ArmedOf(i) - touched)[flat := timer])
  {
    hide Matched, Unaliased, ArmedOf, Disarmed, Dropped, StartAt, Bounded;
    DisarmMatched(i, tps, generations, slot, generation, flat);
    StartMatched(Disarmed(i, tps, generations, slot, generation, flat), flat, h, timer);
  }

  lemma FreshHandle(timers: map<nat, Timer<nat>>) returns (h: nat)
    ensures h !in timers
  {
    FreshIndex(timers.Keys);
    h :| h !in timers.Keys;
  }

  lemma MatchedBounded(i: Ids)
    requires Matched(i)
    ensures Bounded(i)
  {
  }

  class TimerIds {
    const wheel: TimerWheel<nat>
    const timersPerSlot: nat
    var slotGenerations: seq<nat>
    var timerSlots: seq<nat>
    var timerBitmap: set<nat>
    // Set bits whose payload expire() handed out and take_expired_timer has not seen yet.
    ghost var uncollected: set<nat>

    ghost function Tables(): Ids
      reads this, wheel
    {
      Ids(timerSlots, timerBitmap, uncollected, wheel.timers)
    }

    ghost predicate Valid()
      reads this, wheel
    {
      && wheel.Valid() && timersPerSlot > 0
      && |timerSlots| == Base(timersPerSlot, |slotGenerations|)
      && Bounded(Tables())
    }

    ghost predicate Generation(slot: nat, generation: nat)
      reads this
    {
      slot < |slotGenerations| && slotGenerations[slot] == generation
    }

    constructor (g: Geometry, maxExpirations: nat, timersPerSlot: nat)
      requires g.Valid() && timersPerSlot > 0
      ensures Valid() && Matched(Tables()) && this.timersPerSlot == timersPerSlot
      ensures Tables() == Ids([], {}, {}, map[]) && slotGenerations == []
      ensures fresh(wheel) && wheel.g == g && wheel.maxExpirations == maxExpirations
      ensures wheel.currentTick == 0 && wheel.free == [] && |wheel.entries| == g.Heads()
    {
      wheel := new TimerWheel<nat>(g, maxExpirations);
      this.timersPerSlot := timersPerSlot;
      slotGenerations, timerSlots, timerBitmap, uncollected := [], [], {}, {};
    }

    // Clears a set bit and stops what runs at its entry; answers whether anything did.
    method StopFlat(flat: nat) returns (stopped: bool)
      requires Valid() && flat in timerBitmap
      modifies this`timerSlots, this`timerBitmap, this`uncollected, wheel
      ensures Valid() && Tables() == StopAll(old(Tables()), {flat})
      ensures stopped <==> old(timerSlots)[flat] in old(wheel.timers)
      ensures wheel.currentTick == old(wheel.currentTick) && |wheel.entries| == old(|wheel.entries|)
      ensures |wheel.free| >= old(|wheel.free|)
    {
      hide wheel.Valid, Base, StopAll;
      StopOne(Tables(), flat);
      StopBounded(Tables(), {flat});
      var handle := timerSlots[flat];
      timerBitmap := timerBitmap - {flat};
      timerSlots := timerSlots[flat := INVALID_INDEX];
      uncollected := uncollected - {flat};
      stopped := wheel.Stop(handle);
      assert wheel.timers == old(wheel.timers) - {handle};
    }

    // reset_slot
    method ResetSlot(slot: nat)
      requires Valid() && slot < |slotGenerations|
      modifies this`timerSlots, this`timerBitmap, this`uncollected, wheel
      ensures Valid()
              && Tables() == StopAll(old(Tables()), Flats(Base(timersPerSlot, slot), Base(timersPerSlot, slot + 1)))
      ensures wheel.currentTick == old(wheel.currentTick) && |wheel.entries| == old(|wheel.entries|)
      ensures |wheel.free| >= old(|wheel.free|)
      ensures old(Matched(Tables())) ==>
                (Matched(Tables())
                 <==> old(Unaliased(Tables(), Flats(Base(timersPerSlot, slot), Base(timersPerSlot, slot + 1)))))
    {
      hide wheel.Valid, Base, StopAll, Bounded, Flats, Matched, Unaliased;
      var start := Base(timersPerSlot, slot);
      Bases(timersPerSlot, |slotGenerations|, slot);
      ghost var i := Tables();
      OneMoreFlat(start, start);
      StopNothing(i, Flats(start, start));
      for k := 0 to timersPerSlot
        invariant Valid() && Tables() == StopAll(i, Flats(start, start + k))
        invariant wheel.currentTick == old(wheel.currentTick) && |wheel.entries| == old(|wheel.entries|)
        invariant |wheel.free| >= old(|wheel.free|)
      {
        ghost var before := Tables();
        OneMoreFlat(start, start + k);
        StopTwice(i, Flats(start, start + k), {start + k});
        if start + k in timerBitmap {
          var _ := StopFlat(start + k);
        } else {
          StopNothing(before, {start + k});
        }
      }
      if Matched(i) { StopMatched(i, Flats(start, start + timersPerSlot)); }
    }

    method GrowTables(slot: nat)
      requires Valid() && |slotGenerations| <= slot
      modifies this`slotGenerations, this`timerSlots
      ensures Valid() && |slotGenerations| == slot + 1 && old(slotGenerations) <= slotGenerations
      ensures Tables() == Grown(old(Tables()), Base(timersPerSlot, slot + 1)) && slotGenerations[slot] == 0
      ensures Flats(Base(timersPerSlot, slot), Base(timersPerSlot, slot + 1)) !! timerBitmap
    {
      hide wheel.Valid, Base, Bounded, Matched, Unaliased, ArmedOf, Flats;
      var required := Base(timersPerSlot, slot + 1);
      Bases(timersPerSlot, slot, |slotGenerations|);
      Bases(timersPerSlot, slot + 1, slot);
      GrownSame(Tables(), required);
      NoneBeyond(Tables(), Base(timersPerSlot, slot), required);
      slotGenerations := slotGenerations + seq(slot + 1 - |slotGenerations|, _ => 0);
      timerSlots := timerSlots + seq(required - |timerSlots|, _ => INVALID_INDEX);
    }

    // prepare_slot: the tables reach the slot, and the slot belongs to this generation.
    method PrepareSlot(slot: nat, generation: nat)
      requires Valid()
      modifies this`slotGenerations, this`timerSlots, this`timerBitmap, this`uncollected, wheel
      ensures Valid() && Generation(slot, generation)
      ensures Tables() == Claimed(old(Tables()), timersPerSlot, old(slotGenerations), slot, generation)
      ensures forall flat :: flat in timerBitmap <==>
                             && flat in old(timerBitmap)
                             && !(slot < |old(slotGenerations)| && old(slotGenerations)[slot] != generation
                                  && slot * timersPerSlot <= flat < slot * timersPerSlot + timersPerSlot)
      ensures forall s :: 0 <= s < |old(slotGenerations)| && s != slot ==> Generation(s, old(slotGenerations)[s])
      ensures wheel.currentTick == old(wheel.currentTick) && |wheel.entries| == old(|wheel.entries|)
      ensures |wheel.free| >= old(|wheel.free|)
    {
      hide wheel.Valid, Bounded, Base, StopAll, Grown, Flats, Matched, Unaliased;
      ghost var i := Tables();
      ClaimedBits(i, timersPerSlot, slotGenerations, slot, generation);
      if slot >= |slotGenerations| {
        GrowTables(slot);
        StopNothing(Tables(), {});
        StopNothing(Tables(), Flats(Base(timersPerSlot, slot), Base(timersPerSlot, slot + 1)));
      } else {
        ReachesSlot(i, slot);
        StopNothing(i, {});
      }
      if slotGenerations[slot] != generation {
        ResetSlot(slot);
        slotGenerations := slotGenerations[slot := generation];
      }
    }

    lemma ReachesSlot(i: Ids, slot: nat)
      requires Valid() && i == Tables() && slot < |slotGenerations|
      ensures Grown(i, Base(timersPerSlot, slot + 1)) == i
    {
      hide wheel.Valid, Base, Bounded;
      Bases(timersPerSlot, |slotGenerations|, slot + 1);
    }

    method CancelTimer(slot: nat, generation: nat, id: nat) returns (cancelled: bool)
      requires Valid() && id < timersPerSlot
      modifies this`timerSlots, this`timerBitmap, this`uncollected, wheel
      ensures Valid() && wheel.currentTick == old(wheel.currentTick) && |wheel.entries| == old(|wheel.entries|)
      ensures |wheel.free| >= old(|wheel.free|)
      ensures var flat := Base(timersPerSlot, slot) + id;
              && Tables() == (if Generation(slot, generation) then StopAll(old(Tables()), {flat}) else old(Tables()))
              && (cancelled <==>
                  && Generation(slot, generation) && flat in old(timerBitmap) && flat < |timerSlots|
                  && old(timerSlots)[flat] in old(wheel.timers))
      ensures var flat := Base(timersPerSlot, slot) + id;
              old(Matched(Tables())) && Generation(slot, generation) ==>
                && (Matched(Tables()) <==> old(Unaliased(Tables(), {flat})))
                && (Matched(Tables()) ==> ArmedOf(Tables()) == old(ArmedOf(Tables())) - {flat})
                && (Matched(Tables()) ==> (cancelled <==> flat in old(ArmedOf(Tables()))))
    {
      hide wheel.Valid, Base, StopAll, Matched, Unaliased, ArmedOf;
      if slot >= |slotGenerations| || slotGenerations[slot] != generation {
        return false;
      }
      var flat := Base(timersPerSlot, slot) + id;
      if Matched(Tables()) { StopMeans(Tables(), flat); }
      if flat !in timerBitmap {
        StopNothing(Tables(), {flat});
        return false;
      }
      cancelled := StopFlat(flat);
    }

    method ArmTimer(slot: nat, generation: nat, id: nat, interval: nat)
      returns (r: Result<(), StartError>, ghost h: nat)
      requires Valid() && id < timersPerSlot && wheel.Room()
      modifies this`slotGenerations, this`timerSlots, this`timerBitmap, this`uncollected, wheel
      ensures Valid() && wheel.currentTick == old(wheel.currentTick) && Generation(slot, generation)
      ensures r.Ok? <==> wheel.g.Accepts(wheel.currentTick, interval)
      ensures |wheel.entries| <= old(|wheel.entries|) + 1
      ensures old(wheel.free) != [] ==> |wheel.entries| == old(|wheel.entries|)
      ensures ArmedAs(old(Tables()), old(slotGenerations), slot, generation, id, interval, r, h)
      ensures old(Matched(Tables())) ==>
                (Matched(Tables()) <==>
                 && old(Unaliased(Tables(), Touched(slot, generation, id)))
                 && (r.Ok? ==> Base(timersPerSlot, slot) + id <= U32_MAX))
      ensures old(Matched(Tables())) && Matched(Tables()) && r.Err? ==>
                ArmedOf(Tables()) == old(ArmedOf(Tables()) - Touched(slot, generation, id))
      ensures old(Matched(Tables())) && Matched(Tables()) && r.Ok? ==>
                var flat, due := Base(timersPerSlot, slot) + id, DueTick(wheel.g, wheel.currentTick, interval);
                && due >= 0
                && ArmedOf(Tables()) == old(ArmedOf(Tables()) - Touched(slot, generation, id))
                                        [flat := Timer(flat, wheel.currentTick + interval, due)]
    {
      hide wheel.Valid, Bounded, DueTick, Claimed, Base, StopAll, Matched, Unaliased, ArmedOf, StartAt, Dropped;
      ghost var i := Tables();
      PrepareSlot(slot, generation);
      var flat := Base(timersPerSlot, slot) + id;
      FlatFits(flat, slot, id);
      StopClears(Tables(), flat);
      var _ := CancelTimer(slot, generation, id);
      ghost var j := Tables();
      assert j == Disarmed(i, timersPerSlot, old(slotGenerations), slot, generation, flat);
      r, h := StartFlat(flat, interval);
      Geared();
      if Matched(i) {
        DisarmMatched(i, timersPerSlot, old(slotGenerations), slot, generation, flat);
        if r.Ok? {
          ArmMatched(i, timersPerSlot, old(slotGenerations), slot, generation, flat, h,
                     Timer(Payload(flat), wheel.currentTick + interval, DueTick(wheel.g, wheel.currentTick, interval)));
          PayloadTells(flat);
        }
      }
    }

    // The flat indices whose bits arming a timer clears first.
    ghost function Touched(slot: nat, generation: nat, id: nat): set<nat>
      reads this
    {
      Dropped(timersPerSlot, slotGenerations, slot, generation) + {Base(timersPerSlot, slot) + id}
    }

    // The exact tables after arming: the timer runs under a new handle, or is only stopped.
    ghost predicate ArmedAs(i: Ids, generations: seq<nat>, slot: nat, generation: nat, id: nat, interval: nat,
                            r: Result<(), StartError>, h: nat)
      requires wheel.g.Valid()
      reads this, wheel
    {
      var flat, due := Base(timersPerSlot, slot) + id, DueTick(wheel.g, wheel.currentTick, interval);
      var j := Disarmed(i, timersPerSlot, generations, slot, generation, flat);
      if r.Err? then Tables() == j
      else
        && flat < |j.slots| && flat !in j.bits && h !in j.timers && due >= 0
        && Tables() == StartAt(j, flat, h, Timer(Payload(flat), wheel.currentTick + interval, due))
    }

    lemma Geared()
      requires Valid()
      ensures wheel.g.Valid()
    {
    }

    lemma FlatFits(flat: nat, slot: nat, id: nat)
      requires Valid() && slot < |slotGenerations| && id < timersPerSlot && flat == Base(timersPerSlot, slot) + id
      ensures flat < |timerSlots|
    {
      hide wheel.Valid, Base, Bounded;
      Bases(timersPerSlot, |slotGenerations|, slot);
    }

    // Starts the timer of a clear bit.
    method StartFlat(flat: nat, interval: nat) returns (r: Result<(), StartError>, ghost h: nat)
      requires Valid() && flat !in timerBitmap && flat < |timerSlots| && wheel.Room()
      modifies this`timerSlots, this`timerBitmap, this`uncollected, wheel
      ensures Valid() && wheel.currentTick == old(wheel.currentTick)
      ensures r.Ok? <==> wheel.g.Accepts(wheel.currentTick, interval)
      ensures |wheel.entries| <= old(|wheel.entries|) + 1
      ensures old(wheel.free) != [] ==> |wheel.entries| == old(|wheel.entries|)
      ensures r.Err? ==> Tables() == old(Tables())
      ensures r.Ok? ==>
                var due := DueTick(wheel.g, wheel.currentTick, interval);
                && h !in old(wheel.timers) && due >= 0
                && Tables() == StartAt(old(Tables()), flat, h, Timer(Payload(flat), wheel.currentTick + interval, due))
    {
      hide wheel.Valid, DueTick, Base, Matched;
      h := 0;
      ghost var i := Tables();
      var handle := wheel.Start(Payload(flat), interval);
      if handle.Err? {
        return Err(handle.error), h;
      }
      h := handle.value;
      StartMatched(i, flat, h, wheel.timers[h]);
      timerSlots := timerSlots[flat := handle.value];
      timerBitmap := timerBitmap + {flat};
      uncollected := uncollected - {flat};
      return Ok(()), h;
    }

    // What runs at the entry of a set bit gets a new expiration.
    method UpdateFlat(flat: nat, interval: nat) returns (r: Result<bool, StartError>)
      requires Valid() && flat in timerBitmap
      modifies wheel
      ensures Valid() && wheel.currentTick == old(wheel.currentTick) && |wheel.entries| == old(|wheel.entries|)
      ensures wheel.free == old(wheel.free)
      ensures r.Ok? <==> wheel.g.Accepts(wheel.currentTick, interval)
      ensures r.Ok? ==> (r.value <==> timerSlots[flat] in old(wheel.timers))
      ensures r != Ok(true) ==> Tables() == old(Tables())
      ensures r == Ok(true) ==>
                var due := DueTick(wheel.g, wheel.currentTick, interval);
                due >= 0 && Tables() == Retime(old(Tables()), flat, wheel.currentTick + interval, due)
    {
      hide wheel.Valid, DueTick, Base;
      r := wheel.Update(timerSlots[flat], interval);
    }

    // update_timer after the slot is claimed: an entry that is no longer live is cleared and the timer armed anew.
    method UpdateClaimed(slot: nat, generation: nat, id: nat, interval: nat)
      returns (r: Result<(), StartError>, ghost h: nat)
      requires Valid() && Generation(slot, generation) && wheel.Room()
      requires id < timersPerSlot
      modifies this`slotGenerations, this`timerSlots, this`timerBitmap, this`uncollected, wheel
      ensures Valid() && wheel.currentTick == old(wheel.currentTick) && Generation(slot, generation)
      ensures r.Ok? <==> wheel.g.Accepts(wheel.currentTick, interval)
      ensures r.Err? ==> Tables() == old(Tables())
      ensures r.Ok? ==>
                var flat, due := Base(timersPerSlot, slot) + id, DueTick(wheel.g, wheel.currentTick, interval);
                && due >= 0 && flat < |old(timerSlots)| && h !in StopAll(old(Tables()), {flat}).timers
                && Tables() == Update(old(Tables()), flat, h, wheel.currentTick + interval, due)
    {
      hide wheel.Valid, Bounded, DueTick, Claimed, Base, StopAll, Matched, Unaliased, ArmedOf, StartAt, Dropped, Retime;
      ghost var i := Tables();
      var flat := Base(timersPerSlot, slot) + id;
      FlatFits(flat, slot, id);
      ClaimedAgain(i, slot, generation, flat);
      StopClears(i, flat);
      if flat in timerBitmap {
        h := FreshHandle(StopAll(i, {flat}).timers);
        var updated := UpdateFlat(flat, interval);
        if updated.Err? {
          return Err(updated.error), h;
        }
        if updated.value {
          return Ok(()), h;
        }
        StopOne(i, flat);
        StopBounded(i, {flat});
        assert i.timers - {i.slots[flat]} == i.timers;
        timerBitmap := timerBitmap - {flat};
        timerSlots := timerSlots[flat := INVALID_INDEX];
        uncollected := uncollected - {flat};
        assert Tables() == StopAll(i, {flat});
        StopTwice(i, {flat}, {flat});
        assert {flat} + {flat} == {flat};
        ClaimedAgain(Tables(), slot, generation, flat);
      } else {
        StopNothing(i, {flat});
      }
      r, h := ArmTimer(slot, generation, id, interval);
    }

    // update_timer
    method UpdateTimer(slot: nat, generation: nat, id: nat, interval: nat)
      returns (r: Result<(), StartError>, ghost h: nat)
      requires Valid() && id < timersPerSlot && wheel.Room()
      modifies this`slotGenerations, this`timerSlots, this`timerBitmap, this`uncollected, wheel
      ensures Valid() && wheel.currentTick == old(wheel.currentTick) && Generation(slot, generation)
      ensures r.Ok? <==> wheel.g.Accepts(wheel.currentTick, interval)
      ensures UpdatedTo(old(Tables()), old(Dropped(timersPerSlot, slotGenerations, slot, generation)),
                        Claimed(old(Tables()), timersPerSlot, old(slotGenerations), slot, generation), Tables(), r.Ok?,
                        Base(timersPerSlot, slot) + id, h, wheel.currentTick + interval,
                        DueTick(wheel.g, wheel.currentTick, interval))
    {
      hide wheel.Valid, Bounded, DueTick, Claimed, Base, StopAll, Matched, Unaliased, ArmedOf, Update, Dropped;
      ghost var i := Tables();
      assert Bounded(i);
      PrepareSlot(slot, generation);
      Geared();
      ghost var claimed := Tables();
      r, h := UpdateClaimed(slot, generation, id, interval);
      ghost var flat, due := Base(timersPerSlot, slot) + id, DueTick(wheel.g, wheel.currentTick, interval);
      if r.Ok? && Matched(claimed) {
        UpdateMeans(claimed, flat, h, wheel.currentTick + interval, due);
      }
      if Matched(i) {
        ClaimMatched(i, timersPerSlot, old(slotGenerations), slot, generation);
        if r.Ok? {
          if slot < |old(slotGenerations)| && old(slotGenerations)[slot] != generation {
            ClaimClears(i, timersPerSlot, old(slotGenerations), slot, generation, id);
          }
          UpdateMatched(i, timersPerSlot, old(slotGenerations), slot, generation, flat, h,
                        wheel.currentTick + interval, due);
        }
      }
    }

    // A slot that already has the generation is claimed as it is.
    lemma ClaimedAgain(i: Ids, slot: nat, generation: nat, flat: nat)
      requires Valid() && Generation(slot, generation) && i == Tables()
      ensures Claimed(i, timersPerSlot, slotGenerations, slot, generation) == i
      ensures Dropped(timersPerSlot, slotGenerations, slot, generation) == {}
    {
      hide wheel.Valid, Bounded, Grown, StopAll;
      ReachesSlot(i, slot);
      StopNothing(i, {});
    }

    // expire: the payloads handed out are the flat indices of the timers that are no longer armed.
    method Expire(ticks: nat, expired: seq<nat>) returns (expired': seq<nat>, count: nat, ghost fired: seq<nat>)
      requires Valid() && wheel.currentTick + ticks <= U64_MAX
      modifies this`uncollected, wheel
      ensures Valid() && |wheel.entries| == old(|wheel.entries|) && count == |fired|
      ensures old(wheel.currentTick) <= wheel.currentTick <= old(wheel.currentTick) + ticks
      ensures wheel.currentTick < old(wheel.currentTick) + ticks ==> 0 < wheel.maxExpirations <= count
      ensures 0 < wheel.maxExpirations ==>
                forall k :: wheel.maxExpirations - 1 <= k < |fired| ==>
                    fired[k] in old(wheel.timers) && old(wheel.timers)[fired[k]].due == wheel.currentTick
      ensures FiredUpTo(old(wheel.timers), wheel.timers, expired, expired', fired, wheel.currentTick)
      ensures Tables() == ExpireAll(old(Tables()), fired)
      ensures old(Matched(Tables())) ==>
                && Matched(Tables()) && ArmedOf(Tables()) == LaterThan(old(ArmedOf(Tables())), wheel.currentTick)
                && uncollected == old(uncollected) + DueBy(old(ArmedOf(Tables())), wheel.currentTick)
    {
      hide wheel.Valid, Base, FiredUpTo, ArmedOf, Matched, Gone, DueBy, LaterThan;
      ghost var i := Tables();
      expired', count, fired := wheel.Expire(ticks, expired);
      FiredSet(i.timers, wheel.timers, expired, expired', fired, wheel.currentTick);
      uncollected := uncollected + Gone(i.timers, fired) * timerBitmap;
      if Matched(i) { ExpireMatched(i, fired, wheel.currentTick); }
    }

    // take_expired_timer: names the timer a payload belongs to and clears its bit.
    method TakeExpiredTimer(payload: nat) returns (r: Option<(nat, nat, nat)>)
      requires Valid()
      modifies this`timerSlots, this`timerBitmap, this`uncollected
      ensures Valid() && (r.Some? <==> payload in old(timerBitmap))
      ensures Tables() == if r.Some? then TakeOne(old(Tables()), payload) else old(Tables())
      ensures r.Some? ==> Named(payload, r.value.0, r.value.1, r.value.2)
      ensures old(Matched(Tables())) ==>
                && (Matched(Tables()) <==> (payload in old(timerBitmap) ==> payload in old(uncollected)))
                && (Matched(Tables()) ==> ArmedOf(Tables()) == old(ArmedOf(Tables())))
    {
      hide wheel.Valid, Matched, ArmedOf, Base;
      if payload >= |timerSlots| || payload !in timerBitmap {
        return None;
      }
      ghost var i := Tables();
      if Matched(i) { TakeMatched(i, payload); }
      var slot, id := payload / timersPerSlot, payload % timersPerSlot;
      FlatBound(timersPerSlot, |slotGenerations|, payload);
      r := Some((slot, slotGenerations[slot], id));
      timerBitmap := timerBitmap - {payload};
      timerSlots := timerSlots[payload := INVALID_INDEX];
      uncollected := uncollected - {payload};
      assert timerSlots == Cleared(i.slots, {payload});
    }

    ghost predicate Named(payload: nat, slot: nat, generation: nat, id: nat)
      reads this
    {
      id < timersPerSlot && payload == Base(timersPerSlot, slot) + id && Generation(slot, generation)
    }
  }

  lemma FiredSet(before: map<nat, Timer<nat>>, after: map<nat, Timer<nat>>, out: seq<nat>, out': seq<nat>,
                 fired: seq<nat>,
                 tick: nat)
    requires FiredUpTo(before, after, out, out', fired, tick)
    ensures forall h :: h in fired <==> h in before && before[h].due <= tick
    ensures after == before - Elements(fired)
  {
  }

  // Something runs at the entry of a set bit.
  ghost predicate Running(i: Ids, flat: nat) {
    flat in i.bits && flat < |i.slots| && i.slots[flat] in i.timers
  }

  // The tables after an update of the timer of `flat`: what runs at its entry is retimed, or it is armed anew under
  // `h`.
  ghost function Update(i: Ids, flat: nat, h: nat, expiration: nat, due: nat): Ids
    requires flat < |i.slots|
  {
    StopClears(i, flat);
    if Running(i, flat) then Retime(i, flat, expiration, due)
    else StartAt(StopAll(i, {flat}), flat, h, Timer(Payload(flat), expiration, due))
  }

  // What an update leads to from tables `i` that claiming the slot turned into `c`: the exact tables `j`; when the
  // armed timers change in just the timer meant; and when the bijection is kept.
  ghost predicate UpdatedTo(i: Ids, dropped: set<nat>, c: Ids, j: Ids, ok: bool, flat: nat, h: nat, expiration: nat,
                            due: int) {
    && (!ok ==> j == c)
    && (ok ==> due >= 0 && flat < |c.slots| && j == Update(c, flat, h, expiration, due))
    && (ok && Matched(c) ==>
          (ArmedOf(j) == ArmedOf(c)[flat := Timer(flat, expiration, due)]
           <==> Unaliased(c, {flat}) && (Running(c, flat) || flat <= U32_MAX)))
    && (Matched(i) ==>
          (Matched(j) <==> Unaliased(i, dropped) && (ok ==> Running(c, flat) || flat <= U32_MAX)))
  }

  // An update means what it says exactly when the bit of the timer is not aliased, and the payload of a timer armed
  // anew tells it.
  lemma UpdateMeans(i: Ids, flat: nat, h: nat, expiration: nat, due: nat)
    requires Matched(i) && flat < |i.slots| && h !in StopAll(i, {flat}).timers
    ensures Matched(Update(i, flat, h, expiration, due)) <==> Running(i, flat) || flat <= U32_MAX
    ensures ArmedOf(Update(i, flat, h, expiration, due)) == ArmedOf(i)[flat := Timer(flat, expiration, due)]
            <==> Unaliased(i, {flat}) && (Running(i, flat) || flat <= U32_MAX)
  {
    hide Matched, StopAll, ArmedOf, StartAt, Retime, Payload;
    StopClears(i, flat);
    PayloadTells(flat);
    if Running(i, flat) {
      RetimeMatched(i, flat, expiration, due);
    } else {
      StopMeans(i, flat);
      assert Unaliased(i, {flat});
      MatchedBounded(i);
      StopBounded(i, {flat});
      var timer := Timer(Payload(flat), expiration, due);
      StartMatched(StopAll(i, {flat}), flat, h, timer);
      assert (ArmedOf(i) - {flat})[flat := timer] == ArmedOf(i)[flat := timer];
      assert ArmedOf(i)[flat := timer][flat] == timer;
    }
  }

  // Updating keeps the bijection exactly when the claim of the slot does, and the payload of a timer armed anew tells
  // it.
  lemma UpdateMatched(i: Ids, tps: nat, generations: seq<nat>, slot: nat, generation: nat, flat: nat, h: nat,
                      expiration: nat, due: nat)
    requires Matched(i)
    requires var c := Claimed(i, tps, generations, slot, generation);
             && flat < |c.slots| && h !in StopAll(c, {flat}).timers
             && (slot < |generations| && generations[slot] != generation ==> flat !in c.bits && Bounded(c))
    ensures var c := Claimed(i, tps, generations, slot, generation);
            Matched(Update(c, flat, h, expiration, due)) <==>
            && Unaliased(i, Dropped(tps, generations, slot, generation))
            && (Running(c, flat) || flat <= U32_MAX)
  {
    var c := Claimed(i, tps, generations, slot, generation);
    hide Matched, StopAll, ArmedOf, StartAt, Retime, Claimed, Flats, Payload;
    ClaimMatched(i, tps, generations, slot, generation);
    if Matched(c) {
      UpdateMeans(c, flat, h, expiration, due);
    } else {
      assert slot < |generations| && generations[slot] != generation;
      StopNothing(c, {flat});
      StartMatched(c, flat, h, Timer(Payload(flat), expiration, due));
    }
  }

  // In a slot just claimed for a new generation no bit is set.
  lemma ClaimClears(i: Ids, tps: nat, generations: seq<nat>, slot: nat, generation: nat, id: nat)
    requires id < tps && slot < |generations| && generations[slot] != generation && Bounded(i)
    ensures Base(tps, slot) + id !in Claimed(i, tps, generations, slot, generation).bits
    ensures Bounded(Claimed(i, tps, generations, slot, generation))
  {
    hide Base;
    Bases(tps, slot + 1, slot);
    assert Base(tps, slot) + id in Flats(Base(tps, slot), Base(tps, slot + 1));
    GrownSame(i, Base(tps, slot + 1));
    StopBounded(Grown(i, Base(tps, slot + 1)), Dropped(tps, generations, slot, generation));
  }

  // ---- a run that needs the condition

  // Arming a timer whose bit is clear, in a slot that keeps its generation, stops nothing.
  lemma StopsNothing(i: Ids, generations: seq<nat>, flat: nat)
    requires flat !in i.bits && (generations == [] || generations[0] == 0)
    ensures Disarmed(i, 2, generations, 0, 0, flat) == Grown(i, 2)
  {
    StopNothing(Grown(i, 2), {});
    StopNothing(Grown(i, 2), {flat});
  }

  // On one ring of two slots a timer for one tick is due in the next tick.
  lemma NextTick(tick: nat)
    requires tick < U64_MAX
    ensures var g := Geometry(1, 2, false, false);
            && g.Valid() && g.Heads() == 2 && g.Accepts(tick, 1)
            && DueTick(g, tick, 1) == tick + 1
  {
    OnTimeIffPunctual(Geometry(1, 2, false, false), tick, 1);
  }

  lemma BothMatched()
    ensures Matched(Ids([2, INVALID_INDEX], {0}, {0}, map[]))
    ensures Matched(Ids([2, 2], {0, 1}, {0}, map[2 := Timer(1, 2, 2)]))
  {
  }

  // Timer 0 is armed, expires and is not collected.
  method ExpiredEntry() returns (ids: TimerIds)
    ensures fresh(ids) && fresh(ids.wheel) && ids.Valid() && ids.timersPerSlot == 2 && ids.slotGenerations == [0]
    ensures ids.wheel.g == Geometry(1, 2, false, false) && ids.wheel.currentTick == 1 && |ids.wheel.entries| == 3
    ensures ids.Tables() == Ids([2, INVALID_INDEX], {0}, {0}, map[]) && Matched(ids.Tables())
  {
    hide TimerWheel.Valid, Bounded, DueTick, Matched, StopAll, Disarmed, FiredUpTo, ArmedOf, Unaliased;
    NextTick(0);
    ids := new TimerIds(Geometry(1, 2, false, false), 0, 2);
    ghost var i := ids.Tables();
    StopsNothing(i, [], 0);
    var first, h := ids.ArmTimer(0, 0, 0, 1);
    ids.wheel.EntryBounds();
    ghost var j := ids.Tables();
    assert j == Ids([2, INVALID_INDEX], {0}, {}, map[2 := Timer(0, 1, 1)]);
    var out, count, fired := ids.Expire(1, []);
    FiredSet(j.timers, ids.wheel.timers, [], out, fired, 1);
    assert ids.Tables() == Ids([2, INVALID_INDEX], {0}, {0}, map[]);
    BothMatched();
  }

  // Then timer 1 is armed and gets the same wheel entry.
  method ReusedEntry() returns (ids: TimerIds)
    ensures fresh(ids) && fresh(ids.wheel) && ids.Valid() && Matched(ids.Tables()) && ids.timersPerSlot == 2
    ensures ids.slotGenerations == [0] && ids.Tables() == Ids([2, 2], {0, 1}, {0}, map[2 := Timer(1, 2, 2)])
  {
    hide TimerWheel.Valid, Bounded, DueTick, Matched, StopAll, Disarmed, ArmedOf, Unaliased;
    NextTick(1);
    ids := ExpiredEntry();
    ghost var i := ids.Tables();
    StopsNothing(i, [0], 1);
    ids.wheel.EntryBounds();
    var second, k := ids.ArmTimer(0, 0, 1, 1);
    ids.wheel.EntryBounds();
    assert ids.Tables() == Ids([2, 2], {0, 1}, {0}, map[2 := Timer(1, 2, 2)]);
    BothMatched();
  }

  // Cancelling timer 0, which has already expired, then stops timer 1: its bit stays set, though nothing runs for it.
  method CancelStopsAnother() returns (ids: TimerIds, cancelled: bool)
    ensures fresh(ids) && ids.Valid() && cancelled
    ensures ids.wheel.timers == map[] && ids.timerBitmap == {1} && ids.uncollected == {}
    ensures Lost(ids.Tables(), 1) && !Matched(ids.Tables())
  {
    hide TimerWheel.Valid, StopAll, ArmedOf;
    ids := ReusedEntry();
    ghost var i := ids.Tables();
    assert !Unaliased(i, {0});
    StopOne(i, 0);
    cancelled := ids.CancelTimer(0, 0, 0);
  }
}
