// The tables that name timers by flat index: a set bit points at a wheel entry, which may meanwhile be gone or reused.
module TimerIdTables {
  import opened Common
  import opened TimerArena
  import opened TimerRuns

  // `slots[flat]` is the entry of flat index `flat` while its bit is set; `due` are the set bits whose payload was
  // handed out by expire and not collected yet.
  datatype Ids = Ids(slots: seq<nat>, bits: set<nat>, due: set<nat>, timers: map<nat, Timer<nat>>)

  ghost predicate Bounded(i: Ids) {
    i.due <= i.bits && forall flat :: flat in i.bits ==> flat < |i.slots|
  }

  // Set bits that are not waiting to be collected are in bijection with the wheel's timers.
  ghost predicate Matched(i: Ids) {
    && Bounded(i)
    && (forall flat :: flat in i.bits && flat !in i.due ==>
          i.slots[flat] in i.timers && i.timers[i.slots[flat]].payload == flat)
    && (forall h :: h in i.timers ==>
          i.timers[h].payload in i.bits && i.timers[h].payload !in i.due && i.slots[i.timers[h].payload] == h)
  }

  // The timers that are armed, by flat index.
  ghost function ArmedOf(i: Ids): map<nat, Timer<nat>> {
    map flat | flat in i.bits && flat !in i.due && flat < |i.slots| && i.slots[flat] in i.timers ::
        i.timers[i.slots[flat]]
  }

  // ---- stopping

  ghost function Cleared(slots: seq<nat>, hit: set<nat>): seq<nat> {
    seq(|slots|, flat requires 0 <= flat < |slots| => if flat in hit then INVALID_INDEX else slots[flat])
  }

  ghost function Handles(slots: seq<nat>, hit: set<nat>): set<nat> {
    set flat | flat in hit && flat < |slots| :: slots[flat]
  }

  // The set bits among `touched` are cleared, and whatever runs at their entries is stopped.
  ghost function StopAll(i: Ids, touched: set<nat>): Ids {
    var hit := touched * i.bits;
    Ids(Cleared(i.slots, hit), i.bits - hit, i.due - hit, i.timers - Handles(i.slots, hit))
  }

  // No uncollected bit among `touched` points at an entry that meanwhile runs a timer of someone else.
  ghost predicate Unaliased(i: Ids, touched: set<nat>) {
    forall flat :: flat in touched && flat in i.due && flat < |i.slots| && i.slots[flat] in i.timers ==>
                     i.timers[i.slots[flat]].payload in touched
  }

  lemma StopBounded(i: Ids, touched: set<nat>)
    requires Bounded(i)
    ensures Bounded(StopAll(i, touched))
  {
  }

  // Stopping keeps the bijection exactly when no uncollected bit is aliased: otherwise a timer is stopped whose bit
  // stays set.
  lemma StopMatched(i: Ids, touched: set<nat>)
    requires Matched(i)
    ensures Matched(StopAll(i, touched)) <==> Unaliased(i, touched)
  {
    hide Cleared, Handles;
    if Unaliased(i, touched) {
      StopKeeps(i, touched);
    } else {
      StopLoses(i, touched);
    }
  }

  lemma StopKeeps(i: Ids, touched: set<nat>)
    requires Matched(i) && Unaliased(i, touched)
    ensures Matched(StopAll(i, touched)) && ArmedOf(StopAll(i, touched)) == ArmedOf(i) - touched
  {
    var hit, j := touched * i.bits, StopAll(i, touched);
    forall flat | flat in j.bits && flat !in j.due ensures j.slots[flat] in j.timers && j.slots[flat] == i.slots[flat] {
      assert flat !in touched;
      assert forall f :: f in hit && f < |i.slots| ==> i.slots[f] != i.slots[flat];
    }
    assert forall h :: h in i.timers && i.timers[h].payload in hit ==> h in Handles(i.slots, hit);
  }

  lemma StopLoses(i: Ids, touched: set<nat>)
    requires Matched(i) && !Unaliased(i, touched)
    ensures exists lost :: lost in ArmedOf(i) && lost !in touched && Lost(StopAll(i, touched), lost)
  {
    var hit, j := touched * i.bits, StopAll(i, touched);
    var f :| f in touched && f in i.due && f < |i.slots| && i.slots[f] in i.timers
        && i.timers[i.slots[f]].payload !in touched;
    var lost := i.timers[i.slots[f]].payload;
    assert f in hit && i.slots[f] in Handles(i.slots, hit);
    assert lost in ArmedOf(i) && Lost(j, lost);
  }

  // A bit that is set and not awaited, though no timer runs for it.
  ghost predicate Lost(i: Ids, flat: nat) {
    flat in i.bits && flat !in i.due && flat < |i.slots| && i.slots[flat] !in i.timers
  }

  lemma StopTwice(i: Ids, a: set<nat>, b: set<nat>)
    requires Bounded(i)
    ensures StopAll(StopAll(i, a), b) == StopAll(i, a + b)
  {
    var j, k := StopAll(i, a), StopAll(i, a + b);
    var hit, more, all := a * i.bits, b * j.bits, (a + b) * i.bits;
    assert all == hit + more;
    assert Cleared(j.slots, more) == k.slots;
    assert i.bits - hit - more == i.bits - all;
    assert i.due - hit - more == i.due - all;
    HandlesSplit(i.slots, hit, more);
    assert i.timers - Handles(i.slots, hit) - Handles(j.slots, more) == i.timers - Handles(i.slots, all);
  }

  lemma HandlesSplit(slots: seq<nat>, hit: set<nat>, more: set<nat>)
    requires hit !! more
    ensures Handles(slots, hit + more) == Handles(slots, hit) + Handles(Cleared(slots, hit), more)
  {
    var next := Cleared(slots, hit);
    assert forall flat :: flat in more && flat < |slots| ==> next[flat] == slots[flat];
    forall h | h in Handles(slots, hit + more) ensures h in Handles(slots, hit) + Handles(next, more) {
      var flat :| flat in hit + more && flat < |slots| && slots[flat] == h;
      assert flat in more ==> next[flat] == h;
    }
    forall h | h in Handles(next, more) ensures h in Handles(slots, hit + more) {
      var flat :| flat in more && flat < |next| && next[flat] == h;
      assert slots[flat] == h && flat in hit + more;
    }
  }

  // Bits that are not set are not stopped.
  lemma StopNothing(i: Ids, touched: set<nat>)
    requires touched !! i.bits
    ensures StopAll(i, touched) == i
  {
    assert touched * i.bits == {};
    assert Cleared(i.slots, {}) == i.slots;
  }

  lemma StopOne(i: Ids, flat: nat)
    requires Bounded(i) && flat in i.bits
    ensures StopAll(i, {flat})
            == Ids(i.slots[flat := INVALID_INDEX], i.bits - {flat}, i.due - {flat}, i.timers - {i.slots[flat]})
  {
    assert {flat} * i.bits == {flat};
    assert Cleared(i.slots, {flat}) == i.slots[flat := INVALID_INDEX];
    assert Handles(i.slots, {flat}) == {i.slots[flat]};
  }

  lemma StopClears(i: Ids, flat: nat)
    ensures flat !in StopAll(i, {flat}).bits && |StopAll(i, {flat}).slots| == |i.slots|
  {
  }

  // Stopping one timer: what the answer of the wheel means.
  lemma StopMeans(i: Ids, flat: nat)
    requires Matched(i)
    ensures Matched(StopAll(i, {flat})) <==> Unaliased(i, {flat})
    ensures Unaliased(i, {flat}) ==> ArmedOf(StopAll(i, {flat})) == ArmedOf(i) - {flat}
    ensures flat in i.bits && Unaliased(i, {flat}) ==> (i.slots[flat] in i.timers <==> flat in ArmedOf(i))
    ensures flat !in i.bits ==> flat !in ArmedOf(i) && Unaliased(i, {flat})
  {
    StopMatched(i, {flat});
    if Unaliased(i, {flat}) { StopKeeps(i, {flat}); }
  }

  // ---- starting, updating, growing

  ghost function StartAt(i: Ids, flat: nat, h: nat, timer: Timer<nat>): Ids
    requires flat < |i.slots|
  {
    Ids(i.slots[flat := h], i.bits + {flat}, i.due - {flat}, i.timers[h := timer])
  }

  // The payload of a timer has 32 bits.
  function Payload(flat: nat): nat {
    flat % (U32_MAX + 1)
  }

  lemma PayloadTells(flat: nat)
    ensures Payload(flat) == flat <==> flat <= U32_MAX
  {
  }

  // Starting keeps the bijection exactly when the payload tells the flat index.
  lemma StartMatched(i: Ids, flat: nat, h: nat, timer: Timer<nat>)
    requires Bounded(i) && flat !in i.bits && flat < |i.slots| && h !in i.timers
    ensures Bounded(StartAt(i, flat, h, timer))
    ensures Matched(StartAt(i, flat, h, timer)) <==> Matched(i) && timer.payload == flat
    ensures Matched(i) ==> ArmedOf(StartAt(i, flat, h, timer)) == ArmedOf(i)[flat := timer]
  {
    hide Matched, ArmedOf;
    var j := StartAt(i, flat, h, timer);
    if Matched(i) {
      StartArmed(i, flat, h, timer);
      if timer.payload == flat { StartKeeps(i, flat, h, timer); }
    }
    if Matched(j) { StartNeeds(i, flat, h, timer); }
  }

  lemma StartKeeps(i: Ids, flat: nat, h: nat, timer: Timer<nat>)
    requires Matched(i) && flat !in i.bits && flat < |i.slots| && h !in i.timers && timer.payload == flat
    ensures Matched(StartAt(i, flat, h, timer))
  {
  }

  lemma StartNeeds(i: Ids, flat: nat, h: nat, timer: Timer<nat>)
    requires Bounded(i) && flat !in i.bits && flat < |i.slots| && h !in i.timers
    requires Matched(StartAt(i, flat, h, timer))
    ensures Matched(i) && timer.payload == flat
  {
    var j := StartAt(i, flat, h, timer);
    assert flat in j.bits && flat !in j.due && j.slots[flat] == h;
    forall f | f in i.bits && f !in i.due ensures i.slots[f] in i.timers && i.timers[i.slots[f]].payload == f {
      assert f in j.bits && f !in j.due && j.slots[f] == i.slots[f];
    }
    forall k | k in i.timers
      ensures i.timers[k].payload in i.bits && i.timers[k].payload !in i.due && i.slots[i.timers[k].payload] == k
    {
      assert k in j.timers && j.timers[k] == i.timers[k];
    }
  }

  lemma StartArmed(i: Ids, flat: nat, h: nat, timer: Timer<nat>)
    requires Matched(i) && flat !in i.bits && flat < |i.slots| && h !in i.timers
    ensures ArmedOf(StartAt(i, flat, h, timer)) == ArmedOf(i)[flat := timer]
  {
    var j := StartAt(i, flat, h, timer);
    assert forall f :: f in i.bits ==> j.slots[f] == i.slots[f];
  }

  // The timer that runs at the entry of a set bit gets a new expiration, whoever it belongs to.
  ghost function Retime(i: Ids, flat: nat, expiration: nat, due: nat): Ids
    requires flat < |i.slots| && i.slots[flat] in i.timers
  {
    i.(timers := i.timers[i.slots[flat] := Timer(i.timers[i.slots[flat]].payload, expiration, due)])
  }

  lemma RetimeMatched(i: Ids, flat: nat, expiration: nat, due: nat)
    requires Matched(i) && flat in i.bits && i.slots[flat] in i.timers
    ensures Matched(Retime(i, flat, expiration, due))
    ensures ArmedOf(Retime(i, flat, expiration, due)) == ArmedOf(i)[flat := Timer(flat, expiration, due)]
            <==> Unaliased(i, {flat})
  {
    var j := Retime(i, flat, expiration, due);
    assert Matched(j);
    if flat in i.due {
      assert flat !in ArmedOf(j) && !Unaliased(i, {flat});
    } else {
      assert ArmedOf(j) == ArmedOf(i)[flat := Timer(flat, expiration, due)];
    }
  }

  ghost function Grown(i: Ids, n: nat): Ids {
    if n <= |i.slots| then i else i.(slots := i.slots + seq(n - |i.slots|, _ => INVALID_INDEX))
  }

  lemma GrownSame(i: Ids, n: nat)
    requires Bounded(i)
    ensures Bounded(Grown(i, n)) && |Grown(i, n).slots| == if n <= |i.slots| then |i.slots| else n
    ensures (Matched(Grown(i, n)) <==> Matched(i)) && ArmedOf(Grown(i, n)) == ArmedOf(i)
    ensures forall touched :: Unaliased(Grown(i, n), touched) <==> Unaliased(i, touched)
  {
    var j := Grown(i, n);
    assert forall flat :: flat in i.bits ==> j.slots[flat] == i.slots[flat];
    forall touched ensures Unaliased(j, touched) <==> Unaliased(i, touched) {
      assert forall flat :: flat in i.due ==> flat < |i.slots| && j.slots[flat] == i.slots[flat];
    }
  }

  // ---- expiring and collecting

  ghost function Gone(timers: map<nat, Timer<nat>>, fired: seq<nat>): set<nat> {
    set h | h in fired && h in timers :: timers[h].payload
  }

  ghost function ExpireAll(i: Ids, fired: seq<nat>): Ids {
    i.(due := i.due + Gone(i.timers, fired) * i.bits, timers := i.timers - Elements(fired))
  }

  // Flat indices of armed timers due by `tick`, and the armed timers due later.
  ghost function DueBy(armed: map<nat, Timer<nat>>, tick: nat): set<nat> {
    set flat | flat in armed && armed[flat].due <= tick
  }

  ghost function LaterThan(armed: map<nat, Timer<nat>>, tick: nat): map<nat, Timer<nat>> {
    map flat | flat in armed && armed[flat].due > tick :: armed[flat]
  }

  lemma ExpireMatched(i: Ids, fired: seq<nat>, tick: nat)
    requires Matched(i) && forall h :: h in fired <==> h in i.timers && i.timers[h].due <= tick
    ensures Matched(ExpireAll(i, fired)) && ArmedOf(ExpireAll(i, fired)) == LaterThan(ArmedOf(i), tick)
    ensures ExpireAll(i, fired).due == i.due + DueBy(ArmedOf(i), tick)
  {
    hide Matched, ArmedOf, Gone, DueBy, LaterThan;
    GoneAreDue(i, fired, tick);
    var gone := Gone(i.timers, fired);
    assert gone * i.bits == gone;
    ExpiredMatched(i, fired, tick);
    ExpiredArmed(i, fired, tick);
  }

  lemma GoneAreDue(i: Ids, fired: seq<nat>, tick: nat)
    requires Matched(i) && forall h :: h in fired <==> h in i.timers && i.timers[h].due <= tick
    ensures Gone(i.timers, fired) == DueBy(ArmedOf(i), tick) && Gone(i.timers, fired) <= i.bits
  {
    var gone, armed := Gone(i.timers, fired), ArmedOf(i);
    forall flat | flat in armed && armed[flat].due <= tick ensures flat in gone {
      assert i.slots[flat] in fired && i.timers[i.slots[flat]].payload == flat;
    }
    forall flat | flat in gone ensures flat in DueBy(armed, tick) {
      var h :| h in fired && h in i.timers && i.timers[h].payload == flat;
    }
  }

  lemma ExpiredMatched(i: Ids, fired: seq<nat>, tick: nat)
    requires Matched(i) && forall h :: h in fired <==> h in i.timers && i.timers[h].due <= tick
    requires Gone(i.timers, fired) == DueBy(ArmedOf(i), tick) && Gone(i.timers, fired) * i.bits == Gone(i.timers, fired)
    ensures Matched(ExpireAll(i, fired))
  {
    hide Gone, ArmedOf;
    var j, armed := ExpireAll(i, fired), ArmedOf(i);
    forall flat | flat in i.bits && flat !in i.due
      ensures flat in armed && armed[flat] == i.timers[i.slots[flat]]
    {
      ArmedIs(i, flat);
    }
    assert forall h :: h in i.timers ==> (h in j.timers <==> armed[i.timers[h].payload].due > tick);
  }

  lemma ArmedIs(i: Ids, flat: nat)
    requires Matched(i) && flat in i.bits && flat !in i.due
    ensures flat in ArmedOf(i) && ArmedOf(i)[flat] == i.timers[i.slots[flat]]
  {
  }

  lemma ExpiredArmed(i: Ids, fired: seq<nat>, tick: nat)
    requires Matched(i) && forall h :: h in fired <==> h in i.timers && i.timers[h].due <= tick
    requires Gone(i.timers, fired) == DueBy(ArmedOf(i), tick) && Gone(i.timers, fired) * i.bits == Gone(i.timers, fired)
    ensures ArmedOf(ExpireAll(i, fired)) == LaterThan(ArmedOf(i), tick)
  {
    hide Gone;
    var j, armed := ExpireAll(i, fired), ArmedOf(i);
    forall flat | flat in armed ensures i.slots[flat] in j.timers <==> armed[flat].due > tick {
      assert i.slots[flat] in i.timers;
    }
  }

  // take_expired_timer clears the bit and leaves the wheel alone.
  ghost function TakeOne(i: Ids, flat: nat): Ids {
    Ids(Cleared(i.slots, {flat}), i.bits - {flat}, i.due - {flat}, i.timers)
  }

  // Collecting keeps the bijection exactly when the payload is awaited; otherwise a running timer loses its bit.
  lemma TakeMatched(i: Ids, flat: nat)
    requires Matched(i) && flat in i.bits
    ensures Matched(TakeOne(i, flat)) <==> flat in i.due
    ensures flat in i.due ==> ArmedOf(TakeOne(i, flat)) == ArmedOf(i)
  {
    var j := TakeOne(i, flat);
    if flat !in i.due {
      assert i.slots[flat] in j.timers && j.timers[i.slots[flat]].payload !in j.bits;
    } else {
      assert forall f :: f in j.bits ==> j.slots[f] == i.slots[f];
    }
  }
}
