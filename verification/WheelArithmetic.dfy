// The arithmetic of the hierarchical timer wheel: geometry, mixed-radix offsets with carries,
// the tick at which a placed timer really fires, and when that is the tick that was asked for.
// Rings have `slots` slots; the source's masks and shifts are written as % and /.
module WheelArithmetic {
  import opened Arithmetic
  import opened Common

  datatype Geometry = Geometry(wheels: nat, slots: nat, fastBitmap: bool, overflow: bool) {
    predicate Valid() {
      1 <= wheels <= 3 && 0 < slots <= U32_MAX && Horizon() <= U64_MAX
    }

    // slots ^ wheels
    function Horizon(): nat {
      if wheels == 1 then slots else if wheels == 2 then slots * slots else slots * slots * slots
    }

    function MaxDirectInterval(): int {
      if wheels == 1 then slots else Horizon() - 1
    }

    predicate Overflows() {
      overflow && wheels == 3
    }

    // Number of ring slots, hence the index of the overflow list head.
    function Rings(): nat {
      if wheels == 1 then slots else if wheels == 2 then 2 * slots else 3 * slots
    }

    function Heads(): nat {
      Rings() + if overflow then 1 else 0
    }

    predicate Accepts(tick: nat, interval: nat) {
      0 < interval && tick + interval <= U64_MAX && (!Overflows() ==> interval <= MaxDirectInterval())
    }

    predicate ShouldOverflow(tick: nat, interval: nat)
      requires Valid()
    {
      && Overflows()
      && var sum := interval + tick % Horizon();
         (if sum <= U64_MAX then sum else U64_MAX) >= Horizon()
    }
  }

  // The geometries that are allowed: one to three rings, and a horizon of slots ^ wheels ticks within 64 bits.
  lemma AllowedGeometries(g: Geometry)
    ensures g.Valid() <==> 1 <= g.wheels <= 3 && 0 < g.slots <= U32_MAX && Power(g.slots, g.wheels) <= U64_MAX
  {
    var s := g.slots;
    assert Power(s, 1) == s * Power(s, 0) == s;
    assert Power(s, 2) == s * s;
    assert Power(s, 3) == s * (s * s);
    Associate(s, s, s);
  }

  // What start accepts: with the overflow list every interval that leaves the tick in range; without it
  // every interval below slots ^ wheels, and on a single ring a whole turn too.
  lemma AcceptedIntervals(g: Geometry, tick: nat, interval: nat)
    requires g.Valid()
    ensures g.Accepts(tick, interval) <==>
            && 0 < interval && tick + interval <= U64_MAX
            && ((g.wheels == 3 && g.overflow)
                || interval < Power(g.slots, g.wheels)
                || (g.wheels == 1 && interval == g.slots))
  {
    var s := g.slots;
    assert Power(s, 1) == s * Power(s, 0) == s;
    assert Power(s, 2) == s * s;
    assert Power(s, 3) == s * (s * s);
    Associate(s, s, s);
  }

  // x / s^r
  function Quot(s: nat, r: nat, x: nat): nat
    requires s > 0
  {
    if r == 0 then x else if r == 1 then x / s else if r == 2 then x / s / s else x / s / s / s
  }

  function Digit(s: nat, r: nat, x: nat): nat
    requires s > 0
  {
    Quot(s, r, x) % s
  }

  // The ring indices are the low digits of the tick; unused rings stay at 0.
  ghost predicate InStep(g: Geometry, index: seq<nat>, tick: nat)
    requires g.Valid()
  {
    && |index| == 3
    && forall r :: 0 <= r < 3 ==> index[r] == if r < g.wheels then Digit(g.slots, r, tick) else 0
  }

  // How many units of `unit` fit, and what is left over.
  function TakeOff(remaining: nat, unit: nat): (nat, nat)
    requires unit > 0
  {
    Rest(unit, remaining);
    (remaining / unit, remaining - (remaining / unit) * unit)
  }

  // The first half of timer_offsets: the interval cut into (fast, slow, glacier) parts.
  function IntervalParts(g: Geometry, interval: nat): (r: (nat, nat, nat))
    requires g.Valid()
  {
    var s := g.slots;
    var (glacier, left) := if g.wheels > 2 then TakeOff(interval, s * s) else (0, interval);
    var (slow, left') := if g.wheels > 1 then TakeOff(left, s) else (0, left);
    (left' % s, slow, glacier)
  }

  // The second half: the ring indices are added with carries.
  function AddIndices(g: Geometry, parts: (nat, nat, nat), index: seq<nat>): (r: (nat, nat, nat))
    requires g.Valid() && |index| == 3
  {
    var s := g.slots;
    var fast := parts.0 + index[0];
    var carry0 := if fast >= s then 1 else 0;
    var slow := if g.wheels > 1 then parts.1 + index[1] + carry0 else 0;
    var carry1 := if slow >= s then 1 else 0;
    var glacier := if g.wheels > 2 then parts.2 + index[2] + carry1 else 0;
    (fast % s, slow % s, glacier % s)
  }

  // timer_offsets: (fast, slow, glacier)
  function TimerOffsets(g: Geometry, index: seq<nat>, interval: nat): (r: (nat, nat, nat))
    requires g.Valid() && |index| == 3
  {
    AddIndices(g, IntervalParts(g, interval), index)
  }

  // The ring place_timer_direct picks.
  function RingFor(g: Geometry, tick: nat, expiration: nat): nat
    requires g.Valid()
  {
    if g.wheels > 2 && Digit(g.slots, 2, expiration) != Digit(g.slots, 2, tick) then 2
    else if g.wheels > 1 && Digit(g.slots, 1, expiration) != Digit(g.slots, 1, tick) then 1
    else 0
  }

  // s^(r+1)
  function Turn(s: nat, r: nat): nat {
    if r == 0 then s else if r == 1 then s * s else s * s * s
  }

  // The first tick after `tick` at which ring r arrives at the slot of `e` and the lower digits are those of `e`.
  function FirstVisit(s: nat, r: nat, tick: nat, e: nat): int
    requires s > 0
    decreases r
  {
    if r == 0 then e - ((e - tick - 1) / s) * s
    else FirstVisit(s, r - 1, tick / s, e / s) * s + e % s
  }

  // The tick in which a timer started at `tick` for `interval` really fires.
  function DueTick(g: Geometry, tick: nat, interval: nat): int
    requires g.Valid()
  {
    var e := tick + interval;
    if g.ShouldOverflow(tick, interval) then e else FirstVisit(g.slots, RingFor(g, tick, e), tick, e)
  }

  // What a caller can check before starting a timer: the interval stays inside the wheel's current turn.
  predicate Punctual(g: Geometry, tick: nat, interval: nat)
    requires g.Valid()
  {
    || g.wheels == 1
    || g.Overflows()
    || interval + tick % Turn(g.slots, g.wheels - 2) < g.Horizon()
  }

  // The first tick of a turn of ring r.
  predicate Aligned(s: nat, r: nat, tick: nat)
    requires s > 0
  {
    (r > 0 ==> tick % s == 0) && (r > 1 ==> tick / s % s == 0) && (r > 2 ==> tick / s / s % s == 0)
  }

  // Distance, in slots of ring r, from the current position to where a timer due at `due` waits.
  // At stage r + 1 ring r may still hold timers whose slot has just come up.
  predicate Gap(s: nat, r: nat, tick: nat, due: nat, stage: nat)
    requires s > 0
  {
    var d := Quot(s, r, due) - Quot(s, r, tick);
    && (1 <= d || (d == 0 && r < stage && Aligned(s, r, tick)))
    && (r < 3 ==> d <= if r > 0 || stage > 0 then s - 1 else s)
  }

  // A timer due at `due` may sit in the list with head `home`.
  predicate Placed(g: Geometry, tick: nat, due: nat, home: nat, fastOffset: nat, slowOffset: nat, stage: nat)
    requires g.Valid()
  {
    var s := g.slots;
    if home < s then
      home == Digit(s, 0, due) && Gap(s, 0, tick, due, stage)
    else if g.wheels > 1 && home < 2 * s then
      home - s == Digit(s, 1, due) && fastOffset == Digit(s, 0, due) && Gap(s, 1, tick, due, stage)
    else if g.wheels > 2 && home < 3 * s then
      && home - 2 * s == Digit(s, 2, due)
      && slowOffset == Digit(s, 1, due) && fastOffset == Digit(s, 0, due)
      && Gap(s, 2, tick, due, stage)
    else
      home == g.Rings() && g.Overflows() && Gap(s, 3, tick, due, stage)
  }

  // ---- division facts

  lemma Rest(m: nat, x: nat)
    requires m > 0
    ensures x - (x / m) * m == x % m < m
  {
  }

  lemma DivMono(s: nat, x: nat, y: nat)
    requires s > 0 && x <= y
    ensures x / s <= y / s
  {
    MulMono(s, x / s, y / s);
  }

  lemma MulMono(s: nat, p: nat, q: nat)
    requires s > 0
    ensures p > q ==> s * p >= s * q + s
  {
    assert p > q ==> s * p >= s * (q + 1);
  }

  lemma AddDigits(s: nat, x: nat, y: nat, c: nat)
    requires s > 0 && c <= 1
    ensures var low := x % s + y % s + c;
            && (x + y + c) / s == x / s + y / s + (if low >= s then 1 else 0)
            && (x + y + c) % s == low % s
  {
    var low := x % s + y % s + c;
    var carry := if low >= s then 1 else 0;
    assert x + y + c == s * (x / s + y / s + carry) + (low - s * carry) by {
      assert s * (x / s + y / s + carry) == s * (x / s) + s * (y / s) + s * carry;
    }
    Quotient(x + y + c, s, x / s + y / s + carry, low - s * carry);
    Quotient(low, s, carry, low - s * carry);
  }

  lemma SubTurns(s: nat, x: nat, m: nat)
    requires s > 0 && m * s <= x
    ensures (x - m * s) / s == x / s - m && (x - m * s) % s == x % s
  {
    assert x - m * s == s * (x / s - m) + x % s;
    Quotient(x - m * s, s, x / s - m, x % s);
  }

  lemma DivDiv(s: nat, t: nat, x: nat)
    requires s > 0 && t > 0
    ensures s * t > 0 && x / (s * t) == x / s / t && x % (s * t) == s * (x / s % t) + x % s
  {
    var q, r := x / s, x % s;
    var d, u := q / t, q % t;
    TwoDigits(x, s, t, q, r, d, u);
    Quotient(x, s * t, d, s * u + r);
  }

  // ---- timer_offsets computes the digits of the expiration tick

  lemma OffsetsAreDigits(g: Geometry, index: seq<nat>, tick: nat, interval: nat)
    requires g.Valid() && InStep(g, index, tick)
    ensures var (f, sl, gl) := TimerOffsets(g, index, interval);
            && f == Digit(g.slots, 0, tick + interval)
            && sl == (if g.wheels > 1 then Digit(g.slots, 1, tick + interval) else 0)
            && gl == (if g.wheels > 2 then Digit(g.slots, 2, tick + interval) else 0)
  {
    var s := g.slots;
    PartsAreDigits(g, interval);
    var p := IntervalParts(g, interval);
    assert index[0] == Digit(s, 0, tick);
    AddDigits(s, interval, tick, 0);
    var c0 := if p.0 + index[0] >= s then 1 else 0;
    assert (tick + interval) / s == tick / s + (interval / s + c0);
    if g.wheels == 2 {
      assert index[1] == Digit(s, 1, tick);
      ModAdd(s, tick / s, interval / s + c0);
    } else if g.wheels == 3 {
      assert index[1] == Digit(s, 1, tick) && index[2] == Digit(s, 2, tick);
      AddDigits(s, interval / s, tick / s, c0);
      var c1 := if p.1 + index[1] + c0 >= s then 1 else 0;
      assert (tick + interval) / s / s == tick / s / s + (interval / s / s + c1);
      ModAdd(s, tick / s / s, interval / s / s + c1);
    }
  }

  lemma PartsAreDigits(g: Geometry, interval: nat)
    requires g.Valid()
    ensures var s := g.slots;
            var p := IntervalParts(g, interval);
            && p.0 == interval % s
            && (g.wheels == 2 ==> p.1 == interval / s)
            && (g.wheels == 3 ==> p.1 == interval / s % s && p.2 == interval / s / s)
  {
    var s := g.slots;
    if g.wheels == 2 {
      Rest(s, interval);
      Quotient(interval % s, s, 0, interval % s);
    } else if g.wheels == 3 {
      Rest(s * s, interval);
      DivDiv(s, s, interval);
      var left := interval % (s * s);
      Quotient(left, s, interval / s % s, interval % s);
      Rest(s, left);
      Quotient(interval % s, s, 0, interval % s);
    }
  }

  // (x + y) mod s needs only x mod s
  lemma ModAdd(s: nat, x: nat, y: nat)
    requires s > 0
    ensures (x + y) % s == (x % s + y) % s
  {
    var z := x % s + y;
    assert x + y == s * (x / s + z / s) + z % s by {
      assert s * (x / s + z / s) == s * (x / s) + s * (z / s);
    }
    Quotient(x + y, s, x / s + z / s, z % s);
  }

  // ---- where a timer is put, and when it fires

  // The list place_timer_direct puts a timer into.
  function HomeFor(g: Geometry, tick: nat, expiration: nat): nat
    requires g.Valid()
  {
    var r := RingFor(g, tick, expiration);
    (if r == 0 then 0 else if r == 1 then g.slots else 2 * g.slots) + Digit(g.slots, r, expiration)
  }

  // The branches of place_timer_direct pick that list.
  lemma OffsetsChooseHome(g: Geometry, index: seq<nat>, tick: nat, interval: nat)
    requires g.Valid() && InStep(g, index, tick)
    ensures var (f, sl, gl) := TimerOffsets(g, index, interval);
            var e, s := tick + interval, g.slots;
            && f == Digit(s, 0, e) < s && (g.wheels > 1 ==> sl == Digit(s, 1, e) < s)
               && (g.wheels > 2 ==> gl == Digit(s, 2, e) < s)
            && HomeFor(g, tick, e) ==
               if g.wheels > 2 && gl != index[2] then 2 * s + gl
               else if g.wheels > 1 && sl != index[1] then s + sl
               else f
  {
    OffsetsAreDigits(g, index, tick, interval);
    assert forall r :: 0 <= r < g.wheels ==> index[r] == Digit(g.slots, r, tick);
  }

  lemma QuotMono(s: nat, r: nat, x: nat, y: nat)
    requires s > 0 && x <= y
    ensures Quot(s, r, x) <= Quot(s, r, y)
  {
    DivMono(s, x, y);
    DivMono(s, x / s, y / s);
    DivMono(s, x / s / s, y / s / s);
  }

  // A difference splits into a quotient difference and a digit difference.
  lemma Difference(s: nat, x: nat, y: nat)
    requires s > 0
    ensures x - y == s * (x / s - y / s) + (x % s - y % s)
    ensures x / s == y / s ==> x - y < s
    ensures x - y == s ==> x % s == y % s
  {
    assert s * (x / s - y / s) == s * (x / s) - s * (y / s);
    if x - y == s {
      SubTurns(s, x, 1);
    }
  }

  lemma VisitFacts(s: nat, r: nat, tick: nat, e: nat)
    requires s > 0 && r < 3 && Quot(s, r, tick) < Quot(s, r, e)
    ensures var due := FirstVisit(s, r, tick, e);
            && tick < due <= e
            && Quot(s, r, tick) < Quot(s, r, due) <= Quot(s, r, tick) + s
            && Digit(s, 0, due) == Digit(s, 0, e)
            && (r > 0 ==> Digit(s, 1, due) == Digit(s, 1, e))
            && (r > 1 ==> Digit(s, 2, due) == Digit(s, 2, e))
            && (due == e <==> Quot(s, r, e) <= Quot(s, r, tick) + s)
  {
    hide Quot, Digit, FirstVisit;
    VisitOrder(s, r, tick, e);
    VisitDigits(s, r, tick, e);
  }

  lemma {:induction false} VisitOrder(s: nat, r: nat, tick: nat, e: nat)
    requires s > 0 && r < 3 && Quot(s, r, tick) < Quot(s, r, e)
    ensures var due := FirstVisit(s, r, tick, e);
            && tick < due <= e
            && Quot(s, r, tick) < Quot(s, r, due) <= Quot(s, r, tick) + s
            && (due == e <==> Quot(s, r, e) <= Quot(s, r, tick) + s)
    decreases r
  {
    hide Quot, Digit, FirstVisit, Above;
    DigitUp(s, r, tick);
    DigitUp(s, r, e);
    if r == 0 {
      VisitBase(s, tick, e);
    } else {
      VisitOrder(s, r - 1, Above(s, tick), Above(s, e));
      VisitUp(s, r, tick, e);
    }
    DigitUp(s, r, FirstVisit(s, r, tick, e));
  }

  lemma {:induction false} VisitDigits(s: nat, r: nat, tick: nat, e: nat)
    requires s > 0 && r < 3 && Quot(s, r, tick) < Quot(s, r, e) && FirstVisit(s, r, tick, e) >= 0
    ensures var due := FirstVisit(s, r, tick, e);
            && Digit(s, 0, due) == Digit(s, 0, e)
            && (r > 0 ==> Digit(s, 1, due) == Digit(s, 1, e))
            && (r > 1 ==> Digit(s, 2, due) == Digit(s, 2, e))
    decreases r
  {
    hide Quot, Digit, FirstVisit, Above;
    DigitUp(s, r, tick);
    DigitUp(s, r, e);
    if r == 0 {
      VisitBase(s, tick, e);
    } else {
      VisitOrder(s, r - 1, Above(s, tick), Above(s, e));
      VisitDigits(s, r - 1, Above(s, tick), Above(s, e));
      VisitUp(s, r, tick, e);
    }
    DigitUp(s, r, FirstVisit(s, r, tick, e));
  }

  lemma VisitBase(s: nat, tick: nat, e: nat)
    requires s > 0 && tick < e
    ensures var due := FirstVisit(s, 0, tick, e);
            && tick < due <= e && due <= tick + s && Digit(s, 0, due) == Digit(s, 0, e)
            && (due == e <==> e <= tick + s)
  {
    VisitFast(s, tick, e);
  }

  lemma VisitUp(s: nat, r: nat, tick: nat, e: nat)
    requires s > 0 && r > 0 && Above(s, tick) < FirstVisit(s, r - 1, Above(s, tick), Above(s, e)) <= Above(s, e)
    ensures var due, upper := FirstVisit(s, r, tick, e), FirstVisit(s, r - 1, Above(s, tick), Above(s, e));
            && tick < due <= e && Above(s, due) == upper && Digit(s, 0, due) == Digit(s, 0, e)
            && (due == e <==> upper == Above(s, e))
  {
    Refill(s, tick, e, FirstVisit(s, r - 1, tick / s, e / s));
  }

  // The digits above the lowest.
  function Above(s: nat, x: nat): nat
    requires s > 0
  {
    x / s
  }

  // A higher digit is a lower digit of the rest.
  lemma DigitUp(s: nat, r: nat, x: nat)
    requires s > 0 && r < 3
    ensures Quot(s, 0, x) == x
    ensures r > 0 ==> Quot(s, r, x) == Quot(s, r - 1, Above(s, x)) && Digit(s, 1, x) == Digit(s, 0, Above(s, x))
    ensures r > 1 ==> Digit(s, 2, x) == Digit(s, 1, Above(s, x))
  {
  }

  // Putting the low digit back under a new upper part.
  lemma Refill(s: nat, tick: nat, e: nat, upper: nat)
    requires s > 0 && tick / s < upper <= e / s
    ensures var due := upper * s + e % s;
            && tick < due <= e && due / s == upper && due % s == e % s
            && (due == e <==> upper == e / s)
  {
    var due := upper * s + e % s;
    Quotient(due, s, upper, e % s);
    Later(s, tick, due);
    if upper < e / s { Later(s, due, e); }
  }

  lemma VisitFast(s: nat, tick: nat, e: nat)
    requires s > 0 && tick < e
    ensures var due := e - ((e - tick - 1) / s) * s;
            && tick < due <= e && due <= tick + s && due % s == e % s
            && (due == e <==> e <= tick + s)
  {
    var d := e - tick - 1;
    Rest(s, d);
    SubTurns(s, e, d / s);
    if d < s {
      Quotient(d, s, 0, d);
    } else {
      DivMono(s, s, d);
      Quotient(s, s, 1, 0);
      assert d / s >= 1;
      assert (d / s) * s >= s;
    }
  }

  lemma Later(s: nat, x: nat, y: nat)
    requires s > 0 && x / s < y / s
    ensures x < y
  {
    if y <= x { DivMono(s, y, x); }
  }

  // place_timer_direct puts a timer where it will be met first at its due tick.
  lemma DuePlaced(g: Geometry, tick: nat, interval: nat)
    requires g.Valid() && 0 < interval && !g.ShouldOverflow(tick, interval)
    ensures var e, due := tick + interval, DueTick(g, tick, interval);
            && tick < due <= e
            && Placed(g, tick, due, HomeFor(g, tick, e), Digit(g.slots, 0, e), Digit(g.slots, 1, e), 0)
            && HomeFor(g, tick, e) < g.Rings()
  {
    var s, e := g.slots, tick + interval;
    var r := RingFor(g, tick, e);
    QuotMono(s, r, tick, e);
    VisitFacts(s, r, tick, e);
    var due := DueTick(g, tick, interval);
    if r > 0 {
      Difference(s, Quot(s, r, due), Quot(s, r, tick));
    }
  }

  // ---- on time, exactly when the interval stays inside the current turn

  // (x + y) / m grows past x / m exactly when the remainder carries.
  lemma Carry(m: nat, x: nat, y: nat)
    requires m > 0
    ensures (x + y) / m == x / m + (x % m + y) / m
    ensures (x + y) / m > x / m <==> x % m + y >= m
  {
    var z := x % m + y;
    assert x + y == m * (x / m + z / m) + z % m by {
      assert m * (x / m + z / m) == m * (x / m) + m * (z / m);
    }
    Quotient(x + y, m, x / m + z / m, z % m);
    if z < m { Quotient(z, m, 0, z); } else { DivMono(m, m, z); Quotient(m, m, 1, 0); }
  }

  // z / m < s exactly when z < s * m
  lemma Below(m: nat, s: nat, z: nat)
    requires m > 0
    ensures z / m < s <==> z < s * m
    ensures z < s * m + m ==> z / m <= s
  {
    Rest(m, z);
    MulMono(m, z / m, s);
    assert z / m < s ==> (z / m) * m + m <= s * m by {
      MulMono(m, s, z / m);
    }
  }

  lemma OverflowIff(g: Geometry, tick: nat, interval: nat)
    requires g.Valid() && g.Overflows()
    ensures g.ShouldOverflow(tick, interval) <==> Quot(g.slots, 3, tick + interval) > Quot(g.slots, 3, tick)
  {
    var s := g.slots;
    Carry(g.Horizon(), tick, interval);
    Cube(s, tick);
    Cube(s, tick + interval);
  }

  lemma Cube(s: nat, x: nat)
    requires s > 0
    ensures s * s > 0 && s * s * s > 0 && x / (s * s * s) == x / s / s / s
  {
    DivDiv(s, s, x);
    DivDiv(s * s, s, x);
  }

  // Equal upper parts make the trip shorter than one turn of the ring chosen.
  lemma SameTurn(g: Geometry, tick: nat, e: nat, k: nat)
    requires g.Valid() && tick < e && 1 <= k <= g.wheels
    requires Quot(g.slots, k, e) == Quot(g.slots, k, tick)
    ensures var r := RingFor(g, tick, e);
            && Quot(g.slots, r + 1, e) == Quot(g.slots, r + 1, tick)
            && Quot(g.slots, r, tick) < Quot(g.slots, r, e) < Quot(g.slots, r, tick) + g.slots
            && FirstVisit(g.slots, r, tick, e) == e
  {
    var s, r := g.slots, RingFor(g, tick, e);
    SameAbove(g, tick, e, k);
    QuotMono(s, r, tick, e);
    SameUpper(s, Quot(s, r, e), Quot(s, r, tick));
    VisitFacts(s, r, tick, e);
  }

  lemma SameAbove(g: Geometry, tick: nat, e: nat, k: nat)
    requires g.Valid() && 1 <= k <= g.wheels && Quot(g.slots, k, e) == Quot(g.slots, k, tick)
    ensures var r := RingFor(g, tick, e);
            Quot(g.slots, r + 1, e) == Quot(g.slots, r + 1, tick) && (r > 0 ==> r < k)
    decreases k
  {
    var s := g.slots;
    if k > 1 && Digit(s, k - 1, e) == Digit(s, k - 1, tick) {
      SameUpper(s, Quot(s, k - 1, e), Quot(s, k - 1, tick));
      SameAbove(g, tick, e, k - 1);
    }
  }

  lemma SameUpper(s: nat, x: nat, y: nat)
    requires s > 0
    ensures x / s == y / s ==> x - y == x % s - y % s && x < y + s
    ensures x == y ==> x / s == y / s
  {
    Rest(s, x);
    Rest(s, y);
  }

  lemma SameTurnPlaced(g: Geometry, tick: nat, e: nat, stage: nat)
    requires g.Valid() && tick < e && Quot(g.slots, g.wheels, e) == Quot(g.slots, g.wheels, tick)
    ensures Placed(g, tick, e, HomeFor(g, tick, e), Digit(g.slots, 0, e), Digit(g.slots, 1, e), stage)
    ensures HomeFor(g, tick, e) < g.Rings()
  {
    SameTurn(g, tick, e, g.wheels);
  }

  // A gap of a whole turn above is more than a turn below.
  lemma WiderBelow(s: nat, x: nat, y: nat)
    requires s >= 2 && x / s >= y / s + s
    ensures x > y + s
  {
    Difference(s, x, y);
    var d := x / s - y / s;
    assert s * d >= s * s by { assert s * (d - s) >= 0; }
    assert s * s >= 2 * s by { assert s * (s - 2) >= 0; }
  }

  lemma TopGap(g: Geometry, tick: nat, interval: nat)
    requires g.Valid() && g.wheels > 1 && !g.Overflows() && g.Accepts(tick, interval)
    ensures var k, e := g.wheels - 1, tick + interval;
            && g.slots >= 2
            && Quot(g.slots, k, tick) <= Quot(g.slots, k, e) <= Quot(g.slots, k, tick) + g.slots
            && (Punctual(g, tick, interval) <==> Quot(g.slots, k, e) < Quot(g.slots, k, tick) + g.slots)
  {
    var s, k := g.slots, g.wheels - 1;
    var m := Turn(s, g.wheels - 2);
    assert m > 0 && s * m == g.Horizon() by { assert s * (s * s) == s * s * s; }
    DivDiv(s, s, tick);
    DivDiv(s, s, tick + interval);
    Carry(m, tick, interval);
    Below(m, s, tick % m + interval);
    QuotMono(s, k, tick, tick + interval);
    Rest(m, tick);
  }

  // The wheel fires a timer in the tick asked for exactly when the interval is punctual; never later.
  lemma OnTimeIffPunctual(g: Geometry, tick: nat, interval: nat)
    requires g.Valid() && g.Accepts(tick, interval)
    ensures tick < DueTick(g, tick, interval) <= tick + interval
    ensures DueTick(g, tick, interval) == tick + interval <==> Punctual(g, tick, interval)
  {
    var s, e := g.slots, tick + interval;
    var r := RingFor(g, tick, e);
    if g.Overflows() {
      OverflowIff(g, tick, interval);
      if !g.ShouldOverflow(tick, interval) {
        QuotMono(s, 3, tick, e);
        SameTurn(g, tick, e, 3);
      }
    } else {
      DuePlaced(g, tick, interval);
      QuotMono(s, r, tick, e);
      if g.wheels == 1 {
        VisitFacts(s, 0, tick, e);
      } else {
        TopGap(g, tick, interval);
        NoOverflowOnTime(g, tick, interval);
      }
    }
  }

  lemma NoOverflowOnTime(g: Geometry, tick: nat, interval: nat)
    requires g.Valid() && g.wheels > 1 && !g.Overflows() && g.slots >= 2 && 0 < interval
    requires var k, e := g.wheels - 1, tick + interval;
             Quot(g.slots, k, tick) <= Quot(g.slots, k, e) <= Quot(g.slots, k, tick) + g.slots
    ensures var k, e := g.wheels - 1, tick + interval;
            DueTick(g, tick, interval) == e <==> Quot(g.slots, k, e) < Quot(g.slots, k, tick) + g.slots
  {
    var s, e, k := g.slots, tick + interval, g.wheels - 1;
    var r := RingFor(g, tick, e);
    Difference(s, Quot(s, k, e), Quot(s, k, tick));
    if Quot(s, k, e) == Quot(s, k, tick) {
      SameTurn(g, tick, e, k);
    } else if Quot(s, k, e) < Quot(s, k, tick) + s {
      assert r == k by {
        if Digit(s, k, e) == Digit(s, k, tick) { CloseDigits(s, Quot(s, k, e), Quot(s, k, tick)); }
      }
      VisitFacts(s, k, tick, e);
    } else {
      assert r < k;
      WiderBelow(s, if k == 1 then e else e / s, if k == 1 then tick else tick / s);
      if k == 2 { WiderBelow(s, e, tick); }
      VisitFacts(s, r, tick, e);
    }
  }

  // Two numbers with the same low digit are at least s apart.
  lemma CloseDigits(s: nat, x: nat, y: nat)
    requires s > 0 && x % s == y % s && y <= x < y + s
    ensures x == y
  {
    var d := x / s - y / s;
    Difference(s, x, y);
    assert (d >= 1 ==> s * d >= s) && (d <= -1 ==> s * d + s <= 0);
  }

  // An accepted interval that is not punctual: on two rings of 32 slots, 1023 ticks asked for at tick 1
  // elapse after 31 ticks.
  lemma EarlyExample()
    ensures var g := Geometry(2, 32, false, false);
            g.Valid() && g.Accepts(1, 1023) && !Punctual(g, 1, 1023) && DueTick(g, 1, 1023) == 32
  {
    assert FirstVisit(32, 0, 1, 1024) == 32;
  }

  // ---- one tick of the clock

  lemma TickDigits(s: nat, x: nat)
    requires s > 0
    ensures (x + 1) % s == (if x % s + 1 == s then 0 else x % s + 1)
    ensures (x + 1) / s == x / s + (if x % s + 1 == s then 1 else 0)
    ensures (x + 1) % s == 0 <==> x % s + 1 == s
  {
    if x % s + 1 == s {
      Quotient(x + 1, s, x / s + 1, 0);
    } else {
      Quotient(x + 1, s, x / s, x % s + 1);
    }
  }

  // Ring r steps exactly in the ticks that are aligned for it.
  lemma TickQuot(s: nat, r: nat, tick: nat)
    requires s > 0 && r <= 3
    ensures Quot(s, r, tick + 1) == Quot(s, r, tick) + if Aligned(s, r, tick + 1) then 1 else 0
  {
    TickDigits(s, tick);
    if (tick + 1) % s == 0 {
      TickDigits(s, tick / s);
      if (tick + 1) / s % s == 0 {
        TickDigits(s, tick / s / s);
      }
    }
  }

  // When the clock moves on, only timers whose slot has just come up lose their distance.
  lemma TickKeepsPlaced(g: Geometry, tick: nat, due: nat, home: nat, f: nat, sl: nat)
    requires g.Valid() && Placed(g, tick, due, home, f, sl, 0)
    ensures Placed(g, tick + 1, due, home, f, sl, 4)
  {
    var s := g.slots;
    TickQuot(s, if home < s then 0 else if g.wheels > 1 && home < 2 * s then 1
                else if g.wheels > 2 && home < 3 * s then 2 else 3, tick);
  }

  // A timer in the slot that has just come up shares the ring position with the clock.
  lemma Ripe(s: nat, r: nat, tick: nat, due: nat, stage: nat)
    requires s > 0 && r < 3 && stage > 0 && Gap(s, r, tick, due, stage)
    requires Digit(s, r, due) == Digit(s, r, tick)
    ensures Quot(s, r, due) == Quot(s, r, tick)
  {
    CloseDigits(s, Quot(s, r, due), Quot(s, r, tick));
  }

  // The list of ring r that has just come up; for r == 3 the overflow list.
  function RipeHead(g: Geometry, r: nat, tick: nat): nat
    requires g.Valid()
  {
    if r == 3 then g.Rings()
    else (if r == 0 then 0 else if r == 1 then g.slots else 2 * g.slots) + Digit(g.slots, r, tick)
  }

  // Once the list that came up is empty, or when nothing came up, ring r is settled.
  lemma Settled(g: Geometry, r: nat, tick: nat, due: nat, home: nat, f: nat, sl: nat)
    requires g.Valid() && r <= 3 && Placed(g, tick, due, home, f, sl, r + 1)
    requires home != RipeHead(g, r, tick) || !Aligned(g.slots, r, tick)
    ensures Placed(g, tick, due, home, f, sl, r)
  {
  }

  // cascade_glacier and cascade_slow: one digit less to wait for.
  lemma Cascade(s: nat, r: nat, tick: nat, due: nat, stage: nat)
    requires s > 0 && 1 <= r < 3 && Aligned(s, r, tick) && Quot(s, r, due) == Quot(s, r, tick)
    ensures Digit(s, r - 1, tick) == 0
    ensures Quot(s, r - 1, due) == Quot(s, r - 1, tick) + Digit(s, r - 1, due)
    ensures Digit(s, r - 1, due) != 0 ==> Gap(s, r - 1, tick, due, stage)
  {
    SameUpper(s, Quot(s, r - 1, due), Quot(s, r - 1, tick));
    Rest(s, Quot(s, r - 1, due));
  }

  // At the first tick of a horizon nothing of this or a later horizon is in the past.
  lemma NotPast(s: nat, tick: nat, due: nat)
    requires s > 0 && Aligned(s, 3, tick) && Quot(s, 3, due) >= Quot(s, 3, tick)
    ensures due >= tick
  {
    if due < tick {
      TickQuot(s, 3, tick - 1);
      QuotMono(s, 3, due, tick - 1);
    }
  }

  // Ring indices after one tick, as advance_ring leaves them.
  lemma IndicesStep(g: Geometry, index: seq<nat>, tick: nat)
    requires g.Valid() && InStep(g, index, tick)
    ensures var s := g.slots;
            var i0 := Advanced(s, index[0]);
            var w0 := index[0] + 1 == s;
            var i1 := if w0 && g.wheels > 1 then Advanced(s, index[1]) else index[1];
            var w1 := w0 && g.wheels > 1 && index[1] + 1 == s;
            var i2 := if w1 && g.wheels > 2 then Advanced(s, index[2]) else index[2];
            var w2 := w1 && g.wheels > 2 && index[2] + 1 == s;
            && InStep(g, [i0, i1, i2], tick + 1)
            && (w0 <==> Aligned(s, 1, tick + 1))
            && (g.wheels > 1 ==> (w1 <==> Aligned(s, 2, tick + 1)))
            && (g.wheels > 2 ==> (w2 <==> Aligned(s, 3, tick + 1)))
  {
    var s := g.slots;
    assert forall r :: 0 <= r < g.wheels ==> index[r] == Digit(s, r, tick);
    TickDigits(s, tick);
    if (tick + 1) % s == 0 {
      TickDigits(s, tick / s);
      if (tick + 1) / s % s == 0 {
        TickDigits(s, tick / s / s);
      }
    }
  }

  function Advanced(s: nat, i: nat): nat {
    if i + 1 == s then 0 else i + 1
  }

  // What waits in a slower ring is due after the next wrap of the fast ring.
  lemma NextWrap(s: nat, tick: nat, due: nat, r: nat)
    requires s > 0 && 1 <= r <= 3 && Quot(s, r, due) > Quot(s, r, tick)
    ensures due >= tick + s - Digit(s, 0, tick)
  {
    if due / s <= tick / s {
      DivMono(s, due / s, tick / s);
      DivMono(s, due / s / s, tick / s / s);
    }
    Rest(s, tick);
    Rest(s, due);
    MulMono(s, due / s, tick / s);
  }

  function SlotAfter(s: nat, current: nat, offset: nat): nat
    requires s > 0
  {
    (current + offset) % s
  }

  // When none of the next `offset` slots is in the bitmap, no slot of it is nearer.
  lemma Nearest(s: nat, current: nat, offset: nat, bitmap: set<nat>)
    requires current < s && offset <= s
    requires forall k :: 0 <= k < offset ==> SlotAfter(s, current, k) !in bitmap
    ensures forall slot :: slot in bitmap && slot < s ==>
              offset <= if slot >= current then slot - current else slot + s - current
  {
    forall slot | slot in bitmap && slot < s
      ensures offset <= if slot >= current then slot - current else slot + s - current
    {
      var d := if slot >= current then slot - current else slot + s - current;
      Quotient(current + d, s, if slot >= current then 0 else 1, slot);
      assert SlotAfter(s, current, d) == slot;
    }
  }
}
