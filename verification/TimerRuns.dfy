// The timer wheel seen from outside: which timers run, and what a whole run of operations does to one timer.
module TimerRuns {
  import opened Common

  // A running timer: what it carries, the tick asked for, and the tick in which it will fire.
  datatype Timer<+T> = Timer(payload: T, expiration: nat, due: nat)

  datatype Wheel<+T> = Wheel(tick: nat, timers: map<nat, Timer<T>>)

  datatype Event<+T> =
    | Started(handle: nat, timer: Timer<T>)
    | Updated(handle: nat, timer: Timer<T>)
    | Stopped(handle: nat)
    | Ticked(fired: seq<nat>)

  // One operation of the wheel, as its methods promise it.
  ghost predicate Next<T>(a: Wheel<T>, event: Event<T>, b: Wheel<T>) {
    match event
    case Started(h, timer) =>
      h !in a.timers && timer.due > a.tick && b == a.(timers := a.timers[h := timer])
    case Updated(h, timer) =>
      h in a.timers && timer.due > a.tick && b == a.(timers := a.timers[h := timer])
    case Stopped(h) =>
      h in a.timers && b == a.(timers := a.timers - {h})
    case Ticked(fired) =>
      && b.tick == a.tick + 1
      && Distinct(fired)
      && (forall h :: h in fired <==> h in a.timers && a.timers[h].due == b.tick)
      && b.timers == a.timers - Elements(fired)
  }

  ghost predicate Run<T>(states: seq<Wheel<T>>, events: seq<Event<T>>) {
    && |states| == |events| + 1
    && states[0].timers == map[]
    && forall k :: 0 <= k < |events| ==> Next(states[k], events[k], states[k + 1])
  }

  ghost predicate Fired<T>(event: Event<T>, h: nat) {
    event.Ticked? && h in event.fired
  }

  // From event i on, nobody stops, restarts or updates timer h before event j.
  ghost predicate LeftAlone<T>(events: seq<Event<T>>, h: nat, i: nat, j: nat) {
    forall k :: i < k < j < |events| + 1 ==> events[k].Ticked? || events[k].handle != h
  }

  lemma {:induction false} AllDueLater<T>(states: seq<Wheel<T>>, events: seq<Event<T>>, j: nat)
    requires Run(states, events) && j <= |events|
    ensures forall h :: h in states[j].timers ==> states[j].timers[h].due > states[j].tick
  {
    if j > 0 {
      AllDueLater(states, events, j - 1);
      assert Next(states[j - 1], events[j - 1], states[j]);
    }
  }

  // A timer that is left alone waits until its due tick, fires in exactly that tick, and never again.
  lemma {:induction false} FiresExactlyOnce<T>(states: seq<Wheel<T>>, events: seq<Event<T>>, h: nat, i: nat, j: nat)
    requires Run(states, events) && i < j <= |events|
    requires (events[i].Started? || events[i].Updated?) && events[i].handle == h && LeftAlone(events, h, i, j)
    ensures var due := events[i].timer.due;
            if states[j].tick < due then
              && h in states[j].timers && states[j].timers[h] == events[i].timer
              && (forall k :: i < k < j ==> !Fired(events[k], h))
            else
              && h !in states[j].timers
              && exists k :: (i < k < j && Fired(events[k], h) && states[k + 1].tick == due
                              && forall l :: i < l < j && Fired(events[l], h) ==> l == k)
    decreases j - i
  {
    var due := events[i].timer.due;
    assert Next(states[j - 1], events[j - 1], states[j]);
    if j > i + 1 {
      FiresExactlyOnce(states, events, h, i, j - 1);
      var k := j - 1;
      assert events[k].Ticked? || events[k].handle != h;
      if states[k].tick < due {
        if states[j].tick == due {
          assert Fired(events[k], h) && states[k + 1].tick == due;
        }
      } else {
        assert !Fired(events[k], h);
      }
    }
  }
}
