/**
 End-to-end runs of the fake clock, as a test would drive it: create a
 waiter, move time, and look at what its channel holds.
 Durations are in abstract units: where the repository's tests use an
 interval of 100 milliseconds (TestInterval), these runs use 100 units; no
 result depends on the scale.
 */
module Scenarios {
  import opened Util
  import opened FakeClocks
  import FakeTickers
  import FakeTimers

  /** A dispatch pass moves a registered ticker by its catch-up loop and
      keeps it registered. */
  lemma SetMovesTicker(c: Clock, id: Id, t: Instant)
    requires WellFormed(c) && IsTicker(c, id) && id in c.registry
    ensures IsTicker(Set(c, t), id) && id in Set(c, t).registry
    ensures Set(c, t).waiters[id].ticker == FakeTickers.CatchUp(c.waiters[id].ticker, t)
  {
    assert Set(c, t).waiters[id] == Step(c.waiters[id], t).0;
  }

  /** A dispatch pass runs a registered timer's callback once, and keeps it
      registered exactly when the callback asks to continue; an unregistered
      timer is untouched. */
  lemma SetMovesTimer(c: Clock, id: Id, t: Instant)
    requires WellFormed(c) && IsTimer(c, id)
    ensures IsTimer(Set(c, t), id)
    ensures id in c.registry ==>
      && Set(c, t).waiters[id].timer == FakeTimers.OnUpdate(c.waiters[id].timer, t).0
      && (id in Set(c, t).registry <==> FakeTimers.OnUpdate(c.waiters[id].timer, t).1 == ContinueUpdates)
    ensures id !in c.registry ==> Set(c, t).waiters[id] == c.waiters[id] && id !in Set(c, t).registry
  {
    if id in c.registry {
      assert Set(c, t).waiters[id] == Step(c.waiters[id], t).0;
    }
  }

  /** A ticker with a period of 100 units started at t0: half a period delivers nothing, a full
      period delivers t0 + 100, and the next tick is then due at t0 + 200. */
  lemma TickerFirstTick(t0: Instant)
    ensures
      var (c1, id) := NewTicker(NewFakeClock(t0), 100).value;
      var c2 := Add(c1, 50).0;
      var c3 := Add(c2, 50).0;
      && Buffered(c2, id) == None
      && WellFormed(c3) && IsTicker(c3, id) && id in c3.registry && Now(c3) == t0 + 100
      && c3.waiters[id].ticker == FakeTickers.Ticker(100, t0 + 200, Some(t0 + 100))
  {
    var (c1, id) := NewTicker(NewFakeClock(t0), 100).value;
    assert c1.waiters[id].ticker == FakeTickers.Ticker(100, t0 + 100, None);
    SetMovesTicker(c1, id, t0 + 50);
    var c2 := Add(c1, 50).0;
    assert c2.waiters[id].ticker == c1.waiters[id].ticker;
    SetMovesTicker(c2, id, t0 + 100);
  }

  /** A ticker with a period of 100 units and an empty channel, whose next tick
      is 100 units away: a
      jump of three periods leaves a single value, the earliest due instant,
      and the schedule keeps its phase, so one more period delivers the
      instant four periods from the start. */
  lemma TickerCatchUp(c: Clock, id: Id)
    requires WellFormed(c) && IsTicker(c, id) && id in c.registry
    requires c.waiters[id].ticker == FakeTickers.Ticker(100, Now(c) + 100, None)
    ensures
      var c5 := Add(c, 300).0;
      var (c6, v) := Drain(c5, id);
      var c7 := Add(c6, 100).0;
      && v == Some(Now(c) + 100)
      && Buffered(c7, id) == Some(Now(c) + 400)
  {
    var k := c.waiters[id].ticker;
    SetMovesTicker(c, id, Now(c) + 300);
    var c5 := Add(c, 300).0;
    FakeTickers.CatchUpClosedForm(k, Now(c) + 300);
    assert FakeTickers.DueTicks(k, Now(c) + 300) == 3;
    assert c5.waiters[id].ticker == FakeTickers.Ticker(100, Now(c) + 400, Some(Now(c) + 100));
    var (c6, v) := Drain(c5, id);
    SetMovesTicker(c6, id, Now(c) + 400);
  }

  /** The same ticker, with the clock set back before its start and moved
      forward again: it stays silent while time re-crosses the instant it
      already ticked for, and signals again when its next tick comes. */
  lemma TickerRewind(c: Clock, id: Id)
    requires WellFormed(c) && IsTicker(c, id) && id in c.registry
    requires c.waiters[id].ticker == FakeTickers.Ticker(100, Now(c) + 100, None)
    ensures
      var c5 := Set(c, Now(c) - 1100);
      var c6 := Add(c5, 1000).0;
      var c7 := Add(c6, 100).0;
      var c8 := Add(c7, 100).0;
      && Buffered(c5, id) == None && Buffered(c6, id) == None && Buffered(c7, id) == None
      && Buffered(c8, id) == Some(Now(c) + 100)
  {
    var k := c.waiters[id].ticker;
    SetMovesTicker(c, id, Now(c) - 1100);
    var c5 := Set(c, Now(c) - 1100);
    assert c5.waiters[id].ticker == k;
    SetMovesTicker(c5, id, Now(c) - 100);
    var c6 := Add(c5, 1000).0;
    assert c6.waiters[id].ticker == k;
    SetMovesTicker(c6, id, Now(c));
    var c7 := Add(c6, 100).0;
    assert c7.waiters[id].ticker == k;
    SetMovesTicker(c7, id, Now(c) + 100);
  }

  /** A timer due in 100 units: Stop reports true, a Reset right after reports false and
      re-arms it from the Reset, so it fires when the clock reaches t0 + 200
      and not at t0 + 100, delivering the instant it fired at. */
  lemma TimerStopThenReset(t0: Instant)
    ensures
      var (c1, id) := NewTimer(NewFakeClock(t0), 100);
      var (c2, stopped) := TimerStop(c1, id);
      var (c3, reset) := TimerReset(c2, id, 200);
      var c4 := Add(c3, 100).0;
      var c5 := Add(c4, 100).0;
      && stopped && !reset
      && Buffered(c4, id) == None
      && Buffered(c5, id) == Some(t0 + 200)
  {
    StopThenResetRearms(t0);
    var (c1, id) := NewTimer(NewFakeClock(t0), 100);
    var (c2, stopped) := TimerStop(c1, id);
    var (c3, reset) := TimerReset(c2, id, 200);
    TimerRunsToTarget(c3, id);
  }

  /** The first steps of TimerStopThenReset: Stop on the new timer reports
      true, and the Reset right after reports false and re-arms it for
      t0 + 200. */
  lemma StopThenResetRearms(t0: Instant)
    ensures
      var (c1, id) := NewTimer(NewFakeClock(t0), 100);
      var (c2, stopped) := TimerStop(c1, id);
      var (c3, reset) := TimerReset(c2, id, 200);
      && stopped && !reset
      && WellFormed(c3) && Now(c3) == t0 && IsTimer(c3, id) && id in c3.registry
      && c3.waiters[id].timer == FakeTimers.Timer(t0 + 200, false, FakeTimers.Channel(None))
  {
    var (c1, id) := NewTimer(NewFakeClock(t0), 100);
    var (c2, stopped) := TimerStop(c1, id);
    assert c2.waiters[id].timer.fired && id !in c2.registry;
  }

  /** A registered channel timer due 200 units from now with an empty channel:
      after 100 units its channel is still empty, and after 200 units it holds the
      instant the timer was due. */
  lemma TimerRunsToTarget(c: Clock, id: Id)
    requires WellFormed(c) && IsTimer(c, id) && id in c.registry
    requires c.waiters[id].timer == FakeTimers.Timer(Now(c) + 200, false, FakeTimers.Channel(None))
    ensures
      var c4 := Add(c, 100).0;
      var c5 := Add(c4, 100).0;
      && Buffered(c4, id) == None
      && Buffered(c5, id) == Some(Now(c) + 200)
  {
    var k := c.waiters[id].timer;
    SetMovesTimer(c, id, Now(c) + 100);
    var c4 := Add(c, 100).0;
    assert c4.waiters[id].timer == k && id in c4.registry;
    SetMovesTimer(c4, id, Now(c) + 200);
  }

  /** A channel timer that has fired, with its channel drained: Stop reports
      false, a Reset reports false and re-arms it, and a second Reset reports
      true and moves its target to 100 units from now. */
  lemma TimerRearmAfterFiring(c: Clock, id: Id)
    requires WellFormed(c) && IsTimer(c, id)
    requires c.waiters[id].timer.fired && c.waiters[id].timer.sink == FakeTimers.Channel(None)
    ensures
      var (c1, stopped) := TimerStop(c, id);
      var (c2, reset1) := TimerReset(c1, id, 300);
      var (c3, reset2) := TimerReset(c2, id, 100);
      && !stopped && !reset1 && reset2
      && WellFormed(c3) && IsTimer(c3, id) && id in c3.registry && Now(c3) == Now(c)
      && c3.waiters[id].timer == FakeTimers.Timer(Now(c) + 100, false, FakeTimers.Channel(None))
  {
    var (c1, stopped) := TimerStop(c, id);
    assert c1.waiters[id].timer == c.waiters[id].timer;
    var (c2, reset1) := TimerReset(c1, id, 300);
    assert c2.waiters[id].timer == FakeTimers.Timer(Now(c) + 300, false, FakeTimers.Channel(None));
    assert id in c2.registry;
  }

  /** A timer due 100 units from now fires when the clock gets there, delivering
      that instant; after the value is received, a Reset to a negative
      duration reports false and delivers the current instant at once. */
  lemma TimerFireThenNegativeReset(c: Clock, id: Id)
    requires WellFormed(c) && IsTimer(c, id) && id in c.registry
    requires c.waiters[id].timer == FakeTimers.Timer(Now(c) + 100, false, FakeTimers.Channel(None))
    ensures
      var c4 := Add(c, 100).0;
      var (c5, v) := Drain(c4, id);
      var (c6, reset3) := TimerReset(c5, id, -3600);
      && v == Some(Now(c) + 100)
      && !reset3 && Buffered(c6, id) == Some(Now(c) + 100)
  {
    SetMovesTimer(c, id, Now(c) + 100);
    var c4 := Add(c, 100).0;
    assert c4.waiters[id].timer == FakeTimers.Timer(Now(c) + 100, true, FakeTimers.Channel(Some(Now(c) + 100)));
  }
}
