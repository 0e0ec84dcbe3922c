/**
 A periodic ticker driven by a fake clock. Its schedule `next` only moves
 forward by whole periods; when time jumps over several periods the
 catch-up loop offers every due instant to the one-slot channel, so only
 the earliest one is kept if the channel was empty and the rest are dropped.
 */
module FakeTickers {
  import opened Util
  import Listeners

  /** `next` is the earliest instant at which the next tick should fire. */
  datatype Ticker = Ticker(tick: Duration, next: Instant, slot: Slot)

  /** A ticker with period `tick` started at `start`; a non-positive period
      panics. */
  function NewFakeTicker(tick: Duration, start: Instant): (r: Result<Ticker>)
    ensures r.Panic? <==> tick <= 0
    ensures r.Ok? ==> r.value.tick == tick && r.value.next - start == tick
    ensures r.Ok? ==> r.value.slot.None?
  {
    if tick <= 0 then Panic else Ok(Ticker(tick, start + tick, None))
  }

  /** The catch-up loop of the advance callback: while `now` has reached
      `next`, offer `next` to the channel and move `next` on by one period.
      It ends with `next` just past `now`, and never more than one period past
      it; CatchUpClosedForm shows it moves by whole periods. */
  function CatchUp(t: Ticker, now: Instant): (r: Ticker)
    requires 0 < t.tick
    ensures r.tick == t.tick
    ensures now < r.next
    ensures t.next <= r.next
    ensures t.next <= now ==> r.next - t.tick <= now
    ensures now < t.next ==> r == t
    ensures t.next <= now && t.slot.None? ==> r.slot == Some(t.next)
    ensures t.slot.Some? ==> r.slot == t.slot
    decreases now - t.next
  {
    if EqualOrAfter(now, t.next) then
      CatchUp(t.(slot := SendTime(t.slot, t.next), next := t.next + t.tick), now)
    else
      t
  }

  /** The number of instants of the schedule t.next, t.next + tick, ... that
      are due at `now`. */
  function DueTicks(t: Ticker, now: Instant): nat
    requires 0 < t.tick
  {
    if now < t.next then 0 else (now - t.next) / t.tick + 1
  }

  /** Closed form of the catch-up loop: it consumes exactly the due instants
      of the schedule. */
  lemma {:induction false} CatchUpClosedForm(t: Ticker, now: Instant)
    requires 0 < t.tick
    ensures CatchUp(t, now).next == t.next + DueTicks(t, now) * t.tick
    decreases now - t.next
  {
    if t.next <= now {
      var t' := t.(slot := SendTime(t.slot, t.next), next := t.next + t.tick);
      CatchUpClosedForm(t', now);
      if now < t'.next {
        assert (now - t.next) / t.tick == 0;
      } else {
        assert (now - t.next) / t.tick == (now - t'.next) / t.tick + 1 by {
          DivShift(now - t'.next, t.tick);
        }
      }
    }
  }

  /** Dividing a + b by b gives one more than dividing a by b. */
  lemma DivShift(a: int, b: int)
    requires 0 <= a && 0 < b
    ensures (a + b) / b == a / b + 1
  {
    var q, m := a / b, a % b;
    assert a == q * b + m && 0 <= m < b;
    assert a + b == (q + 1) * b + m;
    DivUnique(a + b, b, q + 1, m);
  }

  /** Euclidean division is unique: x = k * b + m with 0 <= m < b means the
      quotient is k. */
  lemma DivUnique(x: int, b: int, k: int, m: int)
    requires 0 < b && 0 <= m < b && x == k * b + m
    ensures x / b == k
  {
    var k', m' := x / b, x % b;
    assert x == k' * b + m' && 0 <= m' < b;
    assert (k - k') * b == m' - m;
    if k - k' >= 1 {
      MulAtLeast(k - k', b);
    } else if k' - k >= 1 {
      MulAtLeast(k' - k, b);
    }
  }

  /** A positive multiple of a positive number is at least that number. */
  lemma MulAtLeast(n: int, b: int)
    requires 1 <= n && 0 < b
    ensures b <= n * b
  {
    assert n * b == b + (n - 1) * b;
  }

  /** The advance callback: catch up and ask to stay registered, because a
      ticker never expires on its own. */
  function OnAdvance(t: Ticker, now: Instant): (r: (Ticker, Outcome))
    requires 0 < t.tick
    ensures r.1 == ContinueUpdates
    ensures r.0.tick == t.tick && now < r.0.next && t.next <= r.0.next
    ensures now < t.next ==> r.0 == t
  {
    (CatchUp(t, now), ContinueUpdates)
  }

  /** A second advance to the same or an earlier instant delivers nothing and
      leaves the schedule alone: a ticker never fires twice for an instant. */
  lemma NoRefire(t: Ticker, now: Instant, earlier: Instant)
    requires 0 < t.tick && earlier <= now
    ensures var t' := OnAdvance(t, now).0;
            OnAdvance(t', earlier).0 == t'
  {
  }

  /** Reset(d) under the clock lock at time `now`: a non-positive period
      panics and changes nothing; otherwise the period becomes d, the next
      tick is due at now + d, and the ticker is registered exactly once. */
  function Reset(t: Ticker, self: Id, now: Instant, ls: seq<Id>, d: Duration): (r: Result<(Ticker, seq<Id>)>)
    ensures r.Panic? <==> d <= 0
    ensures r.Ok? ==> r.value.0.tick == d && r.value.0.next == now + d && r.value.0.slot == t.slot
    ensures r.Ok? ==> self in r.value.1 && (forall x :: x != self ==> (x in r.value.1 <==> x in ls))
    ensures r.Ok? && Listeners.NoDup(ls) ==> Listeners.NoDup(r.value.1) && multiset(r.value.1)[self] == 1
  {
    if d <= 0 then Panic
    else Ok((t.(tick := d, next := now + d), Listeners.Add(ls, self)))
  }

  /** Stop only deregisters the ticker: its period, schedule and channel are
      unchanged. */
  function Stop(t: Ticker, self: Id, ls: seq<Id>): (r: (Ticker, seq<Id>))
    ensures r.0 == t
    ensures multiset(r.1) == multiset(ls)[self := 0]
  {
    (t, Listeners.Remove(ls, self))
  }

  /** Fire offers the scheduled instant `next` to the channel without touching
      the schedule, whether or not the ticker is registered. */
  function Fire(t: Ticker): (r: Ticker)
    ensures r.tick == t.tick && r.next == t.next
    ensures r.slot.Some?
    ensures t.slot.None? ==> r.slot.value == t.next
    ensures t.slot.Some? ==> r.slot == t.slot
  {
    t.(slot := SendTime(t.slot, t.next))
  }
}
