/**
 A one-shot timer driven by a fake clock. It either sends on a one-slot
 channel (NewTimer, After) or invokes a callback (AfterFunc), and keeps the
 Stop/Reset boolean conventions of a standard library timer: both report
 whether the timer had not yet fired (or been stopped) when they were called.
 */
module FakeTimers {
  import opened Util
  import Listeners

  /** Where a timer's event goes: a buffered channel, or a callback whose
      invocations are recorded with the time they were passed. */
  datatype Sink = Channel(slot: Slot) | Callback(invocations: seq<Instant>)

  /** `fired` records whether an event was dispatched (or the timer stopped)
      since creation or the last Reset. */
  datatype Timer = Timer(when: Instant, fired: bool, sink: Sink)

  /** The registration invariant of a timer: it is in its clock's registry
      exactly when it has not fired. */
  ghost predicate Tracked(t: Timer, self: Id, ls: seq<Id>) {
    self in ls <==> !t.fired
  }

  /** A channel-mode timer waiting until `when`. */
  function NewFakeTimer(when: Instant): (t: Timer)
    ensures t.when == when && !t.fired
    ensures t.sink.Channel? && t.sink.slot.None?
  {
    Timer(when, false, Channel(None))
  }

  /** A callback-mode timer waiting until `when`; it has no channel. */
  function NewAfterFunc(when: Instant): (t: Timer)
    ensures t.when == when && !t.fired
    ensures !t.sink.Channel? && |t.sink.invocations| == 0
  {
    Timer(when, false, Callback([]))
  }

  /** Dispatches one event carrying `at`: a lossy send for a channel, one more
      invocation for a callback. */
  function Fire(s: Sink, at: Instant): (r: Sink)
    ensures r.Channel? <==> s.Channel?
    ensures s.Channel? ==> r.slot.Some? && (s.slot.None? ==> r.slot.value == at)
    ensures s.Channel? && s.slot.Some? ==> r == s
    ensures s.Callback? ==> |r.invocations| == |s.invocations| + 1
    ensures s.Callback? ==> r.invocations[..|s.invocations|] == s.invocations
    ensures s.Callback? ==> r.invocations[|s.invocations|] == at
  {
    match s
    case Channel(slot) => Channel(SendTime(slot, at))
    case Callback(calls) => Callback(calls + [at])
  }

  /** The advance callback. A timer that already fired asks to be dropped and
      does nothing; an unfired timer whose instant has come fires once with the
      dispatch time `now` (not `when`) and asks to be dropped; otherwise it
      asks to stay. */
  function OnUpdate(t: Timer, now: Instant): (r: (Timer, Outcome))
    ensures r.1 == StopUpdates <==> r.0.fired
    ensures r.0.when == t.when
    ensures t.fired ==> r.0 == t
    ensures !t.fired && now < t.when ==> r.0 == t
    ensures !t.fired && t.when <= now ==> r.0 == t.(fired := true, sink := Fire(t.sink, now)) && r.1 == StopUpdates
  {
    if t.fired then
      (t, StopUpdates)
    else if EqualOrAfter(now, t.when) then
      (t.(fired := true, sink := Fire(t.sink, now)), StopUpdates)
    else
      (t, ContinueUpdates)
  }

  /** A timer fires at most once: any later advance, at any instant, asks to
      be dropped and delivers nothing more. */
  lemma FiresAtMostOnce(t: Timer, now: Instant, later: Instant)
    requires OnUpdate(t, now).1 == StopUpdates
    ensures OnUpdate(OnUpdate(t, now).0, later) == (OnUpdate(t, now).0, StopUpdates)
  {
  }

  /** The new state of a timer, its clock's registry, and the boolean the
      operation returned. */
  datatype Handled = Handled(timer: Timer, registry: seq<Id>, result: bool)

  /** Reset(d) under the clock lock at time `now`: reports whether the timer
      was still unfired, re-targets it at now + d, and either fires it at once
      (d <= 0, dropping it from the registry) or rearms it, adding it to the
      registry only if it had fired (an unfired timer is already there). */
  function Reset(t: Timer, self: Id, now: Instant, ls: seq<Id>, d: Duration): (r: Handled)
    ensures r.result == !t.fired
    ensures r.timer.when == now + d
    ensures d <= 0 ==> r.timer.fired && self !in r.registry && r.timer.sink == Fire(t.sink, now)
    ensures 0 < d ==> !r.timer.fired && r.timer.sink == t.sink
    ensures forall x :: x != self ==> (x in r.registry <==> x in ls)
    ensures Listeners.NoDup(ls) ==> Listeners.NoDup(r.registry)
    ensures Tracked(t, self, ls) ==> Tracked(r.timer, self, r.registry)
  {
    var rescheduled := !t.fired;
    var rearmed := t.(when := now + d, fired := false);
    if EqualOrAfter(now, rearmed.when) then
      Handled(rearmed.(fired := true, sink := Fire(rearmed.sink, now)), Listeners.Remove(ls, self), rescheduled)
    else if !rescheduled then
      Handled(rearmed, Listeners.Add(ls, self), rescheduled)
    else
      Handled(rearmed, ls, rescheduled)
  }

  /** Stop under the clock lock: reports whether the timer was still unfired,
      marks it fired and drops it from the registry; its target and anything
      already delivered are untouched. */
  function Stop(t: Timer, self: Id, ls: seq<Id>): (r: Handled)
    ensures r.result == !t.fired
    ensures r.timer.fired && r.timer.when == t.when && r.timer.sink == t.sink
    ensures multiset(r.registry) == multiset(ls)[self := 0]
    ensures Tracked(r.timer, self, r.registry)
  {
    Handled(t.(fired := true), Listeners.Remove(ls, self), !t.fired)
  }

  /** Stopping twice: the second Stop reports false and changes nothing. */
  lemma StopTwice(t: Timer, self: Id, ls: seq<Id>)
    ensures var s := Stop(t, self, ls);
            var s' := Stop(s.timer, self, s.registry);
            !s'.result && s'.timer == s.timer && s'.registry == s.registry
  {
  }
}
