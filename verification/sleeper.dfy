/**
 The waiter behind a goroutine blocked in a fake clock's Sleep. Its
 completion signal is a one-shot `awake` flag: the first wake-up, by an
 advance that reaches `when` or by an explicit Wakeup, sets it, and it never
 reverts.
 */
module Sleepers {
  import opened Util
  import Listeners

  datatype Sleeper = Sleeper(when: Instant, awake: bool)

  /** A sleeper that awakens at the absolute instant `when`. */
  function NewSleeperAt(when: Instant): (s: Sleeper)
    ensures When(s) == when && !s.awake
  {
    Sleeper(when, false)
  }

  /** The instant at which the sleeping goroutine wakes up. */
  function When(s: Sleeper): Instant {
    s.when
  }

  /** The target instant is fixed when the sleeper is made: neither an
      advance nor a Wakeup moves it. */
  lemma WhenIsFixed(when: Instant, s: Sleeper, now: Instant, self: Id, ls: seq<Id>)
    ensures When(NewSleeperAt(when)) == when
    ensures When(OnUpdate(s, now).0) == When(s)
    ensures When(Wakeup(s, self, ls).sleeper) == When(s)
  {
  }

  /** The new state of a sleeper, its clock's registry, and whether this call
      was the one that woke it. */
  datatype Woken = Woken(sleeper: Sleeper, registry: seq<Id>, awakened: bool)

  /** Wakeup under the clock lock: wakes the sleeper if it was still asleep,
      reports whether this call did so, and drops it from the registry; its
      target instant is unchanged. */
  function Wakeup(s: Sleeper, self: Id, ls: seq<Id>): (r: Woken)
    ensures r.awakened <==> !s.awake
    ensures r.sleeper.awake && When(r.sleeper) == When(s)
    ensures multiset(r.registry) == multiset(ls)[self := 0]
  {
    Woken(s.(awake := true), Listeners.Remove(ls, self), !s.awake)
  }

  /** The advance callback: once `now` reaches the target the sleeper is
      awake and asks to be dropped; before that nothing changes. */
  function OnUpdate(s: Sleeper, now: Instant): (r: (Sleeper, Outcome))
    ensures r.1 == StopUpdates <==> When(s) <= now
    ensures r.1 == StopUpdates ==> r.0.awake
    ensures r.1 == ContinueUpdates ==> r.0 == s
    ensures When(r.0) == When(s)
    ensures s.awake ==> r.0.awake
  {
    if EqualOrAfter(now, s.when) then (s.(awake := true), StopUpdates)
    else (s, ContinueUpdates)
  }

  /** Wakeup is idempotent: a second call reports false and changes nothing
      further. */
  lemma WakeupTwice(s: Sleeper, self: Id, ls: seq<Id>)
    ensures var w := Wakeup(s, self, ls);
            var w' := Wakeup(w.sleeper, self, w.registry);
            !w'.awakened && w'.sleeper == w.sleeper && w'.registry == w.registry
  {
  }

  /** After an advance has woken the sleeper, an explicit Wakeup reports
      false. */
  lemma WakeupAfterAdvance(s: Sleeper, now: Instant, self: Id, ls: seq<Id>)
    requires When(s) <= now
    ensures !Wakeup(OnUpdate(s, now).0, self, ls).awakened
  {
  }
}
