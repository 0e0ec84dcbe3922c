/**
 Shared vocabulary of the virtual clock: instants and durations as integer
 nanoseconds, the due test every waiter uses, and the lossy one-slot channel
 send used by timers and tickers.
 */
module Util {

  /** The conventional Some/None datatype. */
  datatype Option<+T> = None | Some(value: T)

  /** The result of an operation that panics on a non-positive interval. A
      Panic carries no state: the caller keeps the state it had before the
      call. */
  datatype Result<+T> = Ok(value: T) | Panic

  /** Virtual instants and durations, in nanoseconds. */
  type Instant = int
  type Duration = int

  /** Identity of a waiter registered with a clock; it also names the
      waiter's channel. */
  type Id = nat

  /** A time channel with a buffer of one: None while empty. */
  type Slot = Option<Instant>

  /** What a listener tells the registry after an advance: keep calling me, or
      drop me. A `true` from a listener's advance callback means StopUpdates. */
  datatype Outcome = ContinueUpdates | StopUpdates

  /** Whether updating a clock to `a` should trigger something waiting until `b`:
      a is equal to b, or after it. */
  function EqualOrAfter(a: Instant, b: Instant): (r: bool)
    ensures r <==> b <= a
  {
    a == b || a > b
  }

  /** The due test is a total preorder on instants: reflexive, transitive, and
      any two instants are related one way or the other. */
  lemma EqualOrAfterTotalPreorder(a: Instant, b: Instant, c: Instant)
    ensures EqualOrAfter(a, a)
    ensures EqualOrAfter(a, b) || EqualOrAfter(b, a)
    ensures EqualOrAfter(a, b) && EqualOrAfter(b, c) ==> EqualOrAfter(a, c)
  {
  }

  /** Non-blocking send of `t` on a one-slot channel: if the slot already holds
      an unread value, `t` is dropped. */
  function SendTime(slot: Slot, t: Instant): (r: Slot)
    ensures r.Some?
    ensures slot.None? ==> r.value == t
    ensures slot.Some? ==> r == slot
  {
    match slot
    case None => Some(t)
    case Some(_) => slot
  }

  /** A receive by the consumer of a channel that does not block: the pending
      value, if any, and the slot left behind (always empty). */
  function Receive(slot: Slot): (Option<Instant>, Slot)
  {
    (slot, None)
  }

  /** A send into an empty slot is observed by the next receive; a send into
      a full slot is lost, and the receive observes the earlier value. */
  lemma SendThenReceive(slot: Slot, t: Instant)
    ensures slot.None? ==> Receive(SendTime(slot, t)).0 == Some(t)
    ensures slot.Some? ==> Receive(SendTime(slot, t)).0 == slot
    ensures Receive(SendTime(slot, t)).1 == None
  {
  }

  /** Two sends in a row on an empty slot keep only the first value. */
  lemma SendIsLossy(a: Instant, b: Instant)
    ensures SendTime(SendTime(None, a), b) == Some(a)
  {
  }
}
