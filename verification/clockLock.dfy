/**
 The clock's mutex on the one path where it matters: NewTicker takes the
 lock, builds the ticker and releases the lock at the end, with no deferred
 release. The ticker constructor panics on a non-positive interval, so on
 that path the release never runs. A clock is paired here with the state of
 its lock, to set the behaviour as written beside the one with the release
 deferred.
 */
module ClockLocks {
  import opened Util
  import FakeClocks

  /** A clock and whether its mutex is currently held. */
  datatype Guarded = Guarded(clock: FakeClocks.Clock, held: bool)

  /** Taking the lock at the start of a clock method: None when it is held,
      that is, the caller blocks. */
  function Acquire(g: Guarded): (r: Option<Guarded>)
    ensures r.None? <==> g.held
    ensures r.Some? ==> r.value.held && r.value.clock == g.clock
  {
    if g.held then None else Some(g.(held := true))
  }

  /** NewTicker as written (fakeClock.go:166-178): the lock is taken, and a
      panic from the ticker constructor unwinds past the release. A call
      returns only once it has the lock, hence the requires. */
  function NewTickerAsWritten(g: Guarded, d: Duration): (r: (Guarded, Result<Id>))
    requires !g.held && FakeClocks.WellFormed(g.clock)
    ensures r.1.Panic? <==> d <= 0
    ensures r.1.Panic? ==> r.0.clock == g.clock && r.0.held
    ensures r.1.Ok? ==> !r.0.held && r.0.clock == FakeClocks.NewTicker(g.clock, d).value.0
  {
    var locked := Acquire(g).value;
    match FakeClocks.NewTicker(locked.clock, d)
    case Panic => (locked, Panic)
    case Ok((c, id)) => (Guarded(c, false), Ok(id))
  }

  /** The discrepancy: a caller that recovers from the panic of NewTicker(0)
      is left with a clock whose every later method blocks on the lock. */
  lemma AsWrittenPanicKeepsLock(c: FakeClocks.Clock)
    requires FakeClocks.WellFormed(c)
    ensures var r := NewTickerAsWritten(Guarded(c, false), 0);
            r.1.Panic? && Acquire(r.0).None?
  {
  }

  /** NewTicker with the release deferred, so it runs on the panic path too.
      This is the behaviour FakeClocks.NewTicker models: a Panic leaves the
      caller with its clock as it was. */
  function NewTickerDeferred(g: Guarded, d: Duration): (r: (Guarded, Result<Id>))
    requires !g.held && FakeClocks.WellFormed(g.clock)
    ensures r.1.Panic? <==> d <= 0
    ensures r.1.Panic? ==> r.0 == g
    ensures r.1.Ok? ==> !r.0.held && r.0.clock == FakeClocks.NewTicker(g.clock, d).value.0
    ensures r.1.Ok? ==> r.1.value == FakeClocks.NewTicker(g.clock, d).value.1
  {
    var locked := Acquire(g).value;
    var (c, res) := match FakeClocks.NewTicker(locked.clock, d)
      case Panic => (locked.clock, Panic)
      case Ok((c, id)) => (c, Ok(id));
    (Guarded(c, false), res)
  }

  /** With the release deferred, the clock stays usable whatever the
      interval: a later method takes the lock, and after a panic it finds the
      clock exactly as before the call. */
  lemma DeferredKeepsClockUsable(g: Guarded, d: Duration)
    requires !g.held && FakeClocks.WellFormed(g.clock)
    ensures Acquire(NewTickerDeferred(g, d).0).Some?
    ensures NewTickerDeferred(g, d).1.Panic? ==> Acquire(NewTickerDeferred(g, d).0) == Acquire(g)
  {
  }
}
