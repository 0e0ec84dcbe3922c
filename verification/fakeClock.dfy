/**
 The fake clock: the current virtual instant, the registry of waiters that
 are still listening for time updates, and the waiters themselves (timers,
 tickers and sleepers) keyed by identity. Every public method of the clock
 runs under one lock, so each is modelled as one atomic transition from a
 clock value to a clock value.

 A dispatch pass calls each registered waiter's advance callback once. A
 callback only reads and writes its own waiter, and the registry never holds
 an identity twice, so the pass is the registry sweep of Listeners.OnAdvance
 together with every registered waiter stepped once from its state at entry.
 */
module FakeClocks {
  import opened Util
  import Listeners
  import FakeTimers
  import FakeTickers
  import Sleepers

  /** The closed set of listener kinds. */
  datatype Waiter =
    | TimerWaiter(timer: FakeTimers.Timer)
    | TickerWaiter(ticker: FakeTickers.Ticker)
    | SleeperWaiter(sleeper: Sleepers.Sleeper)

  /** `nextId` is the identity the next created waiter receives. */
  datatype Clock = Clock(now: Instant, registry: seq<Id>, waiters: map<Id, Waiter>, nextId: Id)

  /** A waiter whose advance callback terminates: tickers have a positive
      period (their constructor and Reset panic otherwise). */
  predicate Runnable(w: Waiter) {
    w.TickerWaiter? ==> 0 < w.ticker.tick
  }

  /** The advance callback of any waiter. */
  function Step(w: Waiter, now: Instant): (r: (Waiter, Outcome))
    requires Runnable(w)
    ensures Runnable(r.0)
    ensures r.0.TimerWaiter? == w.TimerWaiter? && r.0.TickerWaiter? == w.TickerWaiter?
    ensures r.1 == ContinueUpdates ==> Pending(r.0, now)
    ensures w.TickerWaiter? ==> r.1 == ContinueUpdates
  {
    match w
    case TimerWaiter(t) =>
      var u := FakeTimers.OnUpdate(t, now);
      (TimerWaiter(u.0), u.1)
    case TickerWaiter(k) =>
      var u := FakeTickers.OnAdvance(k, now);
      (TickerWaiter(u.0), u.1)
    case SleeperWaiter(s) =>
      var u := Sleepers.OnUpdate(s, now);
      (SleeperWaiter(u.0), u.1)
  }

  /** Whether a waiter still has something to wait for at `now`: an unfired
      timer or a sleeper whose instant lies ahead, a ticker whose next tick
      lies ahead. */
  predicate Pending(w: Waiter, now: Instant) {
    match w
    case TimerWaiter(t) => !t.fired && now < t.when
    case TickerWaiter(k) => now < k.next
    case SleeperWaiter(s) => now < s.when
  }

  /** Whether a one-shot waiter has not completed yet: an unfired timer, a
      sleeper not yet awake. Tickers never complete. */
  predicate Active(w: Waiter) {
    match w
    case TimerWaiter(t) => !t.fired
    case TickerWaiter(_) => true
    case SleeperWaiter(s) => !s.awake
  }

  /** Structural well-formedness: a duplicate-free registry of known waiters,
      identities below `nextId`, runnable waiters. */
  ghost predicate WellFormed(c: Clock) {
    && Listeners.NoDup(c.registry)
    && (forall id :: id in c.registry ==> id in c.waiters)
    && (forall id :: id in c.waiters ==> id < c.nextId && Runnable(c.waiters[id]))
  }

  /** No registered waiter is due: everything that could fire at `now` has. */
  ghost predicate Settled(c: Clock) {
    forall id :: id in c.registry ==> id in c.waiters && Pending(c.waiters[id], c.now)
  }

  /** A timer or sleeper is registered exactly when it is active. */
  ghost predicate ActiveIffRegistered(c: Clock) {
    forall id :: id in c.waiters && !c.waiters[id].TickerWaiter? ==>
      (id in c.registry <==> Active(c.waiters[id]))
  }

  /** The invariant every clock operation preserves. */
  ghost predicate Valid(c: Clock) {
    WellFormed(c) && Settled(c) && ActiveIffRegistered(c)
  }

  /** Whether the waiter `id` asks to be dropped when advanced to `now`. */
  predicate Finished(ws: map<Id, Waiter>, id: Id, now: Instant) {
    id in ws && Runnable(ws[id]) && Step(ws[id], now).1 == StopUpdates
  }

  /** A clock at `start` with no waiters. */
  function NewFakeClock(start: Instant): (c: Clock)
    ensures Now(c) == start && c.registry == [] && c.waiters == map[]
    ensures Valid(c)
  {
    Clock(start, [], map[], 0)
  }

  /** The current virtual instant. */
  function Now(c: Clock): Instant {
    c.now
  }

  /** The signed duration from t to now, unclamped. */
  function Since(c: Clock, t: Instant): (d: Duration)
    ensures t + d == Now(c)
  {
    c.now - t
  }

  /** The signed duration from now to t, unclamped. */
  function Until(c: Clock, t: Instant): (d: Duration)
    ensures Now(c) + d == t
    ensures d == -Since(c, t)
  {
    t - c.now
  }

  /** Now reports the instant most recently stored by Set or Add; creating
      waiters and receiving on their channels never move it. */
  lemma NowObservesTime(c: Clock, t: Instant, d: Duration, id: Id)
    requires WellFormed(c)
    ensures Now(Set(c, t)) == t
    ensures Now(Add(c, d).0) == Now(c) + d == Add(c, d).1
    ensures Now(Sleep(c, d).0) == Now(c)
    ensures Now(NewTimer(c, d).0) == Now(c) && Now(AfterFunc(c, d).0) == Now(c)
    ensures NewTicker(c, d).Ok? ==> Now(NewTicker(c, d).value.0) == Now(c)
    ensures id in c.waiters ==> Now(Drain(c, id).0) == Now(c)
  {
  }

  /** Set(t): store t (forward or backward) and run one dispatch pass. Every
      registered waiter is advanced exactly once, the ones that finish leave
      the registry, and no registered waiter is due afterwards; waiters that
      are not registered are untouched. */
  function Set(c: Clock, t: Instant): (r: Clock)
    requires WellFormed(c)
    ensures Now(r) == t
    ensures WellFormed(r) && Settled(r)
    ensures r.waiters.Keys == c.waiters.Keys && r.nextId == c.nextId
    ensures forall id :: id in c.waiters && id !in c.registry ==> r.waiters[id] == c.waiters[id]
    ensures forall id :: id in c.registry ==> r.waiters[id] == Step(c.waiters[id], t).0
    ensures forall id :: id in r.registry ==> id in c.registry
    ensures forall id :: id in c.registry ==>
      (id in r.registry <==> Step(c.waiters[id], t).1 == ContinueUpdates)
  {
    var pass := Listeners.OnAdvance(c.registry, id => Finished(c.waiters, id, t));
    var ws := StepRegistered(c, t);
    SetRegistry(c, t, pass.remaining, ws);
    Clock(t, pass.remaining, ws, c.nextId)
  }

  /** What a dispatch pass leaves registered: the waiters whose callback asks
      to continue, each of which is pending at the new instant. */
  lemma SetRegistry(c: Clock, t: Instant, rest: seq<Id>, ws: map<Id, Waiter>)
    requires WellFormed(c)
    requires forall id :: id in rest <==> id in c.registry && !Finished(c.waiters, id, t)
    requires forall id :: id in c.registry ==> id in ws && ws[id] == Step(c.waiters[id], t).0
    ensures forall id :: id in c.registry ==>
      (id in rest <==> Step(c.waiters[id], t).1 == ContinueUpdates)
    ensures forall id :: id in rest ==> id in c.registry && id in ws && Pending(ws[id], t)
  {
    forall id | id in c.registry
      ensures id in rest <==> Step(c.waiters[id], t).1 == ContinueUpdates
    {
      assert Runnable(c.waiters[id]);
    }
  }

  /** The waiters after a dispatch pass at t: each registered waiter stepped
      once from its state at entry, every other waiter untouched. */
  function StepRegistered(c: Clock, t: Instant): (ws: map<Id, Waiter>)
    requires WellFormed(c)
    ensures ws.Keys == c.waiters.Keys
    ensures forall id :: id in c.waiters && id !in c.registry ==> ws[id] == c.waiters[id]
    ensures forall id :: id in c.registry ==> ws[id] == Step(c.waiters[id], t).0
    ensures forall id :: id in ws ==> id < c.nextId && Runnable(ws[id])
  {
    map id | id in c.waiters ::
      if id in c.registry then Step(c.waiters[id], t).0 else c.waiters[id]
  }

  /** Add(d): move the clock by d (which may be zero or negative), run one
      dispatch pass, and return the new instant. */
  function Add(c: Clock, d: Duration): (r: (Clock, Instant))
    requires WellFormed(c)
    ensures r.1 == Now(c) + d && Now(r.0) == r.1
    ensures r.0 == Set(c, Now(c) + d)
  {
    var now := c.now + d;
    (Set(c, now), now)
  }

  /** Set keeps the invariant, whichever way time moves. */
  lemma SetPreservesValid(c: Clock, t: Instant)
    requires Valid(c)
    ensures Valid(Set(c, t))
  {
    var r := Set(c, t);
    forall id | id in r.waiters && !r.waiters[id].TickerWaiter?
      ensures id in r.registry <==> Active(r.waiters[id])
    {
      if id in c.registry {
        assert Pending(c.waiters[id], c.now);
      }
    }
  }

  /** Registers a newly built waiter under a fresh identity, first running its
      advance callback at the current instant so that a waiter that is already
      due fires at once and is never registered. */
  function Install(c: Clock, w: Waiter): (r: (Clock, Id))
    requires WellFormed(c) && Runnable(w)
    ensures r.1 == c.nextId && r.1 !in c.waiters
    ensures Now(r.0) == Now(c)
    ensures r.0.waiters == c.waiters[r.1 := Step(w, c.now).0]
    ensures Step(w, c.now).1 == ContinueUpdates ==> r.0.registry == c.registry + [r.1]
    ensures Step(w, c.now).1 == StopUpdates ==> r.0.registry == c.registry
    ensures WellFormed(r.0)
    ensures r.0.nextId == c.nextId + 1
  {
    var id := c.nextId;
    var u := Step(w, c.now);
    var registry := if u.1 == ContinueUpdates then Listeners.Add(c.registry, id) else c.registry;
    (Clock(c.now, registry, c.waiters[id := u.0], id + 1), id)
  }

  /** The channel of a waiter: timers in callback mode and sleepers have none;
      a channel is named by the identity of its waiter. */
  function C(c: Clock, id: Id): (ch: Option<Id>)
    requires id in c.waiters
    ensures ch.Some? ==> ch.value == id
    ensures ch.None? <==> (c.waiters[id].TimerWaiter? && c.waiters[id].timer.sink.Callback?) || c.waiters[id].SleeperWaiter?
  {
    match c.waiters[id]
    case TimerWaiter(t) => if t.sink.Channel? then Some(id) else None
    case TickerWaiter(_) => Some(id)
    case SleeperWaiter(_) => None
  }

  /** The value waiting in the channel of waiter `id`; None when the channel
      is empty or the waiter has none. */
  function Buffered(c: Clock, id: Id): Option<Instant>
    requires id in c.waiters
  {
    match c.waiters[id]
    case TimerWaiter(t) => if t.sink.Channel? then t.sink.slot else None
    case TickerWaiter(k) => k.slot
    case SleeperWaiter(_) => None
  }

  /** A non-blocking receive by test code on the channel of waiter `id`: the
      pending value, if any, is returned and the slot is left empty; a waiter
      without a channel yields nothing. */
  function Drain(c: Clock, id: Id): (r: (Clock, Option<Instant>))
    requires id in c.waiters
    ensures Now(r.0) == Now(c) && r.0.registry == c.registry && r.0.waiters.Keys == c.waiters.Keys
    ensures forall x :: x in c.waiters && x != id ==> r.0.waiters[x] == c.waiters[x]
    ensures r.1 == Buffered(c, id) && Buffered(r.0, id) == None
    ensures C(c, id).None? ==> r.0 == c
    ensures r.0.waiters[id].TimerWaiter? == c.waiters[id].TimerWaiter?
    ensures r.0.waiters[id].TimerWaiter? ==>
      r.0.waiters[id].timer == c.waiters[id].timer.(sink := if C(c, id).Some? then FakeTimers.Channel(None) else c.waiters[id].timer.sink)
    ensures r.0.waiters[id].TickerWaiter? == c.waiters[id].TickerWaiter?
    ensures r.0.waiters[id].TickerWaiter? ==> r.0.waiters[id].ticker == c.waiters[id].ticker.(slot := None)
    ensures WellFormed(c) ==> WellFormed(r.0)
    ensures r.0.nextId == c.nextId
  {
    match c.waiters[id]
    case TimerWaiter(t) =>
      if t.sink.Channel? then
        var (v, left) := Receive(t.sink.slot);
        (c.(waiters := c.waiters[id := TimerWaiter(t.(sink := FakeTimers.Channel(left)))]), v)
      else (c, None)
    case TickerWaiter(k) =>
      var (v, left) := Receive(k.slot);
      (c.(waiters := c.waiters[id := TickerWaiter(k.(slot := left))]), v)
    case SleeperWaiter(_) => (c, None)
  }

  /** Sleep(d): a non-positive d returns at once and changes nothing;
      otherwise a new sleeper, not yet awake, targeting now + d is registered
      (without an initial callback, since it is not due) and the calling
      goroutine blocks on it. */
  function Sleep(c: Clock, d: Duration): (r: (Clock, Option<Id>))
    requires WellFormed(c)
    ensures d <= 0 ==> r == (c, None)
    ensures 0 < d ==> r.1 == Some(c.nextId) && c.nextId !in c.waiters
    ensures 0 < d ==> r.0.waiters == c.waiters[c.nextId := SleeperWaiter(Sleepers.Sleeper(Now(c) + d, false))]
    ensures 0 < d ==> r.0.registry == c.registry + [c.nextId]
    ensures Now(r.0) == Now(c) && WellFormed(r.0)
    ensures 0 < d ==> r.0.nextId == c.nextId + 1
  {
    if d <= 0 then (c, None)
    else
      var id := c.nextId;
      var s := Sleepers.NewSleeperAt(c.now + d);
      (Clock(c.now, Listeners.Add(c.registry, id), c.waiters[id := SleeperWaiter(s)], id + 1), Some(id))
  }

  /** NewTimer(d): a channel timer targeting now + d. A non-positive d fires
      at once, delivering the current instant, and leaves the timer
      unregistered; a positive d registers it with nothing delivered. */
  function NewTimer(c: Clock, d: Duration): (r: (Clock, Id))
    requires WellFormed(c)
    ensures r.1 == c.nextId && r.1 !in c.waiters && r.1 in r.0.waiters
    ensures Now(r.0) == Now(c) && WellFormed(r.0)
    ensures forall id :: id in c.waiters ==> id in r.0.waiters && r.0.waiters[id] == c.waiters[id]
    ensures r.0.waiters[r.1].TimerWaiter? && r.0.waiters[r.1].timer.when == Now(c) + d
    ensures d <= 0 ==> r.0.registry == c.registry && r.0.waiters[r.1].timer.fired
    ensures d <= 0 ==> r.0.waiters[r.1].timer.sink == FakeTimers.Channel(Some(Now(c)))
    ensures 0 < d ==> r.0.registry == c.registry + [r.1] && !r.0.waiters[r.1].timer.fired
    ensures 0 < d ==> r.0.waiters[r.1].timer.sink == FakeTimers.Channel(None)
    ensures r.0.waiters.Keys == c.waiters.Keys + {r.1} && r.0.nextId == c.nextId + 1
  {
    Install(c, TimerWaiter(FakeTimers.NewFakeTimer(c.now + d)))
  }

  /** After(d): the channel of a new NewTimer(d) timer. */
  function After(c: Clock, d: Duration): (r: (Clock, Option<Id>))
    requires WellFormed(c)
    ensures r.0 == NewTimer(c, d).0
    ensures r.1 == Some(c.nextId) && IsTimer(r.0, c.nextId)
    ensures r.0.waiters[c.nextId].timer.when == Now(c) + d
    ensures r.0.waiters[c.nextId].timer.sink.Channel?
  {
    var (c', id) := NewTimer(c, d);
    (c', C(c', id))
  }

  /** AfterFunc(d, f): like NewTimer, but the timer invokes f instead of
      sending, and has no channel. */
  function AfterFunc(c: Clock, d: Duration): (r: (Clock, Id))
    requires WellFormed(c)
    ensures r.1 == c.nextId && r.1 !in c.waiters && r.1 in r.0.waiters
    ensures Now(r.0) == Now(c) && WellFormed(r.0)
    ensures forall id :: id in c.waiters ==> id in r.0.waiters && r.0.waiters[id] == c.waiters[id]
    ensures C(r.0, r.1).None?
    ensures r.0.waiters[r.1].TimerWaiter? && r.0.waiters[r.1].timer.when == Now(c) + d
    ensures d <= 0 ==> r.0.registry == c.registry && r.0.waiters[r.1].timer.fired
    ensures d <= 0 ==> r.0.waiters[r.1].timer.sink == FakeTimers.Callback([Now(c)])
    ensures 0 < d ==> r.0.registry == c.registry + [r.1] && !r.0.waiters[r.1].timer.fired
    ensures 0 < d ==> r.0.waiters[r.1].timer.sink == FakeTimers.Callback([])
    ensures r.0.waiters.Keys == c.waiters.Keys + {r.1} && r.0.nextId == c.nextId + 1
  {
    Install(c, TimerWaiter(FakeTimers.NewAfterFunc(c.now + d)))
  }

  /** NewTicker(d): panics on a non-positive d; otherwise registers a ticker
      whose first tick is due at now + d, with an empty channel. A Panic
      carries no clock, so a caller that recovers keeps the clock it had.
      That is the intended behaviour: fakeClock.go skips the lock release on
      the panic path, which ClockLocks sets out. */
  function NewTicker(c: Clock, d: Duration): (r: Result<(Clock, Id)>)
    requires WellFormed(c)
    ensures r.Panic? <==> d <= 0
    ensures r.Ok? ==> r.value.1 == c.nextId && r.value.1 !in c.waiters
    ensures r.Ok? ==> Now(r.value.0) == Now(c) && WellFormed(r.value.0)
    ensures r.Ok? ==> r.value.0.registry == c.registry + [r.value.1]
    ensures r.Ok? ==> r.value.0.waiters == c.waiters[r.value.1 := TickerWaiter(FakeTickers.Ticker(d, Now(c) + d, None))]
    ensures r.Ok? ==> r.value.0.nextId == c.nextId + 1
  {
    match FakeTickers.NewFakeTicker(d, c.now)
    case Panic => Panic
    case Ok(t) => Ok(Install(c, TickerWaiter(t)))
  }

  /** Tick(d): the channel of a new NewTicker(d) ticker; it panics, and
      shares the lock release that fakeClock.go skips, through NewTicker. */
  function Tick(c: Clock, d: Duration): (r: Result<(Clock, Option<Id>)>)
    requires WellFormed(c)
    ensures r.Panic? <==> d <= 0
    ensures r.Ok? ==> r.value.0 == NewTicker(c, d).value.0 && r.value.1 == Some(c.nextId)
  {
    match NewTicker(c, d)
    case Panic => Panic
    case Ok((c', id)) => Ok((c', C(c', id)))
  }

  predicate IsTimer(c: Clock, id: Id) {
    id in c.waiters && c.waiters[id].TimerWaiter?
  }

  predicate IsTicker(c: Clock, id: Id) {
    id in c.waiters && c.waiters[id].TickerWaiter?
  }

  predicate IsSleeper(c: Clock, id: Id) {
    id in c.waiters && c.waiters[id].SleeperWaiter?
  }

  /** What a handle operation must establish about the one waiter it touches
      for the clock invariant to survive: the registry changes only at `id`
      and stays duplicate-free, and the new waiter, if registered, is pending,
      and, if it is a timer or sleeper, is registered exactly when active. */
  ghost predicate ReplacesOne(c: Clock, id: Id, w: Waiter, registry: seq<Id>) {
    && Listeners.NoDup(registry)
    && (forall x :: x != id ==> (x in registry <==> x in c.registry))
    && Runnable(w)
    && (id in registry ==> Pending(w, c.now))
    && (!w.TickerWaiter? ==> (id in registry <==> Active(w)))
  }

  /** Replacing one known waiter in a valid clock in a way that ReplacesOne
      allows gives a valid clock. */
  lemma ReplaceOneValid(c: Clock, id: Id, w: Waiter, registry: seq<Id>)
    requires Valid(c) && id in c.waiters && ReplacesOne(c, id, w, registry)
    ensures Valid(c.(registry := registry, waiters := c.waiters[id := w]))
  {
    var r := c.(registry := registry, waiters := c.waiters[id := w]);
    assert WellFormed(r);
    assert Settled(r);
  }

  /** Timer.Reset(d) on the timer `id`: returns whether it was active; the
      timer now targets now + d and is either fired at once (d <= 0) or
      registered and waiting. */
  function TimerReset(c: Clock, id: Id, d: Duration): (r: (Clock, bool))
    requires IsTimer(c, id)
    ensures r.1 == Active(c.waiters[id])
    ensures Now(r.0) == Now(c) && IsTimer(r.0, id) && r.0.waiters[id].timer.when == Now(c) + d
    ensures forall x :: x in c.waiters && x != id ==> x in r.0.waiters && r.0.waiters[x] == c.waiters[x]
    ensures forall x :: x != id ==> (x in r.0.registry <==> x in c.registry)
    ensures d <= 0 ==> id !in r.0.registry && r.0.waiters[id].timer.fired
    ensures d <= 0 ==> r.0.waiters[id].timer.sink == FakeTimers.Fire(c.waiters[id].timer.sink, Now(c))
    ensures 0 < d ==> !r.0.waiters[id].timer.fired && r.0.waiters[id].timer.sink == c.waiters[id].timer.sink
    ensures 0 < d && (id in c.registry <==> Active(c.waiters[id])) ==> id in r.0.registry
    ensures WellFormed(c) ==> WellFormed(r.0)
    ensures r.0.nextId == c.nextId
  {
    var h := FakeTimers.Reset(c.waiters[id].timer, id, c.now, c.registry, d);
    (c.(registry := h.registry, waiters := c.waiters[id := TimerWaiter(h.timer)]), h.result)
  }

  /** Timer.Stop on the timer `id`: returns whether it was active, and leaves
      it inactive and unregistered. */
  function TimerStop(c: Clock, id: Id): (r: (Clock, bool))
    requires IsTimer(c, id)
    ensures r.1 == Active(c.waiters[id])
    ensures Now(r.0) == Now(c) && IsTimer(r.0, id) && !Active(r.0.waiters[id])
    ensures r.0.waiters[id].timer.when == c.waiters[id].timer.when
    ensures r.0.waiters[id].timer.sink == c.waiters[id].timer.sink
    ensures id !in r.0.registry
    ensures forall x :: x != id ==> (x in r.0.registry <==> x in c.registry)
    ensures forall x :: x in c.waiters && x != id ==> x in r.0.waiters && r.0.waiters[x] == c.waiters[x]
    ensures WellFormed(c) ==> WellFormed(r.0)
    ensures r.0.nextId == c.nextId
  {
    var h := FakeTimers.Stop(c.waiters[id].timer, id, c.registry);
    (c.(registry := h.registry, waiters := c.waiters[id := TimerWaiter(h.timer)]), h.result)
  }

  /** Ticker.Reset(d) on the ticker `id`: panics on a non-positive d, leaving
      the clock alone; otherwise the period becomes d, the next tick is due
      at now + d and the ticker is registered exactly once. */
  function TickerReset(c: Clock, id: Id, d: Duration): (r: Result<Clock>)
    requires IsTicker(c, id)
    ensures r.Panic? <==> d <= 0
    ensures r.Ok? ==> IsTicker(r.value, id) && r.value.waiters[id].ticker.next == Now(c) + d
    ensures r.Ok? ==> r.value.waiters[id].ticker.tick == d && id in r.value.registry
    ensures r.Ok? ==> r.value.waiters[id].ticker.slot == c.waiters[id].ticker.slot
    ensures r.Ok? ==> Now(r.value) == Now(c) && r.value.nextId == c.nextId
    ensures r.Ok? ==> forall x :: x != id ==> (x in r.value.registry <==> x in c.registry)
    ensures r.Ok? ==> forall x :: x in c.waiters && x != id ==> x in r.value.waiters && r.value.waiters[x] == c.waiters[x]
    ensures r.Ok? && WellFormed(c) ==> WellFormed(r.value)
  {
    match FakeTickers.Reset(c.waiters[id].ticker, id, c.now, c.registry, d)
    case Panic => Panic
    case Ok((t, registry)) =>
        Ok(c.(registry := registry, waiters := c.waiters[id := TickerWaiter(t)]))
  }

  /** Ticker.Stop on the ticker `id`: deregisters it and changes nothing
      else. */
  function TickerStop(c: Clock, id: Id): (r: Clock)
    requires IsTicker(c, id)
    ensures id !in r.registry && r.waiters == c.waiters && Now(r) == Now(c)
    ensures forall x :: x != id ==> (x in r.registry <==> x in c.registry)
    ensures WellFormed(c) ==> WellFormed(r)
    ensures r.nextId == c.nextId
  {
    var (t, registry) := FakeTickers.Stop(c.waiters[id].ticker, id, c.registry);
    c.(registry := registry, waiters := c.waiters[id := TickerWaiter(t)])
  }

  /** Ticker.Fire on the ticker `id`: offers its next scheduled instant to
      its channel; schedule, period and registration are unchanged. */
  function TickerFire(c: Clock, id: Id): (r: Clock)
    requires IsTicker(c, id)
    ensures r.registry == c.registry && Now(r) == Now(c) && IsTicker(r, id)
    ensures r.waiters[id].ticker.next == c.waiters[id].ticker.next
    ensures r.waiters[id].ticker.tick == c.waiters[id].ticker.tick
    ensures c.waiters[id].ticker.slot.None? ==> r.waiters[id].ticker.slot == Some(c.waiters[id].ticker.next)
    ensures c.waiters[id].ticker.slot.Some? ==> r.waiters[id].ticker.slot == c.waiters[id].ticker.slot
    ensures forall x :: x in c.waiters && x != id ==> x in r.waiters && r.waiters[x] == c.waiters[x]
    ensures WellFormed(c) ==> WellFormed(r)
    ensures r.nextId == c.nextId
  {
    c.(waiters := c.waiters[id := TickerWaiter(FakeTickers.Fire(c.waiters[id].ticker))])
  }

  /** Sleeper.Wakeup on the sleeper `id`: wakes it if it was asleep, reports
      whether this call did, and deregisters it; time is unchanged. */
  function SleeperWakeup(c: Clock, id: Id): (r: (Clock, bool))
    requires IsSleeper(c, id)
    ensures r.1 == Active(c.waiters[id])
    ensures Now(r.0) == Now(c) && IsSleeper(r.0, id) && !Active(r.0.waiters[id])
    ensures r.0.waiters[id].sleeper.when == c.waiters[id].sleeper.when
    ensures id !in r.0.registry
    ensures forall x :: x != id ==> (x in r.0.registry <==> x in c.registry)
    ensures forall x :: x in c.waiters && x != id ==> x in r.0.waiters && r.0.waiters[x] == c.waiters[x]
    ensures WellFormed(c) ==> WellFormed(r.0)
    ensures r.0.nextId == c.nextId
  {
    var w := Sleepers.Wakeup(c.waiters[id].sleeper, id, c.registry);
    (c.(registry := w.registry, waiters := c.waiters[id := SleeperWaiter(w.sleeper)]), w.awakened)
  }

  /** Installing a waiter keeps the invariant when the waiter, unless it is a
      ticker, is left active exactly when its first callback asks to continue
      (true of timers). */
  lemma InstallPreservesValid(c: Clock, w: Waiter)
    requires Valid(c) && Runnable(w)
    requires !w.TickerWaiter? ==> (Active(Step(w, c.now).0) <==> Step(w, c.now).1 == ContinueUpdates)
    ensures Valid(Install(c, w).0)
  {
    var (r, id) := Install(c, w);
    assert forall x :: x in r.registry ==> x == id || x in c.registry;
    assert Settled(r);
  }

  /** Sleep keeps the clock invariant. */
  lemma SleepPreservesValid(c: Clock, d: Duration)
    requires Valid(c)
    ensures Valid(Sleep(c, d).0)
  {
    if 0 < d {
      var r := Sleep(c, d).0;
      assert forall x :: x in r.registry ==> x == c.nextId || x in c.registry;
      assert Settled(r);
    }
  }

  /** NewTimer keeps the clock invariant, whatever the duration. */
  lemma NewTimerPreservesValid(c: Clock, d: Duration)
    requires Valid(c)
    ensures Valid(NewTimer(c, d).0)
  {
    InstallPreservesValid(c, TimerWaiter(FakeTimers.NewFakeTimer(c.now + d)));
  }

  /** AfterFunc keeps the clock invariant, whatever the duration. */
  lemma AfterFuncPreservesValid(c: Clock, d: Duration)
    requires Valid(c)
    ensures Valid(AfterFunc(c, d).0)
  {
    InstallPreservesValid(c, TimerWaiter(FakeTimers.NewAfterFunc(c.now + d)));
  }

  /** A NewTicker that does not panic keeps the clock invariant. */
  lemma NewTickerPreservesValid(c: Clock, d: Duration)
    requires Valid(c) && 0 < d
    ensures Valid(NewTicker(c, d).value.0)
  {
    InstallPreservesValid(c, TickerWaiter(FakeTickers.NewFakeTicker(d, c.now).value));
  }

  /** Receiving on a waiter's channel keeps the clock invariant. */
  lemma DrainPreservesValid(c: Clock, id: Id)
    requires Valid(c) && id in c.waiters
    ensures Valid(Drain(c, id).0)
  {
    var r := Drain(c, id).0;
    if r != c {
      ReplaceOneValid(c, id, r.waiters[id], c.registry);
    }
  }

  /** Timer.Reset keeps the clock invariant. */
  lemma TimerResetPreservesValid(c: Clock, id: Id, d: Duration)
    requires Valid(c) && IsTimer(c, id)
    ensures Valid(TimerReset(c, id, d).0)
  {
    var h := FakeTimers.Reset(c.waiters[id].timer, id, c.now, c.registry, d);
    assert FakeTimers.Tracked(c.waiters[id].timer, id, c.registry) by {
      assert id in c.waiters && !c.waiters[id].TickerWaiter?;
    }
    TimerResetReplacesOne(c, id, d);
    ReplaceOneValid(c, id, TimerWaiter(h.timer), h.registry);
  }

  /** The timer Reset changes only its own waiter and registration, in a way
      that keeps "registered iff active" and "registered implies pending". */
  lemma TimerResetReplacesOne(c: Clock, id: Id, d: Duration)
    requires IsTimer(c, id) && Listeners.NoDup(c.registry)
    requires FakeTimers.Tracked(c.waiters[id].timer, id, c.registry)
    ensures var h := FakeTimers.Reset(c.waiters[id].timer, id, c.now, c.registry, d);
            ReplacesOne(c, id, TimerWaiter(h.timer), h.registry)
  {
    var h := FakeTimers.Reset(c.waiters[id].timer, id, c.now, c.registry, d);
    assert id in h.registry ==> !h.timer.fired && 0 < d;
  }

  /** Timer.Stop keeps the clock invariant. */
  lemma TimerStopPreservesValid(c: Clock, id: Id)
    requires Valid(c) && IsTimer(c, id)
    ensures Valid(TimerStop(c, id).0)
  {
    var h := FakeTimers.Stop(c.waiters[id].timer, id, c.registry);
    StopReplacesOne(c, id, TimerWaiter(h.timer), h.registry);
    ReplaceOneValid(c, id, TimerWaiter(h.timer), h.registry);
  }

  /** A Ticker.Reset that does not panic keeps the clock invariant. */
  lemma TickerResetPreservesValid(c: Clock, id: Id, d: Duration)
    requires Valid(c) && IsTicker(c, id) && 0 < d
    ensures Valid(TickerReset(c, id, d).value)
  {
    var (t, registry) := FakeTickers.Reset(c.waiters[id].ticker, id, c.now, c.registry, d).value;
    ReplaceOneValid(c, id, TickerWaiter(t), registry);
  }

  /** Ticker.Stop keeps the clock invariant. */
  lemma TickerStopPreservesValid(c: Clock, id: Id)
    requires Valid(c) && IsTicker(c, id)
    ensures Valid(TickerStop(c, id))
  {
    var (t, registry) := FakeTickers.Stop(c.waiters[id].ticker, id, c.registry);
    ReplaceOneValid(c, id, TickerWaiter(t), registry);
  }

  /** Ticker.Fire keeps the clock invariant. */
  lemma TickerFirePreservesValid(c: Clock, id: Id)
    requires Valid(c) && IsTicker(c, id)
    ensures Valid(TickerFire(c, id))
  {
    ReplaceOneValid(c, id, TickerWaiter(FakeTickers.Fire(c.waiters[id].ticker)), c.registry);
  }

  /** Sleeper.Wakeup keeps the clock invariant. */
  lemma SleeperWakeupPreservesValid(c: Clock, id: Id)
    requires Valid(c) && IsSleeper(c, id)
    ensures Valid(SleeperWakeup(c, id).0)
  {
    var w := Sleepers.Wakeup(c.waiters[id].sleeper, id, c.registry);
    StopReplacesOne(c, id, SleeperWaiter(w.sleeper), w.registry);
    ReplaceOneValid(c, id, SleeperWaiter(w.sleeper), w.registry);
  }

  /** Deregistering a waiter and leaving it inactive changes nothing else the
      invariant depends on. */
  lemma StopReplacesOne(c: Clock, id: Id, w: Waiter, registry: seq<Id>)
    requires Listeners.NoDup(c.registry) && Runnable(w) && !w.TickerWaiter? && !Active(w)
    requires multiset(registry) == multiset(c.registry)[id := 0]
    ensures ReplacesOne(c, id, w, registry)
  {
    forall x
      ensures multiset(registry)[x] <= 1
      ensures x != id ==> (x in registry <==> x in c.registry)
      ensures id !in registry
    {
      assert multiset(c.registry)[x] <= 1;
      assert x in registry <==> multiset(registry)[x] > 0;
      assert x in c.registry <==> multiset(c.registry)[x] > 0;
      assert id in registry <==> multiset(registry)[id] > 0;
    }
  }
}
