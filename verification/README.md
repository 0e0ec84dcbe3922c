# chronon virtual clock, modelled in Dafny

chronon is a Go library that puts an injectable clock in front of the
standard `time` package. Its `FakeClock` is a virtual clock for tests. It has
a current instant. It keeps a registry of *listeners* (timers, tickers and
sleepers), and each listener is called back whenever test code moves the time
with `Set` or `Add`. This project models that engine:

- `Util` (util.go): instants and durations as unbounded integer nanoseconds,
  the due test `EqualOrAfter`, and the lossy one-slot channel send
  `SendTime`.
- `Listeners` (listener.go): the registry slice. It has an idempotent
  `Add`, an idempotent `Remove`, and the swap-delete dispatch loop. That loop
  is a recursive function, `Sweep`, with the same visiting order as the Go
  loop. `Kept`, an order-preserving filter, is its reference definition.
- `FakeTimers` (fakeTimer.go): one-shot timers in channel mode and in
  callback mode, with the standard library's Stop/Reset return conventions.
- `FakeTickers` (fakeTicker.go): periodic tickers. `CatchUp` is the catch-up
  loop. `CatchUpClosedForm` shows it consumes exactly the due instants of the
  schedule.
- `Sleepers` (sleeper.go): the waiter behind a blocked `Sleep`.
- `FakeClocks` (fakeClock.go): the clock as a value. Every public method runs
  under the clock's lock, so each method is one transition from a clock to a
  clock. `Valid` is the invariant every operation preserves:
  - the registry has no duplicates and only known waiters;
  - no registered waiter is due;
  - a timer or sleeper is registered exactly when it is still active.
- `NotifierSlices` (notify.go): the slice-backed notifier registry. Its add, remove
  and deleteAt reuse `Listeners`.
- `Notifiers` (notifiers.go): the map-backed notifier registry, which is nil
  until the first add.
- `Scenarios`: runs of the clock taken from the repository's tests and the
  ticker's catch-up loop, proved for every start instant.

How Go constructs are represented:

- A channel is a one-slot buffer, `Option<Instant>`, stored with its waiter.
  Its identity is the waiter's identity.
- A waiter's identity (`Id`) stands for the object identity the Go code
  compares.
- A panic (a non-positive ticker interval) is `Result.Panic`. It carries no
  state, so a caller that recovers keeps the state it had. For
  `Ticker.Reset` this is what the code does: it panics before taking the
  lock. For `FakeClock.NewTicker` and `Tick` it is the intended behaviour,
  not the code's (see Findings).
- An `AfterFunc` callback is a log of the instants it was invoked with.
- A blocking notification send is an entry in a delivery log.

### Where the code and its documentation disagree (the model follows the code)

- listener.go:7-10 says a listener returning true wants more updates. The
  dispatch loop at listener.go:34-36 deletes a listener that returns true.
  The model's `Outcome.StopUpdates` is the Go `true`.
- fakeTimer.go:95-96 says Reset returns true if the timer had been stopped or
  had fired. fakeTimer.go:103 returns `!ft.fired`, which is true exactly when
  the timer was still pending, as in `time.Timer.Reset`. The repository's
  tests (fakeTimer_test.go:65-77) agree with the code.
- When a ticker's clock jumps over several periods, the catch-up loop
  (fakeTicker.go:36-39) offers every due instant in turn to the one-slot
  channel. If the channel was empty it keeps the earliest due instant, the
  old `next`; it does not keep the latest one.
- The registry is a slice with swap-delete, not a set. After a pass the
  survivors are a permutation of the kept members, not always in their
  original order.
- fakeClock.go:111 calls `newSleeperAt` with only the wake-up instant, while
  sleeper.go:61 also takes the clock. Timers are created calling
  `ft.onAdvance`, while fakeTimer.go:71 defines `onUpdate` returning an
  `updateResult`. The model uses the evident intent in both places: a
  sleeper at `now + d`, and one advance callback per waiter kind whose stop
  result is what listener.go:34 tests.

## Model

| member | source | states |
|---|---|---|
| Util.EqualOrAfter | util.go:8-14 | true exactly when b <= a: the clock time a has reached the target b |
| Util.EqualOrAfterTotalPreorder | util.go:8-14 | the due test is reflexive, total and transitive |
| Util.SendTime | util.go:16-23 | a send fills an empty slot with t; a send into a full slot leaves the earlier value, so the send never blocks |
| Util.SendThenReceive | util.go:16-23 | a receive after a send sees t if the slot was empty and the old value otherwise, and leaves the slot empty |
| Util.SendIsLossy | util.go:16-23 | two sends in a row keep only the first value |
| Listeners.DeleteAt | listener.go:22-27 | length drops by one; the prefix before i is kept; the last element moves into slot i; the multiset loses exactly the element at i |
| Listeners.Sweep | listener.go:31-41 | from index i on, every member is called exactly once; the prefix is untouched; what remains from i on is a permutation of the unfinished members (Kept) |
| Listeners.OnAdvance | listener.go:29-41 | every member is called once; the registry afterwards is a permutation of the members that asked to continue; it keeps exactly those members and stays duplicate-free |
| Listeners.SweepNoneDone | listener.go:31-41 | a pass in which no member finishes leaves the registry exactly as it was |
| Listeners.Add | listener.go:43-55 | the result contains v once; earlier members keep their order; v is appended only if absent; duplicate-freedom is preserved |
| Listeners.AddIdempotent | listener.go:43-55 | adding twice equals adding once |
| Listeners.Remove | listener.go:57-71 | every occurrence of v is removed and nothing else (multiset with v's count set to 0); removing an absent v changes nothing |
| Listeners.RemoveIdempotent | listener.go:57-71 | removing twice equals removing once |
| Listeners.AddRemoveMembers | listener.go:43-71 | adding a new member and then removing it gives back the original multiset |
| FakeTimers.NewFakeTimer | fakeTimer.go:36-44 | a channel-mode timer for the given instant, unfired, with an empty channel |
| FakeTimers.NewAfterFunc | fakeTimer.go:46-54 | a callback-mode timer for the given instant, unfired, with no channel and no invocation yet |
| FakeTimers.Fire | fakeTimer.go:56-65 | channel mode: a lossy send of the instant; callback mode: exactly one more invocation, passed the instant |
| FakeTimers.OnUpdate | fakeTimer.go:67-83 | asks to be dropped exactly when the timer is fired afterwards; an already-fired timer does nothing; a due, unfired timer becomes fired, delivers the current time once and asks to be dropped; a timer not yet due is unchanged and continues |
| FakeTimers.FiresAtMostOnce | fakeTimer.go:71-83 | after a callback that asked to be dropped, any later callback delivers nothing and asks to be dropped again |
| FakeTimers.Reset | fakeTimer.go:100-118 | returns whether the timer was unfired; the target becomes now + d; d <= 0 fires at once with now and unregisters it; d > 0 rearms it; other registrations are untouched; "registered iff unfired" is preserved |
| FakeTimers.Stop | fakeTimer.go:120-133 | returns whether the timer was unfired; leaves it fired and unregistered, with target and channel unchanged |
| FakeTimers.StopTwice | fakeTimer.go:123-133 | a second Stop returns false and changes nothing |
| FakeTickers.NewFakeTicker | fakeTicker.go:17-29 | panics exactly on a non-positive period; otherwise the first tick is due one period after the start and the channel is empty |
| FakeTickers.CatchUp | fakeTicker.go:34-39 | afterwards next lies after now and at most one period past it; the schedule never moves back; a ticker not yet due is unchanged; an empty channel receives the earliest due instant; a full channel is untouched |
| FakeTickers.CatchUpClosedForm | fakeTicker.go:36-39 | the catch-up advances next by exactly (number of due instants) periods |
| FakeTickers.OnAdvance | fakeTicker.go:31-43 | always asks to continue, and leaves next past now |
| FakeTickers.NoRefire | fakeTicker.go:34-43 | after an advance to now, a second advance to now or an earlier instant changes nothing |
| FakeTickers.Reset | fakeTicker.go:51-69 | panics exactly on d <= 0; otherwise the period is d, the next tick is due at now + d, the channel is unchanged, and the ticker is registered exactly once |
| FakeTickers.Stop | fakeTicker.go:71-78 | the ticker is unchanged, and every occurrence of it leaves the registry |
| FakeTickers.Fire | fakeTicker.go:80-93 | offers next to the channel, with period and schedule unchanged |
| Sleepers.WhenIsFixed | sleeper.go:39-41 | When returns the instant the sleeper was made for; neither an advance callback nor a Wakeup changes it |
| Sleepers.NewSleeperAt | sleeper.go:58-67 | a sleeper for the given instant, not awake |
| Sleepers.Wakeup | sleeper.go:43-56 | returns true exactly when the sleeper was still asleep; leaves it awake with its target unchanged; every occurrence of it leaves the registry |
| Sleepers.OnUpdate | sleeper.go:69-85 | asks to be dropped exactly when the target has been reached, and is then awake; otherwise unchanged; awake never reverts |
| Sleepers.WakeupTwice | sleeper.go:43-56 | a second Wakeup returns false and changes nothing |
| Sleepers.WakeupAfterAdvance | sleeper.go:73-85 | after an advance has woken the sleeper, Wakeup returns false |
| FakeClocks.Step | listener.go:5-17 | a waiter's callback keeps the waiter's kind; a waiter that asks to continue still has something pending after now; a ticker always continues |
| FakeClocks.NewFakeClock | fakeClock.go:37-44 | a clock at the start instant with no waiters, satisfying the invariant |
| FakeClocks.NowObservesTime | fakeClock.go:57-82 | Now returns the instant last stored by Set or Add (Add also returns it); Sleep, NewTimer, AfterFunc, NewTicker and a channel receive leave it unchanged |
| FakeClocks.Since | fakeClock.go:84-91 | t plus the result is the current time |
| FakeClocks.Until | fakeClock.go:93-100 | the current time plus the result is t; it is the negation of Since |
| FakeClocks.Set | fakeClock.go:67-74 | time becomes t; every registered waiter is advanced exactly once and stays registered iff its callback asked to continue; unregistered waiters are untouched; no registered waiter is due afterwards |
| FakeClocks.Add | fakeClock.go:54-65 | returns now + d and behaves as Set(now + d) |
| FakeClocks.SetPreservesValid | fakeClock.go:57-74 | moving time forwards or backwards preserves the clock invariant |
| FakeClocks.Install | fakeClock.go:149-160 | a new waiter gets a fresh identity, runs its callback once at the current time, and is registered only if that callback asked to continue; the next identity moves on by one |
| FakeClocks.InstallPreservesValid | fakeClock.go:149-160 | installing a waiter that is active exactly when its first callback continues preserves the clock invariant |
| FakeClocks.ReplaceOneValid | fakeClock.go:46-52 | an operation under the lock that changes one waiter and its registration, keeping it registered iff active and pending if registered, preserves the clock invariant |
| FakeClocks.C | fakeTimer.go:85-93 | channel timers and tickers have a channel named by their identity; callback timers and sleepers have none |
| FakeClocks.Drain | chronon_suite_test.go:147-157 | returns the value waiting in the waiter's channel (nothing for a waiter without one) and leaves that channel empty; the waiter is otherwise unchanged, and time, registrations and every other waiter are untouched |
| FakeClocks.DrainPreservesValid | chronon_suite_test.go:147-157 | a receive by test code preserves the clock invariant |
| FakeClocks.Sleep | fakeClock.go:102-116 | d <= 0 changes nothing; otherwise one new sleeper for now + d, not awake, is appended to the registry |
| FakeClocks.SleepPreservesValid | fakeClock.go:102-116 | Sleep preserves the clock invariant |
| FakeClocks.NewTimer | fakeClock.go:145-160 | a new channel timer for now + d, under the one fresh identity the clock adds; d <= 0 fires it at once with the current time and leaves it unregistered; d > 0 registers it with an empty channel; other waiters are unchanged |
| FakeClocks.NewTimerPreservesValid | fakeClock.go:145-160 | NewTimer preserves the clock invariant for every duration, including non-positive ones |
| FakeClocks.After | fakeClock.go:118-121 | the clock of NewTimer, and the channel of the new timer, a channel-mode timer targeting now + d |
| FakeClocks.AfterFunc | fakeClock.go:123-138 | as NewTimer, but the timer has no channel and an immediate firing is one callback invocation with the current time |
| FakeClocks.AfterFuncPreservesValid | fakeClock.go:123-138 | AfterFunc preserves the clock invariant for every duration |
| FakeClocks.NewTicker | fakeClock.go:162-178 | panics exactly on d <= 0; otherwise registers a new ticker with period d, first tick at now + d and an empty channel |
| FakeClocks.NewTickerPreservesValid | fakeClock.go:162-178 | a NewTicker that does not panic preserves the clock invariant |
| FakeClocks.Tick | fakeClock.go:140-143 | panics exactly when NewTicker does; otherwise the clock of NewTicker and the ticker's channel |
| ClockLocks.NewTickerAsWritten | fakeClock.go:166-178 | as written: panics exactly on d <= 0, and then returns with the lock still held and the clock unchanged; otherwise the lock is released and the clock is NewTicker's |
| ClockLocks.AsWrittenPanicKeepsLock | fakeClock.go:166-178 | after a recovered panic from NewTicker(0), every later attempt to take the clock's lock blocks |
| ClockLocks.NewTickerDeferred | fakeClock.go:166-178 | corrected, with the release deferred: panics exactly on d <= 0 and then leaves clock and lock exactly as they were; otherwise returns NewTicker's clock and identity with the lock free |
| ClockLocks.DeferredKeepsClockUsable | fakeClock.go:166-178 | with the release deferred, a later method can always take the lock, and after a panic it finds the clock as it was before the call |
| FakeClocks.TimerReset | fakeTimer.go:100-118 | returns whether the timer was active; the target becomes now + d; d <= 0 fires it at once, delivering now, and leaves it unregistered; d > 0 leaves it unfired with its channel or callback log as it was, and registered if it was registered exactly while active; other waiters and other registrations are unchanged |
| FakeClocks.TimerResetPreservesValid | fakeTimer.go:100-118 | Reset preserves the clock invariant: a rearmed timer is registered exactly once and pending, a fired one unregistered |
| FakeClocks.TimerStop | fakeTimer.go:123-133 | returns whether the timer was active; leaves it inactive and unregistered with its target and delivered values as they were; other waiters and other registrations are unchanged |
| FakeClocks.TimerStopPreservesValid | fakeTimer.go:123-133 | Stop preserves the clock invariant |
| FakeClocks.TickerReset | fakeTicker.go:56-69 | panics exactly on d <= 0; otherwise sets the period to d and the next tick to now + d, keeps the channel's contents and the time, and registers the ticker, also after a Stop; other waiters and other registrations are unchanged |
| FakeClocks.TickerResetPreservesValid | fakeTicker.go:56-69 | a Reset that does not panic preserves the clock invariant |
| FakeClocks.TickerStop | fakeTicker.go:72-78 | unregisters the ticker, and changes no other registration and no waiter |
| FakeClocks.TickerStopPreservesValid | fakeTicker.go:72-78 | Stop preserves the clock invariant |
| FakeClocks.TickerFire | fakeTicker.go:87-93 | offers next to the channel: an empty channel receives it, a full one keeps its value; schedule, period, registrations and other waiters are unchanged |
| FakeClocks.TickerFirePreservesValid | fakeTicker.go:87-93 | Fire preserves the clock invariant, whether or not the ticker is registered |
| FakeClocks.SleeperWakeup | sleeper.go:43-56 | returns whether the sleeper was asleep; leaves it awake and unregistered with its target unchanged; other waiters and other registrations are unchanged |
| FakeClocks.SleeperWakeupPreservesValid | sleeper.go:43-56 | Wakeup preserves the clock invariant |
| NotifierSlices.Notify | notify.go:16-21 | sends d to the channels of the slice, exactly in slice order, and nothing else |
| NotifierSlices.NotifyExactlyOnce | notify.go:16-21 | on a duplicate-free slice each registered channel receives once and no other channel receives |
| NotifierSlices.AddThenNotify | notify.go:23-34 | after add, the channel receives exactly once, and the earlier channels keep their delivery order |
| NotifierSlices.RemoveThenNotify | notify.go:36-48 | after remove, the channel receives nothing and every other registered channel still receives |
| Notifiers.Add | notifiers.go:18-25 | allocates a nil map; the members become the old members plus ch |
| Notifiers.AddIdempotent | notifiers.go:18-25 | adding twice equals adding once |
| Notifiers.Remove | notifiers.go:27-34 | a nil map stays nil; otherwise the members lose ch |
| Notifiers.RemoveIdempotent | notifiers.go:27-34 | removing twice equals removing once |
| Notifiers.AddThenRemove | notifiers.go:18-34 | add followed by remove leaves an allocated map whose members are the original ones less ch |
| Notifiers.Notify | notifiers.go:10-16 | each member channel receives e exactly once, in some order, and no other channel receives anything; an empty or nil map sends nothing |
| Scenarios.TickerFirstTick | fakeTicker_test.go:28-35 | ticker with a period of 100 units started at t0: silent after half a period, holds t0 + 100 after a full period, next tick due at t0 + 200 |
| Scenarios.TickerCatchUp | fakeTicker.go:34-39 | a jump of three periods leaves one value, the earliest due instant, and the schedule keeps its phase, so one more period delivers four periods from the start |
| Scenarios.TickerRewind | fakeTicker_test.go:37-48 | after the clock is set back before the start, the ticker stays silent while re-crossing the instant it already ticked for, and signals again at its next tick |
| Scenarios.TimerStopThenReset | fakeTimer_test.go:61-72 | Stop returns true; the following Reset returns false and rearms from the Reset, so the timer fires at the new target and not the old one |
| Scenarios.TimerRearmAfterFiring | fakeTimer_test.go:74-77 | on a fired timer: Stop is false, Reset is false and rearms it, a second Reset is true |
| Scenarios.TimerFireThenNegativeReset | fakeTimer_test.go:79-84 | the rearmed timer fires at its target and delivers it; a negative Reset is then false and delivers the current instant at once |

## Left out

- systemClock.go and context.go: they wrap the real `time` package and
  `context`. They are not part of this model.
- Locking: the `sync.RWMutex` and `doWith`. Each clock method is one atomic
  transition. `ClockLocks` models the lock only around NewTicker, where a
  panic skips the release. The deadlock that a callback re-acquiring the lock would cause
  is not modelled.
- Sleeper blocking: the goroutine blocked in `wait` and the `sync.Once`
  close. The one-shot `awake` flag stands in for the closed channel.
- Notifier sends: sends in notify.go and notifiers.go block. Here they are
  records in a delivery log, so a slow receiver cannot stall the model.
- Channel identity: reflection keys (`reflect.Value`) in notifiers.go are
  natural-number channel identities.
- `time.Time` details: wall and monotonic readings, locations, and int64
  nanosecond overflow of `Add`/`Sub` are left out. Instants are unbounded
  integers.
- FakeTimer.When and FakeTimer.Fire: declared in the interface at
  fakeTimer.go:12-21 but not implemented by `fakeTimer`, so there is nothing
  to model.
- FakeClocks.Set: the order in which callbacks run within one pass is
  abstracted. Each callback touches only its own waiter and the registry is
  duplicate-free, so the resulting state does not depend on that order.
  `Listeners.Sweep` models the order itself.
- FakeClocks.Set, FakeClocks.Add, FakeClocks.Sleep and the creation
  operations: they require `WellFormed`, which every clock built by these
  operations satisfies. It stands for three facts of the Go program:
  - every registered listener is a live object, which the Go heap gives
    for free;
  - a ticker's period is positive, because its constructor and Reset panic
    otherwise;
  - the registry holds no duplicates, because `add` (listener.go:48-51)
    appends a listener only when it is not already present.
- FakeClocks.NewTicker: fakeClock.go:167-168 takes the clock's lock and
  then lets the ticker constructor panic, with no deferred release, so a
  caller that recovers is left with a clock whose later methods block
  forever. The model's `Panic` leaves a clock that still works. The code's
  behaviour is modelled separately by `ClockLocks.NewTickerAsWritten` (see
  Findings).
- FakeClocks.Tick: calls NewTicker (fakeClock.go:141-143), so on a panic it
  leaves the lock held in the same way; the model's `Panic` leaves a
  working clock.
- NotifierSlices and Notifiers: these registries are not wired into `FakeClock` in
  fakeClock.go, so they are modelled on their own.

## Findings

| source | as written | input that shows it | evidently intended | confidence | as-written member | corrected member |
|---|---|---|---|---|---|---|
| fakeClock.go:166-178 | `NewTicker` takes `fc.lock` and then calls `newFakeTicker`, which panics on a non-positive interval (fakeTicker.go:18-20); the `Unlock` at line 176 is not deferred, so it is skipped | `fc.NewTicker(0)` inside a function that recovers the panic, then any other method on the same clock, for example `fc.Now()`, which blocks on the lock | the panic leaves the clock unlocked and usable, as `FakeTicker.Reset` does by panicking before it takes the lock (fakeTicker.go:57-60); `Tick` is affected through NewTicker | medium; not executed | ClockLocks.NewTickerAsWritten, ClockLocks.AsWrittenPanicKeepsLock | ClockLocks.NewTickerDeferred, ClockLocks.DeferredKeepsClockUsable |
