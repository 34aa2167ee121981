# ElementWaiter: polling a remote element until every predicate holds

This project models the waiter of the `thirtyfour_query` crate, a helper
library for the `thirtyfour` WebDriver client. An `ElementWaiter` is a
configuration value. It holds an element reference, a polling strategy
(`ElementPoller`), a timeout message and an `ignore_errors` flag, and it is
built fluently. Its terminal operations `condition` and `conditions` run
`run_poller`, which works in rounds:

- each round evaluates the predicates in list order and stops at the first
  one that returns false;
- a predicate error ends the whole wait at once with that error;
- a round in which every predicate held ends the wait with success;
- otherwise the waiter asks its ticker for another round, and a refused
  tick ends the wait with a `Timeout` error carrying the waiter's message.

The model has three modules:

- `Poller` (`poller.dfy`): the three polling strategies, and the ticker as
  a class whose state is the number of rounds it will still grant.
- `Waiter` (`waiter.dfy`):
  - the waiter value and its builders;
  - the result and the event log of a wait, as functions of the
    predicates and the ticker's budget (`PollResult`, `PollLog`);
  - `RunPoller` and `EvaluateRound`, the imperative loops, proved to
    compute that result and that log;
  - the terminal operations.
- `WaiterProperties` (`waiter_properties.dfy`): what a wait promises,
  proved about those functions:
  - evaluation order and short-circuit within a round;
  - when the wait succeeds, times out or fails;
  - one round more than granted ticks;
  - the order of every event of the log;
  - what the last event says about the result;
  - the consequences for each polling strategy and for the configuration
    surface.

Three modelling choices shape the rest:

- A predicate is a function of the element and the round number. The
  round number stands in for the time at which the remote element is
  read.
- A fresh ticker's budget is `Allowance(poller, clock)`:
  - `NoWait` grants no further round;
  - `FixedCount` grants `maxAttempts` further rounds;
  - `TimeoutWithInterval` grants as many rounds as fit before its
    deadline, which depends on the wall clock. That number is the input
    `clock`.
- `RunPoller` returns a ghost log of every round begun, every predicate
  evaluated and every tick, with its outcome. The ordering properties are
  stated on that log.

A predicate error always ends the wait, whatever `ignoreErrors` says
(`?` at src/waiter.rs:57). The flag only reaches the predicates that the
named conditions build; those predicates decide for themselves whether to
turn an error into `Ok(false)`. A description of the waiter that makes
error propagation depend on the flag does not match this code, and the
model follows the code (`FirstRoundErrorEndsWait`,
`IgnoreErrorsLeavesOutcome`).

## Model

| member | source | states |
|---|---|---|
| Poller.Allowance | src/waiter.rs:53 | a `NoWait` ticker grants no further round; a `FixedCount` ticker grants exactly `maxAttempts` |
| Poller.Ticker.constructor | src/waiter.rs:53 | a fresh ticker starts with the strategy's whole budget |
| Poller.Ticker.Tick | src/waiter.rs:67 | a tick is granted iff budget is left; a grant uses one unit; after a refusal the budget is zero, so every later tick is refused too |
| Waiter.New | src/waiter.rs:18-28 | the waiter keeps the element, poller and message it is given and ignores errors by default |
| Waiter.WaitUntil | src/waiter.rs:340-347 | the poller is the session's configured `ElementPoller` when there is one, otherwise `NoWait` |
| Waiter.WithPoller | src/waiter.rs:32-35 | replaces the poller and leaves every other field unchanged |
| Waiter.IgnoreErrors | src/waiter.rs:40-43 | replaces the flag and leaves every other field unchanged |
| Waiter.Wait | src/waiter.rs:48-50 | is `WithPoller` with `TimeoutWithInterval(timeout, interval)` |
| Waiter.RunPoller | src/waiter.rs:52-71 | the loop returns exactly the result of the round-by-round definition `PollResult`, and its event log is exactly `PollLog`, for the ticker's budget |
| Waiter.EvaluateRound | src/waiter.rs:55-61 | one round gives `Ok(true)` iff every predicate held, `Ok(false)` iff the first one that did not hold returned false, and the error of the first failing predicate otherwise; it evaluates exactly the predicates up to the deciding one |
| Waiter.SettledRoundEndsLog | src/waiter.rs:63-65 | a round with no false predicate is the last one: the log ends with it and the result is success or that round's error |
| Waiter.RefusedTickEndsLog | src/waiter.rs:67-69 | a round with a false predicate and no budget left ends with one refused tick and `Ok(false)` |
| Waiter.GrantedTickContinuesLog | src/waiter.rs:54-70 | a round with a false predicate and budget left is followed by a granted tick and the next round, with the same final result |
| Waiter.Conditions | src/waiter.rs:84-89 | succeeds iff the polling succeeded; a refused tick becomes `Timeout` with the waiter's message; errors pass through |
| Waiter.Condition | src/waiter.rs:77-82 | is `conditions` on the one-element list `[f]` |
| WaiterProperties.VerdictFromMeaning | src/waiter.rs:56-61 | a round succeeds iff every predicate returns `Ok(true)`; otherwise it is decided by the first predicate that does not, whose outcome is `Ok(false)` or the error |
| WaiterProperties.EvaluationsInOrder | src/waiter.rs:56-61 | the k-th evaluation of a round is predicate k on that round; no predicate after the deciding one is evaluated |
| WaiterProperties.TimesOutIffEveryRoundFails | src/waiter.rs:54-70 | the polling ends with `Ok(false)` iff every round the ticker allows has a false predicate and no error |
| WaiterProperties.DecidedByFirstSettledRound | src/waiter.rs:54-70 | the first round without a false predicate decides the result, and it is the last round begun |
| WaiterProperties.ResultWitnessedByRound | src/waiter.rs:54-70 | success comes from some round in which all predicates held, and an error from a round whose predicate raised that very error |
| WaiterProperties.EmptyConditionsSucceedAtOnce | src/waiter.rs:55-65 | with no predicates the wait succeeds in its first round without evaluating anything |
| WaiterProperties.LogCountsUnfold | src/waiter.rs:54-70 | the rounds and ticks of a wait are those of its first round plus those of the rest of the wait |
| WaiterProperties.RoundsAndTicks | src/waiter.rs:54-70 | rounds begun = 1 + granted ticks; granted ticks never exceed the budget; exactly one refused tick iff the result is `Ok(false)`, and then the whole budget was used |
| WaiterProperties.RoundOrdered | src/waiter.rs:55-61 | within a round the start and the evaluations follow the order relation, and a round with a false predicate ends on that predicate |
| WaiterProperties.LogFollowsOrder | src/waiter.rs:52-71 | the log starts with round 0, and every event is followed only by what the order relation allows: the next predicate after a true one, a tick after a false one, the next round after a granted tick, nothing after an error or a refused tick |
| WaiterProperties.OrderedAcrossTick | src/waiter.rs:67-70 | a round ending on a false predicate, a granted tick and an ordered next round are in order together |
| WaiterProperties.RoundEnd | src/waiter.rs:56-65 | the last event of a round is the predicate that decided it, or the round start when there are no predicates |
| WaiterProperties.SettledRoundEnding | src/waiter.rs:63-65 | a round with no false predicate ends on an event that stops the wait with that round's verdict |
| WaiterProperties.LastEventDecides | src/waiter.rs:52-71 | the last event of the log determines the result: a refused tick gives `Ok(false)`, a failing predicate its error, a true predicate or an empty round success |
| WaiterProperties.NoWaitPollsOnce | src/waiter.rs:52-71 | with `NoWait` there is exactly one round and no granted tick, and the result is that round's verdict |
| WaiterProperties.FixedCountBoundsRounds | src/waiter.rs:52-71 | with `FixedCount` there are at most `maxAttempts + 1` rounds, and exactly that many when the ticker ends the wait |
| WaiterProperties.UnconfiguredWaiterPollsOnce | src/waiter.rs:344-346 | a waiter for a session without a configured poller evaluates one round only |
| WaiterProperties.ExhaustedScheduleTimesOut | src/waiter.rs:84-89 | when every allowed round has a false predicate, `conditions` fails with `Timeout` carrying the waiter's message |
| WaiterProperties.FirstRoundErrorEndsWait | src/waiter.rs:57 | an error in the first round is the result, with no tick at all, whatever the poller and the flag |
| WaiterProperties.SucceedsInThirdRound | src/waiter.rs:77-82 | a predicate false in rounds 0 and 1 and true in round 2 succeeds after exactly three rounds when the budget allows two more |
| WaiterProperties.IgnoreErrorsLeavesOutcome | src/waiter.rs:40-43 | the outcome of `conditions` does not depend on the `ignoreErrors` flag |
| WaiterProperties.ConfigurationSteps | src/waiter.rs:32-43 | the last poller set wins, and setting the poller and setting the flag commute |

## Left out

- The ticker's timing: `ElementPollerTicker` and the `ElementPoller` definition are not part of this model. The sleeps between rounds and the wall-clock deadline of `TimeoutWithInterval` are abstracted to a finite budget of further rounds, with the clock as an input. `FixedCount` granting `maxAttempts` further rounds follows the strategy's description, not its code.
- Poller.Ticker.Tick: does not sleep and does not read the clock; it only consumes the budget.
- `async`, `Send` and cancellation: each remote call is a plain function call. The `_test_is_send` compile-time check (src/waiter.rs:350 on) is not modelled.
- The remote WebDriver calls made by predicates: a predicate is an arbitrary function of the element and the round.
- The named conditions `stale`, `displayed`, `enabled`, `has_text`, `has_class` and the rest (src/waiter.rs:91-328), together with `handle_errors` and the `conditions` module they come from. Each of them is `condition` applied to one predicate, so `Waiter.Condition` covers how they wait. Their predicates and `Needle` text matching are not modelled. One remark: `stale` waits for the negation of `is_present` (src/waiter.rs:95).
- WebDriver error kinds: every error a predicate reports other than `Timeout` is collapsed into `Remote(detail)`.
- The inner `for` loop of `run_poller` is written as the separate method `EvaluateRound`, called once per round.
- `Waiter.TimeoutError` is the error `timeout` builds (src/waiter.rs:73-75). It has no contract of its own; `Waiter.Conditions` states it.
- The `wikipedia.rs` example program.
