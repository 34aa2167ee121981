/** The element waiter: a configuration value built fluently, and the loop
    that polls a list of predicates against one element until all of them
    hold in the same round, the ticker refuses another round, or a predicate
    fails with an error. */
module Waiter {
  import opened Poller

  /** A reference to a remote UI element. */
  datatype ElementRef = ElementRef(id: string)

  /** The errors of the WebDriver client. Only `Timeout` is raised by the
      waiter itself; every other kind a predicate may report is `Remote`. */
  datatype WebDriverError =
    | Timeout(message: string)
    | Remote(detail: string)

  datatype WebDriverResult<+T> = Ok(value: T) | Err(error: WebDriverError)

  /** A predicate on the element. The remote element changes over time, so
      the outcome also depends on the round in which it is evaluated. */
  type ElementPredicate = (ElementRef, nat) -> WebDriverResult<bool>

  /** The session configuration: named settings. */
  type Config = map<string, ElementPoller>

  const POLLER_KEY: string := "ElementPoller"

  datatype ElementWaiter = ElementWaiter(
    element: ElementRef,
    poller: ElementPoller,
    message: string,
    ignoreErrors: bool)

  // ---------------------------------------------------------------------
  // Configuration

  function New(element: ElementRef, poller: ElementPoller, message: string): (w: ElementWaiter)
    ensures w.element == element && w.poller == poller && w.message == message
    ensures w.ignoreErrors
  {
    ElementWaiter(element, poller, message, true)
  }

  /** The waiter for `element`: the session's configured poller, or `NoWait`
      when none is configured. */
  function WaitUntil(element: ElementRef, config: Config, message: string): (w: ElementWaiter)
    ensures w.element == element && w.message == message && w.ignoreErrors
    ensures POLLER_KEY in config ==> w.poller == config[POLLER_KEY]
    ensures POLLER_KEY !in config ==> w.poller == NoWait
  {
    var poller := if POLLER_KEY in config then config[POLLER_KEY] else NoWait;
    New(element, poller, message)
  }

  function WithPoller(w: ElementWaiter, poller: ElementPoller): (w': ElementWaiter)
    ensures w'.poller == poller
    ensures w'.element == w.element && w'.message == w.message && w'.ignoreErrors == w.ignoreErrors
  {
    w.(poller := poller)
  }

  function IgnoreErrors(w: ElementWaiter, ignore: bool): (w': ElementWaiter)
    ensures w'.ignoreErrors == ignore
    ensures w'.element == w.element && w'.message == w.message && w'.poller == w.poller
  {
    w.(ignoreErrors := ignore)
  }

  /** Waits up to `timeout`, polling once after each `interval`. */
  function Wait(w: ElementWaiter, timeout: Duration, interval: Duration): (w': ElementWaiter)
    ensures w' == WithPoller(w, TimeoutWithInterval(timeout, interval))
    ensures w'.poller.TimeoutWithInterval? && w'.poller.timeout == timeout && w'.poller.interval == interval
  {
    WithPoller(w, TimeoutWithInterval(timeout, interval))
  }

  /** The error a wait ends with when the ticker refuses another round. */
  function TimeoutError(w: ElementWaiter): WebDriverResult<()>
  {
    Err(Timeout(w.message))
  }

  // ---------------------------------------------------------------------
  // What one wait does, as functions of its inputs

  /** How one round ended: every predicate held, predicate `at` returned
      false, or predicate `at` failed with `error`. */
  datatype Verdict =
    | AllMet
    | NotMet(at: nat)
    | Errored(at: nat, error: WebDriverError)

  /** What the loop does, in order. */
  datatype Event =
    | Began(round: nat)
    | Evaluated(round: nat, index: nat, outcome: WebDriverResult<bool>)
    | Ticked(round: nat, granted: bool)

  /** The verdict of `round` from predicate `i` on: predicates are tried in
      list order and the first one that does not return true decides. */
  function VerdictFrom(element: ElementRef, conditions: seq<ElementPredicate>, round: nat, i: nat): Verdict
    decreases |conditions| - i
  {
    if i >= |conditions| then AllMet
    else
      match conditions[i](element, round)
      case Err(e) => Errored(i, e)
      case Ok(met) => if met then VerdictFrom(element, conditions, round, i + 1) else NotMet(i)
  }

  function RoundVerdict(element: ElementRef, conditions: seq<ElementPredicate>, round: nat): Verdict
  {
    VerdictFrom(element, conditions, round, 0)
  }

  /** The evaluations of `round` from predicate `i` on. */
  ghost function EvaluationsFrom(element: ElementRef, conditions: seq<ElementPredicate>, round: nat, i: nat): seq<Event>
    decreases |conditions| - i
  {
    if i >= |conditions| then []
    else
      var outcome := conditions[i](element, round);
      [Evaluated(round, i, outcome)]
      + if outcome == Ok(true) then EvaluationsFrom(element, conditions, round, i + 1) else []
  }

  /** The result of a wait that is in `round` with `remaining` further
      rounds granted by its ticker. */
  function PollResult(element: ElementRef, conditions: seq<ElementPredicate>, round: nat, remaining: nat): WebDriverResult<bool>
    decreases remaining
  {
    match RoundVerdict(element, conditions, round)
    case AllMet => Ok(true)
    case Errored(_, e) => Err(e)
    case NotMet(_) =>
      if remaining == 0 then Ok(false)
      else PollResult(element, conditions, round + 1, remaining - 1)
  }

  /** The events of a wait that is in `round` with `remaining` further
      rounds granted by its ticker. */
  ghost function PollLog(element: ElementRef, conditions: seq<ElementPredicate>, round: nat, remaining: nat): seq<Event>
    decreases remaining
  {
    [Began(round)] + EvaluationsFrom(element, conditions, round, 0)
    + match RoundVerdict(element, conditions, round)
      case NotMet(_) =>
        [Ticked(round, remaining > 0)]
        + if remaining == 0 then [] else PollLog(element, conditions, round + 1, remaining - 1)
      case _ => []
  }

  /** What `conditions` returns for a waiter whose ticker is built with
      `clock`. */
  function ConditionsOutcome(w: ElementWaiter, conditions: seq<ElementPredicate>, clock: nat): WebDriverResult<()>
  {
    match PollResult(w.element, conditions, 0, Allowance(w.poller, clock))
    case Err(e) => Err(e)
    case Ok(met) => if met then Ok(()) else TimeoutError(w)
  }

  // ---------------------------------------------------------------------
  // The loop

  /** Polls `conditions` until all hold in one round (`Ok(true)`), the ticker
      refuses another round (`Ok(false)`) or a predicate fails (`Err`). The
      ticker's budget is `Allowance(w.poller, clock)`; `log` records every
      round begun, every predicate evaluated and every tick, in order. */
  method RunPoller(w: ElementWaiter, conditions: seq<ElementPredicate>, clock: nat)
    returns (r: WebDriverResult<bool>, ghost log: seq<Event>)
    ensures r == PollResult(w.element, conditions, 0, Allowance(w.poller, clock))
    ensures log == PollLog(w.element, conditions, 0, Allowance(w.poller, clock))
  {
    var ticker := new Ticker(w.poller, clock);
    ghost var budget := Allowance(w.poller, clock);
    ghost var left := budget;
    var round: nat := 0;
    log := [];
    while true
      invariant left == ticker.remaining
      invariant PollResult(w.element, conditions, 0, budget) == PollResult(w.element, conditions, round, left)
      invariant PollLog(w.element, conditions, 0, budget) == log + PollLog(w.element, conditions, round, left)
      decreases left
    {
      ghost var before := log;
      var roundOutcome, evaluated := EvaluateRound(w, conditions, round);
      ghost var head := [Began(round)] + evaluated;
      log := log + head;
      if roundOutcome.Err? || roundOutcome.value {
        SettledRoundEndsLog(w.element, conditions, round, left);
        return if roundOutcome.Err? then Err(roundOutcome.error) else Ok(true), log;
      }
      var more := ticker.Tick();
      log := log + [Ticked(round, more)];
      if !more {
        RefusedTickEndsLog(w.element, conditions, round);
        Regroup(before, head, [Ticked(round, false)]);
        return Ok(false), log;
      }
      GrantedTickContinuesLog(w.element, conditions, round, left);
      RegroupTail(before, head, [Ticked(round, true)], PollLog(w.element, conditions, round + 1, left - 1));
      round, left := round + 1, left - 1;
    }
  }

  /** One round of the loop: evaluates the predicates in list order, stops
      at the first that returns false (`Ok(false)`) and passes on the first
      error at once; `Ok(true)` when every predicate returned true. */
  method EvaluateRound(w: ElementWaiter, conditions: seq<ElementPredicate>, round: nat)
    returns (outcome: WebDriverResult<bool>, ghost evaluated: seq<Event>)
    ensures outcome.Ok? ==> (outcome.value <==> RoundVerdict(w.element, conditions, round).AllMet?)
    ensures outcome.Err? <==> RoundVerdict(w.element, conditions, round).Errored?
    ensures outcome.Err? ==> outcome.error == RoundVerdict(w.element, conditions, round).error
    ensures evaluated == EvaluationsFrom(w.element, conditions, round, 0)
  {
    var conditionsMet := true;
    evaluated := [];
    var i := 0;
    while i < |conditions|
      invariant 0 <= i <= |conditions|
      invariant VerdictFrom(w.element, conditions, round, i) == RoundVerdict(w.element, conditions, round)
      invariant evaluated + EvaluationsFrom(w.element, conditions, round, i) == EvaluationsFrom(w.element, conditions, round, 0)
      decreases |conditions| - i
    {
      var result := conditions[i](w.element, round);
      ghost var rest := EvaluationsFrom(w.element, conditions, round, i + 1);
      assert EvaluationsFrom(w.element, conditions, round, i)
          == [Evaluated(round, i, result)] + if result == Ok(true) then rest else [];
      evaluated := evaluated + [Evaluated(round, i, result)];
      if result.Err? {
        return Err(result.error), evaluated;
      }
      if !result.value {
        conditionsMet := false;
        break;
      }
      i := i + 1;
    }
    assert i == |conditions| ==> EvaluationsFrom(w.element, conditions, round, i) == [];
    outcome := Ok(conditionsMet);
  }

  /** A round in which no predicate returned false is the last one: the
      log ends with it and its verdict is the result. */
  lemma SettledRoundEndsLog(element: ElementRef, conditions: seq<ElementPredicate>, round: nat, remaining: nat)
    requires !RoundVerdict(element, conditions, round).NotMet?
    ensures PollLog(element, conditions, round, remaining) == [Began(round)] + EvaluationsFrom(element, conditions, round, 0)
    ensures PollResult(element, conditions, round, remaining)
         == if RoundVerdict(element, conditions, round).AllMet? then Ok(true) else Err(RoundVerdict(element, conditions, round).error)
  {
  }

  /** A round in which a predicate returned false, with no round left to
      grant, ends with a refused tick and a timeout. */
  lemma RefusedTickEndsLog(element: ElementRef, conditions: seq<ElementPredicate>, round: nat)
    requires RoundVerdict(element, conditions, round).NotMet?
    ensures PollLog(element, conditions, round, 0)
         == [Began(round)] + EvaluationsFrom(element, conditions, round, 0) + [Ticked(round, false)]
    ensures PollResult(element, conditions, round, 0) == Ok(false)
  {
  }

  /** A round in which a predicate returned false, with rounds left, is
      followed by a granted tick and the rest of the wait. */
  lemma GrantedTickContinuesLog(element: ElementRef, conditions: seq<ElementPredicate>, round: nat, remaining: nat)
    requires RoundVerdict(element, conditions, round).NotMet? && remaining > 0
    ensures PollLog(element, conditions, round, remaining)
         == ([Began(round)] + EvaluationsFrom(element, conditions, round, 0))
            + ([Ticked(round, true)] + PollLog(element, conditions, round + 1, remaining - 1))
    ensures PollResult(element, conditions, round, remaining) == PollResult(element, conditions, round + 1, remaining - 1)
  {
  }

  lemma Regroup(a: seq<Event>, b: seq<Event>, c: seq<Event>)
    ensures a + (b + c) == (a + b) + c
  {
  }

  lemma RegroupTail(a: seq<Event>, b: seq<Event>, c: seq<Event>, d: seq<Event>)
    ensures a + (b + (c + d)) == ((a + b) + c) + d
  {
  }

  // ---------------------------------------------------------------------
  // Terminal operations

  /** Waits until every predicate in `conditions` holds in the same round. */
  method Conditions(w: ElementWaiter, conditions: seq<ElementPredicate>, clock: nat)
    returns (r: WebDriverResult<()>)
    ensures r == ConditionsOutcome(w, conditions, clock)
    ensures r == Ok(()) <==> PollResult(w.element, conditions, 0, Allowance(w.poller, clock)) == Ok(true)
    ensures PollResult(w.element, conditions, 0, Allowance(w.poller, clock)) == Ok(false) ==> r == Err(Timeout(w.message))
  {
    var polled, _ := RunPoller(w, conditions, clock);
    match polled
    case Err(e) => r := Err(e);
    case Ok(met) => r := if met then Ok(()) else TimeoutError(w);
  }

  /** Waits until the predicate `f` holds. */
  method Condition(w: ElementWaiter, f: ElementPredicate, clock: nat)
    returns (r: WebDriverResult<()>)
    ensures r == ConditionsOutcome(w, [f], clock)
  {
    var polled, _ := RunPoller(w, [f], clock);
    match polled
    case Err(e) => r := Err(e);
    case Ok(met) => r := if met then Ok(()) else TimeoutError(w);
  }
}
