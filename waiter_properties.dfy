/** What a wait promises: the meaning of one round, the order in which
    predicates are evaluated, when the wait succeeds, times out or fails, how
    rounds and ticks relate, and what the waiter's configuration does and
    does not change. */
module WaiterProperties {
  import opened Poller
  import opened Waiter

  // ---------------------------------------------------------------------
  // One round

  /** A round's verdict, stated without recursion: all predicates held, or
      the one at `at` is the first that did not, returning false or an
      error. */
  lemma {:induction false} VerdictFromMeaning(element: ElementRef, conditions: seq<ElementPredicate>, round: nat, i: nat)
    ensures VerdictFrom(element, conditions, round, i).AllMet?
        <==> forall j :: i <= j < |conditions| ==> conditions[j](element, round) == Ok(true)
    ensures var v := VerdictFrom(element, conditions, round, i);
            !v.AllMet? ==>
              && i <= v.at < |conditions|
              && (forall j :: i <= j < v.at ==> conditions[j](element, round) == Ok(true))
              && conditions[v.at](element, round) == (if v.NotMet? then Ok(false) else Err(v.error))
    decreases |conditions| - i
  {
    if i < |conditions| {
      VerdictFromMeaning(element, conditions, round, i + 1);
    }
  }

  /** Within a round the predicates are evaluated in list order, starting
      at the first, and the round stops right after the first one that does
      not return true: no later predicate is evaluated in that round. */
  lemma {:induction false} EvaluationsInOrder(element: ElementRef, conditions: seq<ElementPredicate>, round: nat, i: nat)
    requires i <= |conditions|
    ensures |EvaluationsFrom(element, conditions, round, i)| <= |conditions| - i
    ensures var v := VerdictFrom(element, conditions, round, i);
            |EvaluationsFrom(element, conditions, round, i)| == if v.AllMet? then |conditions| - i else v.at - i + 1
    ensures var evaluated := EvaluationsFrom(element, conditions, round, i);
            forall k :: 0 <= k < |evaluated| ==>
              evaluated[k] == Evaluated(round, i + k, conditions[i + k](element, round))
    decreases |conditions| - i
  {
    if i < |conditions| {
      var outcome := conditions[i](element, round);
      var evaluated := EvaluationsFrom(element, conditions, round, i);
      if outcome == Ok(true) {
        EvaluationsInOrder(element, conditions, round, i + 1);
        var rest := EvaluationsFrom(element, conditions, round, i + 1);
        assert evaluated == [Evaluated(round, i, outcome)] + rest;
        forall k | 0 < k < |evaluated|
          ensures evaluated[k] == Evaluated(round, i + k, conditions[i + k](element, round))
        {
          assert evaluated[k] == rest[k - 1];
        }
      }
    }
  }

  // ---------------------------------------------------------------------
  // The result of a wait

  /** The wait times out exactly when, in every round the ticker grants, some
      predicate returns false and none fails with an error. */
  lemma {:induction false} TimesOutIffEveryRoundFails(element: ElementRef, conditions: seq<ElementPredicate>, round: nat, remaining: nat)
    ensures PollResult(element, conditions, round, remaining) == Ok(false)
        <==> forall k :: round <= k <= round + remaining ==> RoundVerdict(element, conditions, k).NotMet?
    decreases remaining
  {
    if remaining > 0 {
      TimesOutIffEveryRoundFails(element, conditions, round + 1, remaining - 1);
    }
  }

  /** The first round in which no predicate returns false decides the wait:
      success when every predicate held in it, otherwise the error of the
      predicate that failed. That round is the last one begun. */
  lemma {:induction false} DecidedByFirstSettledRound(element: ElementRef, conditions: seq<ElementPredicate>, round: nat, remaining: nat, k: nat)
    requires round <= k <= round + remaining
    requires !RoundVerdict(element, conditions, k).NotMet?
    requires forall j :: round <= j < k ==> RoundVerdict(element, conditions, j).NotMet?
    ensures PollResult(element, conditions, round, remaining)
         == if RoundVerdict(element, conditions, k).AllMet? then Ok(true) else Err(RoundVerdict(element, conditions, k).error)
    ensures RoundsBegun(PollLog(element, conditions, round, remaining)) == k - round + 1
    decreases remaining
  {
    LogCountsUnfold(element, conditions, round, remaining);
    if k > round {
      DecidedByFirstSettledRound(element, conditions, round + 1, remaining - 1, k);
    }
  }

  /** Success and errors come from a round of the schedule: success from one
      in which every predicate held, an error from the predicate that
      raised it. */
  lemma {:induction false} ResultWitnessedByRound(element: ElementRef, conditions: seq<ElementPredicate>, round: nat, remaining: nat)
    ensures PollResult(element, conditions, round, remaining) == Ok(true) ==>
              exists k :: round <= k <= round + remaining && RoundVerdict(element, conditions, k).AllMet?
    ensures var r := PollResult(element, conditions, round, remaining);
            r.Err? ==>
              exists k :: round <= k <= round + remaining && RoundVerdict(element, conditions, k).Errored? && RoundVerdict(element, conditions, k).error == r.error
    decreases remaining
  {
    if RoundVerdict(element, conditions, round).NotMet? && remaining > 0 {
      ResultWitnessedByRound(element, conditions, round + 1, remaining - 1);
    }
  }

  /** With no predicates the wait succeeds in its first round, evaluating
      nothing and never ticking. */
  lemma EmptyConditionsSucceedAtOnce(element: ElementRef, round: nat, remaining: nat)
    ensures PollResult(element, [], round, remaining) == Ok(true)
    ensures PollLog(element, [], round, remaining) == [Began(round)]
  {
  }

  lemma LastOfAppend(a: seq<Event>, b: seq<Event>)
    requires b != []
    ensures (a + b)[|a + b| - 1] == b[|b| - 1]
  {
  }

  // ---------------------------------------------------------------------
  // Rounds and ticks

  /** The number of rounds begun in `log`. */
  function RoundsBegun(log: seq<Event>): nat
  {
    if log == [] then 0 else (if log[0].Began? then 1 else 0) + RoundsBegun(log[1..])
  }

  /** The number of ticks in `log` that returned `granted`. */
  function TicksAnswered(log: seq<Event>, granted: bool): nat
  {
    if log == [] then 0 else (if log[0].Ticked? && log[0].granted == granted then 1 else 0) + TicksAnswered(log[1..], granted)
  }

  lemma {:induction false} CountsAdd(a: seq<Event>, b: seq<Event>)
    ensures RoundsBegun(a + b) == RoundsBegun(a) + RoundsBegun(b)
    ensures TicksAnswered(a + b, true) == TicksAnswered(a, true) + TicksAnswered(b, true)
    ensures TicksAnswered(a + b, false) == TicksAnswered(a, false) + TicksAnswered(b, false)
    decreases |a|
  {
    if a == [] {
      assert a + b == b;
    } else {
      assert (a + b)[0] == a[0];
      assert (a + b)[1..] == a[1..] + b;
      CountsAdd(a[1..], b);
    }
  }

  /** A round's evaluations hold no round start and no tick. */
  lemma {:induction false} EvaluationsCountNothing(element: ElementRef, conditions: seq<ElementPredicate>, round: nat, i: nat)
    ensures var evaluated := EvaluationsFrom(element, conditions, round, i);
            RoundsBegun(evaluated) == 0 && TicksAnswered(evaluated, true) == 0 && TicksAnswered(evaluated, false) == 0
    decreases |conditions| - i
  {
    if i < |conditions| {
      var outcome := conditions[i](element, round);
      var rest := if outcome == Ok(true) then EvaluationsFrom(element, conditions, round, i + 1) else [];
      EvaluationsCountNothing(element, conditions, round, i + 1);
      CountsAdd([Evaluated(round, i, outcome)], rest);
    }
  }

  /** How the counts of a wait's log split into its first round and the
      rest of the wait. */
  lemma LogCountsUnfold(element: ElementRef, conditions: seq<ElementPredicate>, round: nat, remaining: nat)
    ensures var log := PollLog(element, conditions, round, remaining);
            var retried := RoundVerdict(element, conditions, round).NotMet?;
            var rest := if retried && remaining > 0 then PollLog(element, conditions, round + 1, remaining - 1) else [];
            && RoundsBegun(log) == 1 + RoundsBegun(rest)
            && TicksAnswered(log, true) == (if retried && remaining > 0 then 1 else 0) + TicksAnswered(rest, true)
            && TicksAnswered(log, false) == (if retried && remaining == 0 then 1 else 0) + TicksAnswered(rest, false)
  {
    var head := [Began(round)] + EvaluationsFrom(element, conditions, round, 0);
    EvaluationsCountNothing(element, conditions, round, 0);
    CountsAdd([Began(round)], EvaluationsFrom(element, conditions, round, 0));
    if !RoundVerdict(element, conditions, round).NotMet? {
      SettledRoundEndsLog(element, conditions, round, remaining);
    } else if remaining == 0 {
      RefusedTickEndsLog(element, conditions, round);
      CountsAdd(head, [Ticked(round, false)]);
    } else {
      GrantedTickContinuesLog(element, conditions, round, remaining);
      CountsAdd([Ticked(round, true)], PollLog(element, conditions, round + 1, remaining - 1));
      CountsAdd(head, [Ticked(round, true)] + PollLog(element, conditions, round + 1, remaining - 1));
    }
  }


  /** At least one round is evaluated before the first tick; every further
      round was granted by a tick, so there is one round more than granted
      ticks; the ticker grants no more rounds than its budget; and a refused
      tick happens only on a timeout, once, after the budget is used up. */
  lemma {:induction false} RoundsAndTicks(element: ElementRef, conditions: seq<ElementPredicate>, round: nat, remaining: nat)
    ensures var log := PollLog(element, conditions, round, remaining);
            RoundsBegun(log) == 1 + TicksAnswered(log, true)
    ensures TicksAnswered(PollLog(element, conditions, round, remaining), true) <= remaining
    ensures TicksAnswered(PollLog(element, conditions, round, remaining), false)
         == if PollResult(element, conditions, round, remaining) == Ok(false) then 1 else 0
    ensures PollResult(element, conditions, round, remaining) == Ok(false)
        ==> TicksAnswered(PollLog(element, conditions, round, remaining), true) == remaining
    decreases remaining
  {
    LogCountsUnfold(element, conditions, round, remaining);
    if !RoundVerdict(element, conditions, round).NotMet? {
      SettledRoundEndsLog(element, conditions, round, remaining);
    } else if remaining == 0 {
      RefusedTickEndsLog(element, conditions, round);
    } else {
      GrantedTickContinuesLog(element, conditions, round, remaining);
      RoundsAndTicks(element, conditions, round + 1, remaining - 1);
    }
  }

  // ---------------------------------------------------------------------
  // The order of events

  /** Which event may come right after `e`: a round starts with its first
      predicate; a predicate that held is followed by the next one of the
      same round; one that returned false by a tick; a granted tick by the
      next round. Nothing follows an error or a refused tick. Every
      evaluation records what the predicate returned. */
  ghost predicate Follows(element: ElementRef, conditions: seq<ElementPredicate>, e: Event, next: Event)
  {
    match e
    case Began(r) =>
      0 < |conditions| && next == Evaluated(r, 0, conditions[0](element, r))
    case Evaluated(r, i, outcome) =>
      if outcome == Ok(true) then
        i + 1 < |conditions| && next == Evaluated(r, i + 1, conditions[i + 1](element, r))
      else
        outcome == Ok(false) && next.Ticked? && next.round == r
    case Ticked(r, granted) =>
      granted && next == Began(r + 1)
  }

  /** Every event of `log` is followed only by what `Follows` allows. */
  ghost predicate Ordered(element: ElementRef, conditions: seq<ElementPredicate>, log: seq<Event>)
  {
    forall p :: 0 <= p < |log| - 1 ==> Follows(element, conditions, log[p], log[p + 1])
  }

  lemma OrderedConcat(element: ElementRef, conditions: seq<ElementPredicate>, a: seq<Event>, b: seq<Event>)
    requires Ordered(element, conditions, a) && Ordered(element, conditions, b)
    requires a != [] && b != [] ==> Follows(element, conditions, a[|a| - 1], b[0])
    ensures Ordered(element, conditions, a + b)
  {
    var ab := a + b;
    forall p | 0 <= p < |ab| - 1
      ensures Follows(element, conditions, ab[p], ab[p + 1])
    {
      if p + 1 < |a| {
        assert ab[p] == a[p] && ab[p + 1] == a[p + 1];
      } else if p + 1 == |a| {
        assert ab[p] == a[|a| - 1] && ab[p + 1] == b[0];
      } else {
        assert ab[p] == b[p - |a|] && ab[p + 1] == b[p - |a| + 1];
      }
    }
  }

  /** A round's start and its evaluations are in order, and the last of them
      is the predicate that decided the round. */
  lemma RoundOrdered(element: ElementRef, conditions: seq<ElementPredicate>, round: nat)
    ensures var head := [Began(round)] + EvaluationsFrom(element, conditions, round, 0);
            Ordered(element, conditions, head)
    ensures var head := [Began(round)] + EvaluationsFrom(element, conditions, round, 0);
            var verdict := RoundVerdict(element, conditions, round);
            verdict.NotMet? ==> head[|head| - 1] == Evaluated(round, verdict.at, Ok(false))
  {
    var evaluated := EvaluationsFrom(element, conditions, round, 0);
    var head := [Began(round)] + evaluated;
    EvaluationsInOrder(element, conditions, round, 0);
    VerdictFromMeaning(element, conditions, round, 0);
    forall p | 0 <= p < |head| - 1
      ensures Follows(element, conditions, head[p], head[p + 1])
    {
      assert head[p + 1] == evaluated[p];
      if p > 0 {
        assert head[p] == evaluated[p - 1];
      }
    }
  }

  /** The wait starts by beginning its first round, and every event of it
      is followed only by what `Follows` allows. In particular no predicate
      is evaluated after one that failed with an error, and no tick happens
      after it. */
  lemma {:induction false} LogFollowsOrder(element: ElementRef, conditions: seq<ElementPredicate>, round: nat, remaining: nat, log: seq<Event>)
    requires log == PollLog(element, conditions, round, remaining)
    ensures log[0] == Began(round)
    ensures Ordered(element, conditions, log)
    decreases remaining
  {
    var head := [Began(round)] + EvaluationsFrom(element, conditions, round, 0);
    RoundOrdered(element, conditions, round);
    if !RoundVerdict(element, conditions, round).NotMet? {
      SettledRoundEndsLog(element, conditions, round, remaining);
    } else if remaining == 0 {
      RefusedTickEndsLog(element, conditions, round);
      OrderedConcat(element, conditions, head, [Ticked(round, false)]);
    } else {
      var rest := PollLog(element, conditions, round + 1, remaining - 1);
      GrantedTickContinuesLog(element, conditions, round, remaining);
      LogFollowsOrder(element, conditions, round + 1, remaining - 1, rest);
      OrderedAcrossTick(element, conditions, head, round, rest);
    }
  }

  /** A round that ended on a false predicate, a granted tick and an
      ordered continuation that starts the next round are in order together. */
  lemma OrderedAcrossTick(element: ElementRef, conditions: seq<ElementPredicate>, head: seq<Event>, round: nat, rest: seq<Event>)
    requires Ordered(element, conditions, head) && head != []
    requires head[|head| - 1].Evaluated? && head[|head| - 1].round == round && head[|head| - 1].outcome == Ok(false)
    requires Ordered(element, conditions, rest) && rest != [] && rest[0] == Began(round + 1)
    ensures Ordered(element, conditions, head + ([Ticked(round, true)] + rest))
  {
    var tick := [Ticked(round, true)];
    OrderedConcat(element, conditions, tick, rest);
    OrderedConcat(element, conditions, head, tick + rest);
  }

  /** The last event of a round: the predicate that decided it, or, when
      every predicate held, the last predicate or the round start itself. */
  lemma RoundEnd(element: ElementRef, conditions: seq<ElementPredicate>, round: nat)
    ensures var head := [Began(round)] + EvaluationsFrom(element, conditions, round, 0);
            head[|head| - 1]
            == match RoundVerdict(element, conditions, round)
               case AllMet =>
                 if conditions == [] then Began(round)
                 else Evaluated(round, |conditions| - 1, Ok(true))
               case NotMet(at) => Evaluated(round, at, Ok(false))
               case Errored(at, e) => Evaluated(round, at, Err(e))
  {
    var evaluated := EvaluationsFrom(element, conditions, round, 0);
    EvaluationsInOrder(element, conditions, round, 0);
    VerdictFromMeaning(element, conditions, round, 0);
    if evaluated != [] {
      assert ([Began(round)] + evaluated)[|evaluated|] == evaluated[|evaluated| - 1];
    }
  }

  /** Whether a wait may stop right after an event, and with what result. */
  datatype Ending = GoesOn | Stops(result: WebDriverResult<bool>)

  /** The ending an event allows: a refused tick stops the wait with a
      timeout (`Ok(false)`), an evaluation that failed stops it with that
      error, and a round start or a predicate that held stops it with
      success (every predicate of the round, if any, held). A predicate that
      returned false and a granted tick never end a wait. */
  function EndingAfter(e: Event): Ending
  {
    match e
    case Began(_) => Stops(Ok(true))
    case Evaluated(_, _, outcome) => if outcome == Ok(false) then GoesOn else Stops(outcome)
    case Ticked(_, granted) => if granted then GoesOn else Stops(Ok(false))
  }

  /** The last event says how the wait ended. */
  lemma {:induction false} LastEventDecides(element: ElementRef, conditions: seq<ElementPredicate>, round: nat, remaining: nat, log: seq<Event>)
    requires log == PollLog(element, conditions, round, remaining)
    ensures log != [] && EndingAfter(log[|log| - 1]) == Stops(PollResult(element, conditions, round, remaining))
    decreases remaining
  {
    var head := [Began(round)] + EvaluationsFrom(element, conditions, round, 0);
    var result := PollResult(element, conditions, round, remaining);
    if !RoundVerdict(element, conditions, round).NotMet? {
      SettledRoundEndsLog(element, conditions, round, remaining);
      SettledRoundEnding(element, conditions, round);
      assert log[|log| - 1] == head[|head| - 1];
    } else if remaining == 0 {
      RefusedTickEndsLog(element, conditions, round);
      LastOfAppend(head, [Ticked(round, false)]);
      assert log[|log| - 1] == Ticked(round, false) && result == Ok(false);
    } else {
      var rest := PollLog(element, conditions, round + 1, remaining - 1);
      GrantedTickContinuesLog(element, conditions, round, remaining);
      LastEventDecides(element, conditions, round + 1, remaining - 1, rest);
      LastOfAppend([Ticked(round, true)], rest);
      LastOfAppend(head, [Ticked(round, true)] + rest);
      assert log[|log| - 1] == rest[|rest| - 1];
    }
  }

  /** A round in which no predicate returned false ends on an event that
      stops the wait with that round's verdict. */
  lemma SettledRoundEnding(element: ElementRef, conditions: seq<ElementPredicate>, round: nat)
    requires !RoundVerdict(element, conditions, round).NotMet?
    ensures var head := [Began(round)] + EvaluationsFrom(element, conditions, round, 0);
            var verdict := RoundVerdict(element, conditions, round);
            EndingAfter(head[|head| - 1]) == Stops(if verdict.AllMet? then Ok(true) else Err(verdict.error))
  {
    RoundEnd(element, conditions, round);
  }

  // ---------------------------------------------------------------------
  // The waiter

  /** With `NoWait` the predicates get exactly one round and the ticker
      grants nothing: the outcome is that of the first round. */
  lemma NoWaitPollsOnce(w: ElementWaiter, conditions: seq<ElementPredicate>, clock: nat)
    requires w.poller == NoWait
    ensures var log := PollLog(w.element, conditions, 0, Allowance(w.poller, clock));
            RoundsBegun(log) == 1 && TicksAnswered(log, true) == 0
    ensures PollResult(w.element, conditions, 0, Allowance(w.poller, clock))
         == match RoundVerdict(w.element, conditions, 0)
            case AllMet => Ok(true)
            case NotMet(_) => Ok(false)
            case Errored(_, e) => Err(e)
  {
    RoundsAndTicks(w.element, conditions, 0, 0);
  }

  /** With `FixedCount` the predicates are evaluated in at most
      `maxAttempts + 1` rounds, and in exactly that many when the ticker
      ends the wait. */
  lemma FixedCountBoundsRounds(w: ElementWaiter, conditions: seq<ElementPredicate>, clock: nat)
    requires w.poller.FixedCount?
    ensures RoundsBegun(PollLog(w.element, conditions, 0, Allowance(w.poller, clock))) <= w.poller.maxAttempts + 1
    ensures PollResult(w.element, conditions, 0, Allowance(w.poller, clock)) == Ok(false)
        ==> RoundsBegun(PollLog(w.element, conditions, 0, Allowance(w.poller, clock))) == w.poller.maxAttempts + 1
  {
    RoundsAndTicks(w.element, conditions, 0, w.poller.maxAttempts);
  }

  /** A waiter made without a configured poller evaluates its predicates
      once. */
  lemma UnconfiguredWaiterPollsOnce(element: ElementRef, config: Config, message: string, conditions: seq<ElementPredicate>, clock: nat)
    requires POLLER_KEY !in config
    ensures var w := WaitUntil(element, config, message);
            RoundsBegun(PollLog(w.element, conditions, 0, Allowance(w.poller, clock))) == 1
  {
    NoWaitPollsOnce(WaitUntil(element, config, message), conditions, clock);
  }

  /** When every round of the schedule has a predicate returning false, the
      terminal operation fails with a timeout that carries the waiter's
      message verbatim. */
  lemma ExhaustedScheduleTimesOut(w: ElementWaiter, conditions: seq<ElementPredicate>, clock: nat)
    requires forall k :: 0 <= k <= Allowance(w.poller, clock) ==> RoundVerdict(w.element, conditions, k).NotMet?
    ensures ConditionsOutcome(w, conditions, clock) == Err(Timeout(w.message))
  {
    TimesOutIffEveryRoundFails(w.element, conditions, 0, Allowance(w.poller, clock));
  }

  /** An error in the first round ends the wait with that error, with no
      tick at all, whatever the poller's budget and the `ignoreErrors`
      flag. */
  lemma FirstRoundErrorEndsWait(w: ElementWaiter, conditions: seq<ElementPredicate>, clock: nat)
    requires RoundVerdict(w.element, conditions, 0).Errored?
    ensures ConditionsOutcome(w, conditions, clock) == Err(RoundVerdict(w.element, conditions, 0).error)
    ensures var log := PollLog(w.element, conditions, 0, Allowance(w.poller, clock));
            TicksAnswered(log, true) == 0 && TicksAnswered(log, false) == 0
  {
    var budget := Allowance(w.poller, clock);
    DecidedByFirstSettledRound(w.element, conditions, 0, budget, 0);
    LogCountsUnfold(w.element, conditions, 0, budget);
  }

  /** A single predicate that returns false in the first two rounds and true
      in the third makes the wait succeed in its third round, after two
      granted ticks, provided the schedule grants two more rounds. */
  lemma SucceedsInThirdRound(w: ElementWaiter, f: ElementPredicate, clock: nat)
    requires Allowance(w.poller, clock) >= 2
    requires f(w.element, 0) == Ok(false) && f(w.element, 1) == Ok(false) && f(w.element, 2) == Ok(true)
    ensures ConditionsOutcome(w, [f], clock) == Ok(())
    ensures RoundsBegun(PollLog(w.element, [f], 0, Allowance(w.poller, clock))) == 3
  {
    assert [f][0] == f;
    assert RoundVerdict(w.element, [f], 0).NotMet?;
    assert RoundVerdict(w.element, [f], 1).NotMet?;
    assert VerdictFrom(w.element, [f], 2, 1) == AllMet;
    assert RoundVerdict(w.element, [f], 2).AllMet?;
    DecidedByFirstSettledRound(w.element, [f], 0, Allowance(w.poller, clock), 2);
  }

  /** The outcome of a wait does not depend on the `ignoreErrors` flag:
      tolerating errors is the business of the predicates, which read the
      flag when they are built. */
  lemma IgnoreErrorsLeavesOutcome(w: ElementWaiter, ignore: bool, conditions: seq<ElementPredicate>, clock: nat)
    ensures ConditionsOutcome(IgnoreErrors(w, ignore), conditions, clock) == ConditionsOutcome(w, conditions, clock)
  {
  }

  /** Configuration steps touch separate fields: the last poller set wins,
      and setting the poller and the flag commute. */
  lemma ConfigurationSteps(w: ElementWaiter, p: ElementPoller, q: ElementPoller, ignore: bool)
    ensures WithPoller(WithPoller(w, p), q) == WithPoller(w, q)
    ensures IgnoreErrors(WithPoller(w, p), ignore) == WithPoller(IgnoreErrors(w, ignore), p)
  {
  }
}
