/** The attempt loop of the `async_retry` decorator and the remaining-time
    arithmetic of `TimeoutContext`.

    The wrapped coroutine is a script: its k-th call (0-based) does `op(k)`.
    `asyncio.wait_for` cancelling a slow attempt is the `TimedOut` variant, and
    `asyncio.sleep` and the `on_retry` callback are recorded as events instead
    of being performed. */
module Retry {
  import opened Base

  /** What one call of the wrapped coroutine does. */
  datatype Attempt<T, E> = Ok(value: T) | Raise(err: E) | TimedOut

  /** A visible effect of the wrapper between two attempts. */
  datatype Event<E> = OnRetry(err: E, attempt: nat) | Sleep(seconds: real)

  /** The exception that `RetryError` is raised from. */
  datatype Cause<E> = Raised(err: E) | Timeout

  /** How a call of the decorated coroutine ends. */
  datatype Outcome<T, E> =
    | Returned(value: T)           // the value of the first successful attempt
    | RetryError(cause: Cause<E>)  // `raise RetryError(...) from cause`
    | Escaped(err: E)              // an exception outside `exceptions` propagates unchanged
    | NoAttempt                    // `max_retries < 0`: the loop body never runs, the wrapper returns None

  /** The decorator's arguments: `max_retries`, `delay`, `backoff`, and whether
      an `on_retry` callback was given. The `exceptions` argument is the
      `retryable` predicate passed alongside. */
  datatype Policy = Policy(maxRetries: int, delay: real, backoff: real, observed: bool)

  /** One run of the wrapper: its outcome, how many times it called the
      coroutine, and the callbacks and sleeps it performed, in order. */
  datatype Run<T, E> = Run(outcome: Outcome<T, E>, calls: nat, events: seq<Event<E>>)

  /** The default `exceptions=Exception`: every exception is retried. */
  predicate AnyException<E>(e: E)
  {
    true
  }

  /** The number of loop iterations `range(max_retries + 1)` allows. */
  function MaxCalls(p: Policy): nat
  {
    if p.maxRetries < 0 then 0 else p.maxRetries + 1
  }

  function Pow(b: real, n: nat): real
  {
    if n == 0 then 1.0 else b * Pow(b, n - 1)
  }

  /** The delay of a `Sleep` event. */
  function SleepOf<E>(e: Event<E>): seq<real>
  {
    if e.Sleep? then [e.seconds] else []
  }

  /** An `OnRetry` event. */
  function CallbackOf<E>(e: Event<E>): seq<Event<E>>
  {
    if e.OnRetry? then [e] else []
  }

  /** The delays of the `Sleep` events, in order. */
  function Sleeps<E>(events: seq<Event<E>>): seq<real>
  {
    Comprehend(events, SleepOf)
  }

  /** The `on_retry(e, attempt)` calls, in order. */
  function Callbacks<E>(events: seq<Event<E>>): seq<Event<E>>
  {
    Comprehend(events, CallbackOf)
  }

  /** What the wrapper does after a retried failure of call `attempt`: the
      callback when one was given, then the sleep. */
  function Between<E>(e: E, attempt: nat, currentDelay: real, observed: bool): seq<Event<E>>
  {
    (if observed then [OnRetry(e, attempt)] else []) + [Sleep(currentDelay)]
  }

  /** Between two attempts there is exactly one sleep, of the current delay,
      and one callback when a callback was given. */
  lemma BetweenEvents<E>(e: E, attempt: nat, currentDelay: real, observed: bool)
    ensures Sleeps(Between(e, attempt, currentDelay, observed)) == [currentDelay]
    ensures Callbacks(Between(e, attempt, currentDelay, observed))
            == if observed then [OnRetry(e, attempt)] else []
  {
    var sleep: Event<E> := Sleep(currentDelay);
    ComprehendOne(sleep, SleepOf);
    ComprehendOne(sleep, CallbackOf);
    if observed {
      var cb: Event<E> := OnRetry(e, attempt);
      ComprehendOne(cb, SleepOf);
      ComprehendOne(cb, CallbackOf);
      ComprehendAppend([cb], [sleep], SleepOf);
      ComprehendAppend([cb], [sleep], CallbackOf);
    } else {
      assert Between(e, attempt, currentDelay, observed) == [sleep];
    }
  }

  /** The loop from iteration `attempt` on, after `slept` sleeps (so that the
      next sleep lasts `delay * backoff^slept`), with `last` the
      `last_exception` so far. */
  function Loop<T, E>(op: nat -> Attempt<T, E>, retryable: E -> bool, p: Policy,
                      attempt: nat, slept: nat, last: Option<Cause<E>>): Run<T, E>
    decreases if attempt > p.maxRetries then 0 else p.maxRetries + 1 - attempt
  {
    if attempt > p.maxRetries then
      match last
      case Some(c) => Run(RetryError(c), 0, [])
      case None => Run(NoAttempt, 0, [])
    else
      match op(attempt)
      case Ok(v) => Run(Returned(v), 1, [])
      case TimedOut =>
        var rest := Loop(op, retryable, p, attempt + 1, slept, Some(Timeout));
        Run(rest.outcome, rest.calls + 1, rest.events)
      case Raise(e) =>
        if !retryable(e) then Run(Escaped(e), 1, [])
        else if attempt < p.maxRetries then
          var rest := Loop(op, retryable, p, attempt + 1, slept + 1, Some(Raised(e)));
          Run(rest.outcome, rest.calls + 1, Between(e, attempt, DelayAfter(p, slept), p.observed) + rest.events)
        else Run(RetryError(Raised(e)), 1, [])
  }

  /** The decorated coroutine called once. */
  function AsyncRetry<T, E>(op: nat -> Attempt<T, E>, retryable: E -> bool, p: Policy): (r: Run<T, E>)
    ensures r.calls <= MaxCalls(p)
    ensures r.outcome.NoAttempt? <==> p.maxRetries < 0
    ensures r.outcome.Returned? ==> r.calls >= 1 && op(r.calls - 1) == Ok(r.outcome.value)
    ensures r.outcome.RetryError? ==> r.calls == MaxCalls(p) && p.maxRetries >= 0
    ensures r.outcome.RetryError? ==>
              (r.outcome.cause == Timeout <==> op(p.maxRetries) == TimedOut)
    ensures r.outcome.RetryError? && r.outcome.cause.Raised? ==>
              op(p.maxRetries) == Raise(r.outcome.cause.err) && retryable(r.outcome.cause.err)
  {
    LoopFacts(op, retryable, p, 0, 0, None);
    Loop(op, retryable, p, 0, 0, None)
  }

  /** What a run of the loop from iteration `attempt` is bound to: at most
      the remaining iterations, a returned value or escaping exception that
      comes from the last call made, and a `RetryError` only after the last
      iteration, raised from that iteration's failure. */
  lemma {:induction false} LoopFacts<T, E>(op: nat -> Attempt<T, E>, retryable: E -> bool, p: Policy,
                                            attempt: nat, slept: nat, last: Option<Cause<E>>)
    ensures var r := Loop(op, retryable, p, attempt, slept, last);
            attempt > p.maxRetries ==> r.calls == 0
    ensures var r := Loop(op, retryable, p, attempt, slept, last);
            attempt <= p.maxRetries ==> 1 <= r.calls <= p.maxRetries + 1 - attempt
    ensures var r := Loop(op, retryable, p, attempt, slept, last);
            r.outcome.Returned? ==> r.calls >= 1 && op(attempt + r.calls - 1) == Ok(r.outcome.value)
    ensures var r := Loop(op, retryable, p, attempt, slept, last);
            r.outcome.Escaped? ==>
              r.calls >= 1 && op(attempt + r.calls - 1) == Raise(r.outcome.err) && !retryable(r.outcome.err)
    ensures var r := Loop(op, retryable, p, attempt, slept, last);
            r.outcome.NoAttempt? ==> r.calls == 0 && last == None
    ensures var r := Loop(op, retryable, p, attempt, slept, last);
            r.outcome.RetryError? ==> attempt + r.calls == p.maxRetries + 1 || (r.calls == 0 && last.Some?)
    ensures var r := Loop(op, retryable, p, attempt, slept, last);
            r.outcome.RetryError? && r.calls >= 1 ==>
              match op(attempt + r.calls - 1)
              case TimedOut => r.outcome.cause == Timeout
              case Raise(e) => r.outcome.cause == Raised(e) && retryable(e)
              case Ok(_) => false
    decreases if attempt > p.maxRetries then 0 else p.maxRetries + 1 - attempt
  {
    if attempt > p.maxRetries {
      LoopEnd(op, retryable, p, attempt, slept, last);
    } else {
      match op(attempt)
      case Ok(_) =>
        LoopFinalStep(op, retryable, p, attempt, slept, last);
      case TimedOut =>
        LoopTimeoutStep(op, retryable, p, attempt, slept, last);
        LoopFacts(op, retryable, p, attempt + 1, slept, Some(Timeout));
      case Raise(e) =>
        if !retryable(e) || attempt == p.maxRetries {
          LoopFinalStep(op, retryable, p, attempt, slept, last);
        } else {
          LoopRetryStep(op, retryable, p, attempt, slept, last, e);
          LoopFacts(op, retryable, p, attempt + 1, slept + 1, Some(Raised(e)));
        }
    }
  }

  /** One retried failure: callback, sleep, then the rest of the loop with the
      delay multiplied by `backoff`. */
  lemma {:induction false} LoopRetryStep<T, E>(op: nat -> Attempt<T, E>, retryable: E -> bool, p: Policy,
                            attempt: nat, slept: nat, last: Option<Cause<E>>, e: E)
    requires op(attempt) == Raise(e) && retryable(e) && attempt < p.maxRetries
    ensures Loop(op, retryable, p, attempt, slept, last).outcome
            == Loop(op, retryable, p, attempt + 1, slept + 1, Some(Raised(e))).outcome
    ensures Loop(op, retryable, p, attempt, slept, last).calls
            == Loop(op, retryable, p, attempt + 1, slept + 1, Some(Raised(e))).calls + 1
    ensures Loop(op, retryable, p, attempt, slept, last).events
            == Between(e, attempt, DelayAfter(p, slept), p.observed)
               + Loop(op, retryable, p, attempt + 1, slept + 1, Some(Raised(e))).events
  {
  }

  lemma {:induction false} LoopTimeoutStep<T, E>(op: nat -> Attempt<T, E>, retryable: E -> bool, p: Policy,
                                                  attempt: nat, slept: nat, last: Option<Cause<E>>)
    requires op(attempt) == TimedOut && attempt <= p.maxRetries
    ensures Loop(op, retryable, p, attempt, slept, last).outcome
            == Loop(op, retryable, p, attempt + 1, slept, Some(Timeout)).outcome
    ensures Loop(op, retryable, p, attempt, slept, last).calls
            == Loop(op, retryable, p, attempt + 1, slept, Some(Timeout)).calls + 1
    ensures Loop(op, retryable, p, attempt, slept, last).events
            == Loop(op, retryable, p, attempt + 1, slept, Some(Timeout)).events
  {
  }

  /** An attempt that ends the loop: a success, an exception outside
      `exceptions`, or a retryable exception on the last attempt. */
  lemma {:induction false} LoopFinalStep<T, E>(op: nat -> Attempt<T, E>, retryable: E -> bool, p: Policy,
                                                attempt: nat, slept: nat, last: Option<Cause<E>>)
    requires attempt <= p.maxRetries
    requires op(attempt).Ok? || (op(attempt).Raise? && (!retryable(op(attempt).err) || attempt == p.maxRetries))
    ensures Loop(op, retryable, p, attempt, slept, last).calls == 1
    ensures Loop(op, retryable, p, attempt, slept, last).events == []
    ensures Loop(op, retryable, p, attempt, slept, last).outcome
            == match op(attempt)
               case Ok(v) => Returned(v)
               case Raise(e) => if retryable(e) then RetryError(Raised(e)) else Escaped(e)
               case TimedOut => NoAttempt
  {
  }

  lemma {:induction false} LoopEnd<T, E>(op: nat -> Attempt<T, E>, retryable: E -> bool, p: Policy,
                                          attempt: nat, slept: nat, last: Option<Cause<E>>)
    requires attempt > p.maxRetries
    ensures Loop(op, retryable, p, attempt, slept, last)
            == Run(if last.Some? then RetryError(last.value) else NoAttempt, 0, [])
  {
  }

  /** `current_delay` after `n` sleeps: `delay` multiplied `n` times by `backoff`. */
  function DelayAfter(p: Policy, n: nat): real
  {
    if n == 0 then p.delay else DelayAfter(p, n - 1) * p.backoff
  }

  lemma DelayStep(p: Policy, n: nat, d: real)
    requires d == DelayAfter(p, n)
    ensures d * p.backoff == DelayAfter(p, n + 1)
  {
  }

  /** The iterated product is the geometric schedule `delay * backoff^n`. */
  lemma {:induction false} DelayAfterClosedForm(p: Policy, n: nat)
    ensures DelayAfter(p, n) == p.delay * Pow(p.backoff, n)
  {
    if n > 0 {
      DelayAfterClosedForm(p, n - 1);
      calc {
        DelayAfter(p, n);
        p.delay * Pow(p.backoff, n - 1) * p.backoff;
        p.delay * (p.backoff * Pow(p.backoff, n - 1));
      }
    }
  }

  /** The same loop written as the decorator writes it, with early returns. */
  method RunWithRetry<T, E>(op: nat -> Attempt<T, E>, retryable: E -> bool, p: Policy)
    returns (outcome: Outcome<T, E>, calls: nat, events: seq<Event<E>>)
    ensures Run(outcome, calls, events) == AsyncRetry(op, retryable, p)
  {
    var last: Option<Cause<E>> := None;
    var currentDelay := p.delay;
    calls, events := 0, [];
    var attempt: nat := 0;
    ghost var slept: nat := 0;
    ghost var rest := Loop(op, retryable, p, 0, 0, None);
    while attempt <= p.maxRetries
      invariant calls == attempt
      invariant attempt > 0 ==> last.Some?
      invariant currentDelay == DelayAfter(p, slept)
      invariant rest == Loop(op, retryable, p, attempt, slept, last)
      invariant AsyncRetry(op, retryable, p) == Run(rest.outcome, calls + rest.calls, events + rest.events)
      decreases p.maxRetries + 1 - attempt
    {
      var a := op(attempt);
      calls := calls + 1;
      if a.Ok? || (a.Raise? && (!retryable(a.err) || attempt == p.maxRetries)) {
        LoopFinalStep(op, retryable, p, attempt, slept, last);
        if a.Ok? {
          outcome := Returned(a.value);
        } else if !retryable(a.err) {
          outcome := Escaped(a.err);
        } else {
          outcome := RetryError(Raised(a.err));
        }
        return;
      }
      if a.TimedOut? {
        LoopTimeoutStep(op, retryable, p, attempt, slept, last);
        last := Some(Timeout);
        rest := Loop(op, retryable, p, attempt + 1, slept, last);
      } else {
        var e := a.err;
        LoopRetryStep(op, retryable, p, attempt, slept, last, e);
        last := Some(Raised(e));
        var between := Between(e, attempt, currentDelay, p.observed);
        var next := Loop(op, retryable, p, attempt + 1, slept + 1, last);
        assert rest.events == between + next.events;
        assert events + rest.events == (events + between) + next.events;
        rest := next;
        events := events + between;
        DelayStep(p, slept, currentDelay);
        currentDelay := currentDelay * p.backoff;
        slept := slept + 1;
      }
      attempt := attempt + 1;
    }
    LoopEnd(op, retryable, p, attempt, slept, last);
    outcome := if last.Some? then RetryError(last.value) else NoAttempt;
  }

  /** An attempt after which the loop goes on: a timeout, or an exception in
      `exceptions`. */
  predicate Retried<T, E>(op: nat -> Attempt<T, E>, retryable: E -> bool, j: nat)
  {
    op(j).TimedOut? || (op(j).Raise? && retryable(op(j).err))
  }

  lemma {:induction false} LoopDecisive<T, E>(op: nat -> Attempt<T, E>, retryable: E -> bool, p: Policy,
                                               a: nat, slept: nat, last: Option<Cause<E>>, k: nat)
    requires a <= k <= p.maxRetries
    requires forall j :: a <= j < k ==> Retried(op, retryable, j)
    requires op(k).Ok? || (op(k).Raise? && !retryable(op(k).err))
    ensures Loop(op, retryable, p, a, slept, last).calls == k - a + 1
    ensures Loop(op, retryable, p, a, slept, last).outcome
            == if op(k).Ok? then Returned(op(k).value) else Escaped(op(k).err)
    decreases k - a
  {
    assert a < k ==> Retried(op, retryable, a);
    if a == k {
      LoopFinalStep(op, retryable, p, a, slept, last);
    } else if op(a).TimedOut? {
      LoopTimeoutStep(op, retryable, p, a, slept, last);
      LoopDecisive(op, retryable, p, a + 1, slept, Some(Timeout), k);
    } else {
      LoopRetryStep(op, retryable, p, a, slept, last, op(a).err);
      LoopDecisive(op, retryable, p, a + 1, slept + 1, Some(Raised(op(a).err)), k);
    }
  }

  /** The first attempt that neither times out nor raises a retryable
      exception decides the call: its value is returned, or its exception
      escapes unchanged, and the coroutine is not called again. */
  lemma {:induction false} FirstDecisiveAttempt<T, E>(op: nat -> Attempt<T, E>, retryable: E -> bool, p: Policy, k: nat)
    requires k <= p.maxRetries
    requires forall j :: 0 <= j < k ==> Retried(op, retryable, j)
    requires op(k).Ok? || (op(k).Raise? && !retryable(op(k).err))
    ensures AsyncRetry(op, retryable, p).calls == k + 1
    ensures AsyncRetry(op, retryable, p).outcome
            == if op(k).Ok? then Returned(op(k).value) else Escaped(op(k).err)
  {
    LoopDecisive(op, retryable, p, 0, 0, None, k);
  }

  lemma SleepsAppend<E>(a: seq<Event<E>>, b: seq<Event<E>>)
    ensures Sleeps(a + b) == Sleeps(a) + Sleeps(b)
  {
    ComprehendAppend(a, b, SleepOf);
  }

  lemma CallbacksAppend<E>(a: seq<Event<E>>, b: seq<Event<E>>)
    ensures Callbacks(a + b) == Callbacks(a) + Callbacks(b)
  {
    ComprehendAppend(a, b, CallbackOf);
  }

  /** The `n` delays `current_delay` takes from its value after `from` sleeps on. */
  function Schedule(p: Policy, from: nat, n: nat): (r: seq<real>)
    ensures |r| == n
    decreases n
  {
    if n == 0 then [] else [DelayAfter(p, from)] + Schedule(p, from + 1, n - 1)
  }

  lemma {:induction false} ScheduleAt(p: Policy, from: nat, n: nat, j: nat)
    requires j < n
    ensures Schedule(p, from, n)[j] == DelayAfter(p, from + j)
    decreases j
  {
    if j > 0 {
      ScheduleAt(p, from + 1, n - 1, j - 1);
    }
  }

  lemma {:induction false} LoopSleepDelays<T, E>(op: nat -> Attempt<T, E>, retryable: E -> bool, p: Policy,
                                                  a: nat, slept: nat, last: Option<Cause<E>>)
    ensures var ev := Sleeps(Loop(op, retryable, p, a, slept, last).events);
            ev == Schedule(p, slept, |ev|)
    decreases if a > p.maxRetries then 0 else p.maxRetries + 1 - a
  {
    if a <= p.maxRetries {
      match op(a)
      case Ok(_) =>
      case TimedOut =>
        LoopTimeoutStep(op, retryable, p, a, slept, last);
        LoopSleepDelays(op, retryable, p, a + 1, slept, Some(Timeout));
      case Raise(e) =>
        if retryable(e) && a < p.maxRetries {
          LoopRetryStep(op, retryable, p, a, slept, last, e);
          var rest := Loop(op, retryable, p, a + 1, slept + 1, Some(Raised(e))).events;
          LoopSleepDelays(op, retryable, p, a + 1, slept + 1, Some(Raised(e)));
          SleepsAppend(Between(e, a, DelayAfter(p, slept), p.observed), rest);
          BetweenEvents(e, a, DelayAfter(p, slept), p.observed);
        }
    }
  }

  lemma {:induction false} LoopCallbackCount<T, E>(op: nat -> Attempt<T, E>, retryable: E -> bool, p: Policy,
                                                    a: nat, slept: nat, last: Option<Cause<E>>)
    ensures var ev := Loop(op, retryable, p, a, slept, last).events;
            |Callbacks(ev)| == if p.observed then |Sleeps(ev)| else 0
    decreases if a > p.maxRetries then 0 else p.maxRetries + 1 - a
  {
    if a <= p.maxRetries {
      match op(a)
      case Ok(_) =>
      case TimedOut =>
        LoopTimeoutStep(op, retryable, p, a, slept, last);
        LoopCallbackCount(op, retryable, p, a + 1, slept, Some(Timeout));
      case Raise(e) =>
        if retryable(e) && a < p.maxRetries {
          LoopRetryStep(op, retryable, p, a, slept, last, e);
          var rest := Loop(op, retryable, p, a + 1, slept + 1, Some(Raised(e))).events;
          LoopCallbackCount(op, retryable, p, a + 1, slept + 1, Some(Raised(e)));
          var between := Between(e, a, DelayAfter(p, slept), p.observed);
          SleepsAppend(between, rest);
          CallbacksAppend(between, rest);
          BetweenEvents(e, a, DelayAfter(p, slept), p.observed);
        }
    }
  }

  /** The j-th sleep of a call lasts `delay * backoff^j`, whatever timeouts
      came between, and each sleep is preceded by exactly one `on_retry` call
      when a callback was given. */
  lemma {:induction false} SleepSchedule<T, E>(op: nat -> Attempt<T, E>, retryable: E -> bool, p: Policy)
    ensures var ev := AsyncRetry(op, retryable, p).events;
            forall j :: 0 <= j < |Sleeps(ev)| ==> Sleeps(ev)[j] == p.delay * Pow(p.backoff, j)
    ensures var ev := AsyncRetry(op, retryable, p).events;
            |Callbacks(ev)| == if p.observed then |Sleeps(ev)| else 0
  {
    LoopSleepDelays(op, retryable, p, 0, 0, None);
    LoopCallbackCount(op, retryable, p, 0, 0, None);
    var ev := Sleeps(AsyncRetry(op, retryable, p).events);
    forall j | 0 <= j < |ev|
      ensures ev[j] == p.delay * Pow(p.backoff, j)
    {
      ScheduleAt(p, 0, |ev|, j);
      DelayAfterClosedForm(p, j);
    }
  }

  /** The `on_retry(e, j)` calls for the failures of attempts `a` to `k - 1`. */
  function FailureCallbacks<T, E>(op: nat -> Attempt<T, E>, a: nat, k: nat): seq<Event<E>>
    requires forall j :: a <= j < k ==> op(j).Raise?
    decreases k - a
  {
    if a >= k then [] else [OnRetry(op(a).err, a)] + FailureCallbacks(op, a + 1, k)
  }

  lemma {:induction false} LoopRecovers<T, E>(op: nat -> Attempt<T, E>, retryable: E -> bool, p: Policy,
                                               a: nat, slept: nat, last: Option<Cause<E>>, k: nat)
    requires a <= k <= p.maxRetries
    requires forall j :: a <= j < k ==> op(j).Raise? && retryable(op(j).err)
    requires op(k).Ok?
    ensures Loop(op, retryable, p, a, slept, last).outcome == Returned(op(k).value)
    ensures Loop(op, retryable, p, a, slept, last).calls == k - a + 1
    ensures |Sleeps(Loop(op, retryable, p, a, slept, last).events)| == k - a
    decreases k - a
  {
    if a == k {
      LoopFinalStep(op, retryable, p, a, slept, last);
    } else {
      var e := op(a).err;
      LoopRetryStep(op, retryable, p, a, slept, last, e);
      LoopRecovers(op, retryable, p, a + 1, slept + 1, Some(Raised(e)), k);
      var rest := Loop(op, retryable, p, a + 1, slept + 1, Some(Raised(e))).events;
      SleepsAppend(Between(e, a, DelayAfter(p, slept), p.observed), rest);
      BetweenEvents(e, a, DelayAfter(p, slept), p.observed);
    }
  }

  lemma {:induction false} LoopRecoveryCallbacks<T, E>(op: nat -> Attempt<T, E>, retryable: E -> bool, p: Policy,
                                                        a: nat, slept: nat, last: Option<Cause<E>>, k: nat)
    requires a <= k <= p.maxRetries
    requires forall j :: a <= j < k ==> op(j).Raise? && retryable(op(j).err)
    requires op(k).Ok?
    ensures Callbacks(Loop(op, retryable, p, a, slept, last).events)
            == if p.observed then FailureCallbacks(op, a, k) else []
    decreases k - a
  {
    if a == k {
      LoopFinalStep(op, retryable, p, a, slept, last);
    } else {
      var e := op(a).err;
      LoopRetryStep(op, retryable, p, a, slept, last, e);
      LoopRecoveryCallbacks(op, retryable, p, a + 1, slept + 1, Some(Raised(e)), k);
      var rest := Loop(op, retryable, p, a + 1, slept + 1, Some(Raised(e))).events;
      var between := Between(e, a, DelayAfter(p, slept), p.observed);
      CallbacksAppend(between, rest);
      BetweenEvents(e, a, DelayAfter(p, slept), p.observed);
      assert FailureCallbacks(op, a, k) == [OnRetry(e, a)] + FailureCallbacks(op, a + 1, k);
    }
  }

  /** k retryable failures followed by a success: the success value is
      returned after exactly k sleeps and, when a callback was given, exactly
      k `on_retry(e, j)` calls, one per failure in order. */
  lemma {:induction false} RecoversAfterFailures<T, E>(op: nat -> Attempt<T, E>, retryable: E -> bool, p: Policy, k: nat)
    requires k <= p.maxRetries
    requires forall j :: 0 <= j < k ==> op(j).Raise? && retryable(op(j).err)
    requires op(k).Ok?
    ensures AsyncRetry(op, retryable, p).outcome == Returned(op(k).value)
    ensures AsyncRetry(op, retryable, p).calls == k + 1
    ensures |Sleeps(AsyncRetry(op, retryable, p).events)| == k
    ensures Callbacks(AsyncRetry(op, retryable, p).events)
            == if p.observed then FailureCallbacks(op, 0, k) else []
  {
    LoopRecovers(op, retryable, p, 0, 0, None, k);
    LoopRecoveryCallbacks(op, retryable, p, 0, 0, None, k);
  }

  /** `1 + b + ... + b^(n-1)`. */
  function GeomSum(b: real, n: nat): real
  {
    if n == 0 then 0.0 else GeomSum(b, n - 1) + Pow(b, n - 1)
  }

  function Total(xs: seq<real>): real
  {
    if xs == [] then 0.0 else xs[0] + Total(xs[1..])
  }

  lemma {:induction false} GeomSumClosedForm(b: real, n: nat)
    ensures (b - 1.0) * GeomSum(b, n) == Pow(b, n) - 1.0
  {
    if n > 0 {
      GeomSumClosedForm(b, n - 1);
      assert Pow(b, n) == b * Pow(b, n - 1);
      calc {
        (b - 1.0) * GeomSum(b, n);
        (b - 1.0) * GeomSum(b, n - 1) + (b - 1.0) * Pow(b, n - 1);
        Pow(b, n - 1) - 1.0 + b * Pow(b, n - 1) - Pow(b, n - 1);
      }
    }
  }

  /** The total of the first `n` sleeps of the schedule. */
  function SumDelays(p: Policy, n: nat): real
  {
    if n == 0 then 0.0 else SumDelays(p, n - 1) + DelayAfter(p, n - 1)
  }

  lemma {:induction false} SumDelaysClosedForm(p: Policy, n: nat)
    ensures SumDelays(p, n) == p.delay * GeomSum(p.backoff, n)
  {
    if n > 0 {
      SumDelaysClosedForm(p, n - 1);
      DelayAfterClosedForm(p, n - 1);
      Distribute(p.delay, GeomSum(p.backoff, n - 1), Pow(p.backoff, n - 1));
    }
  }

  lemma {:induction false} LoopAlwaysFails<T, E>(op: nat -> Attempt<T, E>, retryable: E -> bool, p: Policy,
                                                  a: nat, last: Option<Cause<E>>)
    requires a <= p.maxRetries
    requires forall j :: a <= j <= p.maxRetries ==> op(j).Raise? && retryable(op(j).err)
    ensures Loop(op, retryable, p, a, a, last).outcome == RetryError(Raised(op(p.maxRetries).err))
    ensures Loop(op, retryable, p, a, a, last).calls == p.maxRetries + 1 - a
    ensures |Sleeps(Loop(op, retryable, p, a, a, last).events)| == p.maxRetries - a
    ensures Total(Sleeps(Loop(op, retryable, p, a, a, last).events)) == SumDelays(p, p.maxRetries) - SumDelays(p, a)
    decreases p.maxRetries - a
  {
    if a == p.maxRetries {
      LoopFinalStep(op, retryable, p, a, a, last);
    } else {
      var e := op(a).err;
      LoopRetryStep(op, retryable, p, a, a, last, e);
      LoopAlwaysFails(op, retryable, p, a + 1, Some(Raised(e)));
      var rest := Loop(op, retryable, p, a + 1, a + 1, Some(Raised(e))).events;
      SleepsAppend(Between(e, a, DelayAfter(p, a), p.observed), rest);
      BetweenEvents(e, a, DelayAfter(p, a), p.observed);
      assert Total([DelayAfter(p, a)] + Sleeps(rest)) == DelayAfter(p, a) + Total(Sleeps(rest)) by {
        assert ([DelayAfter(p, a)] + Sleeps(rest))[1..] == Sleeps(rest);
      }
    }
  }

  /** The geometric total in closed form, for `backoff != 1`:
      `(backoff - 1) * total == delay * (backoff^n - 1)`. */
  lemma {:induction false} SumDelaysGeometric(p: Policy, n: nat)
    ensures SumDelays(p, n) * (p.backoff - 1.0) == p.delay * (Pow(p.backoff, n) - 1.0)
  {
    SumDelaysClosedForm(p, n);
    GeomSumClosedForm(p.backoff, n);
    Rearrange(p.delay, GeomSum(p.backoff, n), p.backoff - 1.0, Pow(p.backoff, n) - 1.0);
  }

  lemma Distribute(d: real, g: real, q: real)
    ensures d * g + d * q == d * (g + q)
  {
  }

  lemma Rearrange(d: real, g: real, c: real, q: real)
    requires c * g == q
    ensures d * g * c == d * q
  {
    assert d * g * c == d * (c * g);
  }

  /** An operation that fails on every attempt with a retryable exception:
      `max_retries + 1` calls, `RetryError` raised from the last exception,
      `max_retries` sleeps (the final failure does not sleep) whose total is
      `delay * (1 + backoff + ... + backoff^(max_retries - 1))`. */
  lemma {:induction false} AlwaysFailing<T, E>(op: nat -> Attempt<T, E>, retryable: E -> bool, p: Policy)
    requires p.maxRetries >= 0
    requires forall j :: 0 <= j <= p.maxRetries ==> op(j).Raise? && retryable(op(j).err)
    ensures AsyncRetry(op, retryable, p).outcome == RetryError(Raised(op(p.maxRetries).err))
    ensures AsyncRetry(op, retryable, p).calls == p.maxRetries + 1
    ensures |Sleeps(AsyncRetry(op, retryable, p).events)| == p.maxRetries
    ensures Total(Sleeps(AsyncRetry(op, retryable, p).events)) == SumDelays(p, p.maxRetries)
    ensures Total(Sleeps(AsyncRetry(op, retryable, p).events)) == p.delay * GeomSum(p.backoff, p.maxRetries)
  {
    LoopAlwaysFails(op, retryable, p, 0, None);
    SumDelaysClosedForm(p, p.maxRetries);
  }

  lemma {:induction false} LoopAllTimeouts<T, E>(op: nat -> Attempt<T, E>, retryable: E -> bool, p: Policy,
                                                  a: nat, slept: nat, last: Option<Cause<E>>)
    requires a <= p.maxRetries + 1
    requires a > p.maxRetries ==> last == Some(Timeout)
    requires forall j :: a <= j <= p.maxRetries ==> op(j) == TimedOut
    ensures Loop(op, retryable, p, a, slept, last) == Run(RetryError(Timeout), p.maxRetries + 1 - a, [])
    decreases p.maxRetries + 1 - a
  {
    if a <= p.maxRetries {
      LoopTimeoutStep(op, retryable, p, a, slept, last);
      LoopAllTimeouts(op, retryable, p, a + 1, slept, Some(Timeout));
    }
  }

  /** Every attempt times out: all `max_retries + 1` attempts are made, with
      no sleep and no callback, and `RetryError` is raised from the timeout. */
  lemma {:induction false} AllTimeouts<T, E>(op: nat -> Attempt<T, E>, retryable: E -> bool, p: Policy)
    requires p.maxRetries >= 0
    requires forall j :: 0 <= j <= p.maxRetries ==> op(j) == TimedOut
    ensures AsyncRetry(op, retryable, p) == Run(RetryError(Timeout), p.maxRetries + 1, [])
  {
    LoopAllTimeouts(op, retryable, p, 0, 0, None);
  }

  lemma {:induction false} LoopWithoutExceptions<T, E>(op: nat -> Attempt<T, E>, retryable: E -> bool, p: Policy,
                                                        a: nat, slept: nat, last: Option<Cause<E>>)
    requires forall j :: a <= j ==> !op(j).Raise?
    requires last == None || last == Some(Timeout)
    ensures Loop(op, retryable, p, a, slept, last).events == []
    ensures !Loop(op, retryable, p, a, slept, last).outcome.Escaped?
    ensures Loop(op, retryable, p, a, slept, last).outcome.RetryError? ==>
              Loop(op, retryable, p, a, slept, last).outcome.cause == Timeout
    decreases if a > p.maxRetries then 0 else p.maxRetries + 1 - a
  {
    if a <= p.maxRetries {
      if op(a).TimedOut? {
        LoopTimeoutStep(op, retryable, p, a, slept, last);
        LoopWithoutExceptions(op, retryable, p, a + 1, slept, Some(Timeout));
      } else {
        LoopFinalStep(op, retryable, p, a, slept, last);
      }
    }
  }

  /** An operation that never raises is never retried after a return: the
      wrapper neither sleeps nor calls back, no exception escapes, and a
      `RetryError` can only come from timeouts. When the first attempt does
      not time out, it is the only call. */
  lemma {:induction false} WithoutExceptions<T, E>(op: nat -> Attempt<T, E>, retryable: E -> bool, p: Policy)
    requires forall j :: !op(j).Raise?
    ensures AsyncRetry(op, retryable, p).events == []
    ensures !AsyncRetry(op, retryable, p).outcome.Escaped?
    ensures AsyncRetry(op, retryable, p).outcome.RetryError? ==> AsyncRetry(op, retryable, p).outcome.cause == Timeout
    ensures p.maxRetries >= 0 && op(0).Ok? ==>
              AsyncRetry(op, retryable, p) == Run(Returned(op(0).value), 1, [])
  {
    LoopWithoutExceptions(op, retryable, p, 0, 0, None);
    if p.maxRetries >= 0 && op(0).Ok? {
      LoopFinalStep(op, retryable, p, 0, 0, None);
    }
  }

  /** `TimeoutContext(timeout)` created at `startTime`; the clock reading is
      passed to each operation. */
  datatype TimeoutContext = TimeoutContext(timeout: real, startTime: real)

  /** Whether a guarded step went ahead or raised `asyncio.TimeoutError`. */
  datatype Guard = Proceed | TimeoutExpired

  /** `remaining()`: `max(0, timeout - elapsed)`. */
  function Remaining(ctx: TimeoutContext, now: real): (r: real)
    ensures r >= 0.0
    ensures r > 0.0 <==> now - ctx.startTime < ctx.timeout
    ensures r > 0.0 ==> r + (now - ctx.startTime) == ctx.timeout
  {
    var left := ctx.timeout - (now - ctx.startTime);
    if left > 0.0 then left else 0.0
  }

  /** `check()`: raises exactly when the deadline has been reached. */
  function Check(ctx: TimeoutContext, now: real): (g: Guard)
    ensures g == TimeoutExpired <==> now - ctx.startTime >= ctx.timeout
  {
    if Remaining(ctx, now) <= 0.0 then TimeoutExpired else Proceed
  }

  /** `sleep(duration)`: refuses, without sleeping, a positive sleep that
      would end after the deadline. */
  function SleepWithin(ctx: TimeoutContext, now: real, duration: real): (g: Guard)
    ensures g == TimeoutExpired <==> duration > 0.0 && now + duration - ctx.startTime > ctx.timeout
  {
    if duration > Remaining(ctx, now) then TimeoutExpired else Proceed
  }

  /** A sleep that `sleep` lets through never overshoots the deadline: the
      remaining time afterwards is the remaining time before minus the sleep. */
  lemma SleepConsumesRemaining(ctx: TimeoutContext, now: real, duration: real)
    requires duration > 0.0
    requires SleepWithin(ctx, now, duration) == Proceed
    ensures Remaining(ctx, now + duration) == Remaining(ctx, now) - duration
    ensures Check(ctx, now + duration) == TimeoutExpired <==> duration == Remaining(ctx, now)
  {
  }
}
