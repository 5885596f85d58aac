/** `retry_with_backoff` of src/brain/security/circuit_breaker.py, composed with the breaker it consults.

    The wrapped function is an arbitrary script of outcomes, the clock an arbitrary script of readings, other callers
    of the breaker an arbitrary script of events, and the sleeps are what the driver returns besides its result. */
module Retrying {
  import opened CircuitBreaking

  datatype Outcome<T> = Value(value: T) | Raised(message: string)

  const NO_ERROR := "All retries exhausted with no error captured"

  function Pow2(n: nat): nat { if n == 0 then 1 else 2 * Pow2(n - 1) }

  function Delay(base: real, cap: real, attempt: nat): real {
    var d := base * (Pow2(attempt) as real);
    if d <= cap then d else cap
  }

  function TotalSleep(sleeps: seq<real>): real {
    if sleeps == [] then 0.0 else TotalSleep(sleeps[..|sleeps| - 1]) + sleeps[|sleeps| - 1]
  }

  /** A call of the driver as its surroundings have it: what the wrapped function does in each run, the clock readings
      of the driver's steps on the breaker, and what other callers do to the breaker before each of these steps. */
  datatype World<T> = World(script: nat -> Outcome<T>, clock: nat -> real, others: nat -> seq<Event>) {

    /** What the first `runs` attempts leave in the breaker's history: each asks once and reports once, and others act
        before both. */
    ghost function Attempts(runs: nat): seq<Event> {
      if runs == 0 then [] else Attempts(runs - 1) + Attempt(runs - 1)
    }

    ghost function Attempt(run: nat): seq<Event> {
      others(2 * run) + [Ask(clock(2 * run))] + others(2 * run + 1) + [Report(run)]
    }

    ghost function Report(run: nat): Event {
      if script(run).Value? then Success(clock(2 * run + 1)) else Failure(clock(2 * run + 1))
    }

    /** The breaker's history when the driver asks before run `run`. */
    ghost function HistoryAt(before: seq<Event>, run: nat): seq<Event> {
      before + Attempts(run) + others(2 * run)
    }

    /** Every one of the first `runs` attempts was admitted by the breaker, given all that had happened to it before. */
    ghost predicate EachAdmitted(c: Config, before: seq<Event>, runs: nat) {
      forall k :: 0 <= k < runs ==> Admits(c, Run(c, INITIAL, HistoryAt(before, k)), clock(2 * k))
    }

    lemma AttemptsGrow(before: seq<Event>, runs: nat)
      ensures before + Attempts(runs + 1)
           == HistoryAt(before, runs) + [Ask(clock(2 * runs))] + others(2 * runs + 1) + [Report(runs)]
    {
      Associates(before, Attempts(runs), Attempt(runs));
      Distributes(before + Attempts(runs), others(2 * runs), [Ask(clock(2 * runs))], others(2 * runs + 1),
                  [Report(runs)]);
    }

    lemma EachAdmittedGrows(c: Config, before: seq<Event>, runs: nat)
      requires EachAdmitted(c, before, runs) && Admits(c, Run(c, INITIAL, HistoryAt(before, runs)), clock(2 * runs))
      ensures EachAdmitted(c, before, runs + 1)
    {}

    lemma Starts(c: Config, before: seq<Event>)
      ensures before + Attempts(0) == before && EachAdmitted(c, before, 0)
    {}
  }

  lemma Associates<T>(a: seq<T>, b: seq<T>, c: seq<T>)
    ensures a + (b + c) == a + b + c
  {}

  lemma Distributes<T>(p: seq<T>, x: seq<T>, y: seq<T>, z: seq<T>, w: seq<T>)
    ensures p + (x + y + z + w) == p + x + y + z + w
  {
    Associates(p, x + y + z, w);
    Associates(p, x + y, z);
    Associates(p, x, y);
  }

  /** Other callers act on the breaker. */
  method OthersAct(breaker: CircuitBreaker, acts: seq<Event>)
    requires breaker.Valid()
    modifies breaker
    ensures breaker.Valid() && breaker.events == old(breaker.events) + acts
  {
    hide CircuitBreaking.Run;
    ghost var before := breaker.events;
    for n := 0 to |acts|
      invariant breaker.Valid() && breaker.events == before + acts[..n]
    {
      assert before + acts[..n + 1] == before + acts[..n] + [acts[n]];
      match acts[n] {
        case Ask(now) => var _ := breaker.CanExecute(now);
        case Look(now) => var _ := breaker.CurrentMode(now);
        case Success(now) => breaker.RecordSuccess(now);
        case Failure(now) => breaker.RecordFailure(now);
      }
    }
    assert acts[..|acts|] == acts;
  }

  lemma BackoffGrows(sleeps: seq<real>, base: real, cap: real)
    requires Backoff(sleeps, base, cap)
    ensures Backoff(sleeps + [Delay(base, cap, |sleeps|)], base, cap)
  {}

  /** The sleeps are the capped exponential delays of attempts 0, 1, 2, ... */
  ghost predicate Backoff(sleeps: seq<real>, base: real, cap: real) {
    forall k :: 0 <= k < |sleeps| ==> sleeps[k] == Delay(base, cap, k)
  }

  /** Driver with a breaker that it may share with other callers.  `runs` is how often the function was called. */
  method RetryWithBreaker<T>(world: World<T>, maxRetries: int, baseDelay: real, maxDelay: real,
                             breaker: CircuitBreaker, fallback: seq<Outcome<T>>)
    returns (result: Outcome<T>, runs: nat, sleeps: seq<real>)
    requires breaker.Valid() && |fallback| <= 1
    modifies breaker
    ensures breaker.Valid()
    // each run asks first, is admitted, and makes exactly one report; a refused question ends the loop
    ensures runs <= if maxRetries >= 0 then maxRetries + 1 else 0
    ensures world.EachAdmitted(breaker.config, old(breaker.events), runs)
    ensures breaker.events == old(breaker.events) + world.Attempts(runs)
         || breaker.events == world.HistoryAt(old(breaker.events), runs) + [Ask(world.clock(2 * runs))]
    // it stops at the first success, at a refusal, or when the attempts are used up
    ensures forall k :: 0 <= k < runs - 1 ==> world.script(k).Raised?
    ensures (runs > 0 && world.script(runs - 1).Value?) || runs == maxRetries + 1 || maxRetries < 0
         || !Admits(breaker.config, Run(breaker.config, INITIAL, world.HistoryAt(old(breaker.events), runs)),
                    world.clock(2 * runs))
    // the result is the function's if and only if some run succeeded
    ensures result == if runs > 0 && world.script(runs - 1).Value? then world.script(runs - 1)
                      else if fallback != [] then fallback[0]
                      else if runs > 0 then world.script(runs - 1)
                      else Raised(NO_ERROR)
    // it sleeps after every failed run but the last permitted one
    ensures |sleeps| == if runs > 0 && (world.script(runs - 1).Value? || runs == maxRetries + 1) then runs - 1 else runs
    ensures Backoff(sleeps, baseDelay, maxDelay)
  {
    hide Run, Admits, Backoff, Delay, World.EachAdmitted, World.Attempts, World.HistoryAt;
    var lastError := Raised(NO_ERROR);
    runs, sleeps := 0, [];
    ghost var before := breaker.events;
    world.Starts(breaker.config, before);
    NoSleepsYet(baseDelay, maxDelay);
    var attempt := 0;
    while attempt < maxRetries + 1
      invariant 0 <= attempt && (attempt <= maxRetries + 1 || attempt == 0)
      invariant attempt == runs && breaker.Valid()
      invariant breaker.events == before + world.Attempts(runs)
      invariant forall k :: 0 <= k < runs ==> world.script(k).Raised?
      invariant world.EachAdmitted(breaker.config, before, runs)
      invariant lastError == if runs > 0 then world.script(runs - 1) else Raised(NO_ERROR)
      invariant |sleeps| == if runs == maxRetries + 1 && runs > 0 then runs - 1 else runs
      invariant Backoff(sleeps, baseDelay, maxDelay)
    {
      world.AttemptsGrow(before, runs);
      HistoryIs(world, before, runs);
      OthersAct(breaker, world.others(2 * runs));
      ghost var sofar := breaker.events;
      var admitted := breaker.CanExecute(world.clock(2 * runs));
      assert breaker.events[..|sofar|] == sofar && breaker.events[|sofar|] == Ask(world.clock(2 * runs));
      if !admitted {
        break;
      }
      world.EachAdmittedGrows(breaker.config, before, runs);
      var outcome := world.script(runs);
      OthersAct(breaker, world.others(2 * runs + 1));
      runs := runs + 1;
      match outcome {
        case Value(_) =>
          breaker.RecordSuccess(world.clock(2 * runs - 1));
          return outcome, runs, sleeps;
        case Raised(_) =>
          lastError := outcome;
          breaker.RecordFailure(world.clock(2 * runs - 1));
          if attempt < maxRetries {
            BackoffGrows(sleeps, baseDelay, maxDelay);
            sleeps := sleeps + [Delay(baseDelay, maxDelay, attempt)];
          }
      }
      attempt := attempt + 1;
    }
    result := if fallback != [] then fallback[0] else lastError;
  }

  lemma NoSleepsYet(base: real, cap: real)
    ensures Backoff([], base, cap)
  {}

  lemma HistoryIs<T>(world: World<T>, before: seq<Event>, runs: nat)
    ensures world.HistoryAt(before, runs) == before + world.Attempts(runs) + world.others(2 * runs)
  {}

  function Times(x: real, y: real): real { x * y }

  lemma TimesLaws(x: real, y: real, z: real)
    ensures Times(x, y + z) == Times(x, y) + Times(x, z)
    ensures Times(x, 0.0) == 0.0 && Times(x, 1.0) == x
    ensures x >= 0.0 && y <= z ==> Times(x, y) <= Times(x, z)
  {}

  lemma {:induction false} DelaysGrow(base: real, cap: real, i: nat, j: nat)
    requires base >= 0.0 && i <= j
    ensures Delay(base, cap, i) <= Delay(base, cap, j)
  {
    Pow2Grows(i, j);
    TimesLaws(base, Pow2(i) as real, Pow2(j) as real);
  }

  lemma {:induction false} Pow2Grows(i: nat, j: nat)
    requires i <= j
    ensures Pow2(i) <= Pow2(j)
  {
    if i < j {
      Pow2Grows(i, j - 1);
    }
  }

  /** The driver never waits less than it did before. */
  lemma SleepsGrow(sleeps: seq<real>, base: real, cap: real)
    requires Backoff(sleeps, base, cap) && base >= 0.0
    ensures forall i, j :: 0 <= i <= j < |sleeps| ==> sleeps[i] <= sleeps[j]
  {
    hide Delay;
    forall i, j | 0 <= i <= j < |sleeps| ensures sleeps[i] <= sleeps[j] {
      DelaysGrow(base, cap, i, j);
    }
  }

  /** Whatever the outcomes, the driver waits at most both the uncapped geometric sum and the cap times the number of
      retries. */
  lemma SleepIsBounded(sleeps: seq<real>, base: real, cap: real, maxRetries: nat)
    requires Backoff(sleeps, base, cap) && base >= 0.0 && cap >= 0.0 && |sleeps| <= maxRetries
    ensures TotalSleep(sleeps) <= base * ((Pow2(maxRetries) - 1) as real)
    ensures TotalSleep(sleeps) <= cap * (maxRetries as real)
  {
    hide Backoff, TotalSleep, Pow2;
    PartialSums(sleeps, base, cap);
    Pow2Grows(|sleeps|, maxRetries);
    TimesLaws(base, (Pow2(|sleeps|) - 1) as real, (Pow2(maxRetries) - 1) as real);
    TimesLaws(cap, |sleeps| as real, maxRetries as real);
  }

  lemma {:induction false} PartialSums(sleeps: seq<real>, base: real, cap: real)
    requires Backoff(sleeps, base, cap) && base >= 0.0 && cap >= 0.0
    ensures TotalSleep(sleeps) <= Times(base, (Pow2(|sleeps|) - 1) as real)
    ensures TotalSleep(sleeps) <= Times(cap, |sleeps| as real)
  {
    hide Times;
    if sleeps == [] {
      TimesLaws(base, 0.0, 0.0);
      TimesLaws(cap, 0.0, 0.0);
    } else {
      var n := |sleeps| - 1;
      PartialSums(sleeps[..n], base, cap);
      assert sleeps[n] == Delay(base, cap, n);
      DelayBelow(base, cap, n);
      TimesLaws(base, (Pow2(n) - 1) as real, Pow2(n) as real);
      assert (Pow2(n) - 1) as real + Pow2(n) as real == (Pow2(n + 1) - 1) as real;
      TimesLaws(cap, n as real, 1.0);
    }
  }

  lemma DelayBelow(base: real, cap: real, n: nat)
    ensures Delay(base, cap, n) <= Times(base, Pow2(n) as real)
    ensures Delay(base, cap, n) <= cap
  {}
}
