/** The three-state circuit breaker of src/brain/security/circuit_breaker.py.

    Calls overlap: between the moment a call is admitted and the moment it reports, any other caller may ask, report
    or look.  A run is therefore an arbitrary sequence of events, and the theorems quantify over all of them. */
module CircuitBreaking {

  datatype Mode = Closed | Open | HalfOpen

  datatype Config = Config(failureThreshold: int, recoveryTimeout: real, halfOpenMaxCalls: int, successThreshold: int)

  const DEFAULT_CONFIG := Config(5, 60.0, 1, 2)

  /** What callers do to a breaker; every event carries the clock reading of its atomic step. */
  datatype Event =
    | Ask(time: real)      // can_execute
    | Success(time: real)  // record_success
    | Failure(time: real)  // record_failure
    | Look(time: real)     // the state property, or get_status

  datatype State = State(mode: Mode, failures: int, successes: int, lastFailure: real, trials: int)

  const INITIAL := State(Closed, 0, 0, 0.0, 0)

  function CheckRecovery(c: Config, s: State, now: real): State {
    if s.mode == Open && now - s.lastFailure >= c.recoveryTimeout
    then s.(mode := HalfOpen, trials := 0, successes := 0)
    else s
  }

  predicate Admits(c: Config, s: State, now: real) {
    var r := CheckRecovery(c, s, now);
    r.mode == Closed || (r.mode == HalfOpen && r.trials < c.halfOpenMaxCalls)
  }

  function Step(c: Config, s: State, e: Event): State {
    match e
    case Ask(now) =>
      var r := CheckRecovery(c, s, now);
      if r.mode == HalfOpen && r.trials < c.halfOpenMaxCalls then r.(trials := r.trials + 1) else r
    case Look(now) => CheckRecovery(c, s, now)
    case Success(_) =>
      if s.mode != HalfOpen then s.(failures := 0)
      else if s.successes + 1 >= c.successThreshold then s.(mode := Closed, failures := 0, successes := 0)
      else s.(successes := s.successes + 1)
    case Failure(now) =>
      var f := s.(failures := s.failures + 1, lastFailure := now);
      if s.mode == HalfOpen then f.(mode := Open, trials := 0, successes := 0)
      else if f.failures >= c.failureThreshold then f.(mode := Open)
      else f
  }

  /** The state after a sequence of events. */
  function Run(c: Config, start: State, events: seq<Event>): State {
    if events == [] then start
    else Step(c, Run(c, start, events[..|events| - 1]), events[|events| - 1])
  }

  /** Did the last event of a run admit a call? */
  predicate LastAdmits(c: Config, start: State, events: seq<Event>)
    requires events != []
  {
    events[|events| - 1].Ask? && Admits(c, Run(c, start, events[..|events| - 1]), events[|events| - 1].time)
  }

  class CircuitBreaker {
    const config: Config
    var mode: Mode
    var failureCount: int
    var successCount: int
    var lastFailureTime: real
    var halfOpenCalls: int

    ghost var events: seq<Event>  // everything that ever happened to this breaker

    ghost function View(): State
      reads this
    {
      State(mode, failureCount, successCount, lastFailureTime, halfOpenCalls)
    }

    ghost predicate Valid()
      reads this
    {
      View() == Run(config, INITIAL, events)
    }

    constructor (config: Config)
      ensures Valid() && events == [] && this.config == config
    {
      this.config := config;
      mode, failureCount, successCount, lastFailureTime, halfOpenCalls := Closed, 0, 0, 0.0, 0;
      events := [];
    }

    method CheckRecoveryAt(now: real)
      modifies this`mode, this`halfOpenCalls, this`successCount
      ensures View() == CheckRecovery(config, old(View()), now)
    {
      if mode != Open {
        return;
      }
      var elapsed := now - lastFailureTime;
      if elapsed >= config.recoveryTimeout {
        mode := HalfOpen;
        halfOpenCalls := 0;
        successCount := 0;
      }
    }

    method CanExecute(now: real) returns (ok: bool)
      requires Valid()
      modifies this
      ensures Valid() && events == old(events) + [Ask(now)]
      ensures ok <==> LastAdmits(config, INITIAL, events)
    {
      Extends(Ask(now));
      CheckRecoveryAt(now);
      events := events + [Ask(now)];
      if mode == Closed {
        return true;
      }
      if mode == HalfOpen {
        if halfOpenCalls < config.halfOpenMaxCalls {
          halfOpenCalls := halfOpenCalls + 1;
          return true;
        }
        return false;
      }
      return false;
    }

    method CurrentMode(now: real) returns (m: Mode)
      requires Valid()
      modifies this
      ensures Valid() && events == old(events) + [Look(now)]
      ensures m == Run(config, INITIAL, events).mode
    {
      Extends(Look(now));
      CheckRecoveryAt(now);
      events := events + [Look(now)];
      m := mode;
    }

    method RecordSuccess(ghost now: real)
      requires Valid()
      modifies this
      ensures Valid() && events == old(events) + [Success(now)]
    {
      Extends(Success(now));
      events := events + [Success(now)];
      if mode == HalfOpen {
        successCount := successCount + 1;
        if successCount >= config.successThreshold {
          mode := Closed;
          failureCount := 0;
          successCount := 0;
        }
      } else {
        failureCount := 0;
      }
    }

    method RecordFailure(now: real)
      requires Valid()
      modifies this
      ensures Valid() && events == old(events) + [Failure(now)]
    {
      Extends(Failure(now));
      events := events + [Failure(now)];
      failureCount := failureCount + 1;
      lastFailureTime := now;
      if mode == HalfOpen {
        mode := Open;
        halfOpenCalls := 0;
        successCount := 0;
      } else if failureCount >= config.failureThreshold {
        mode := Open;
      }
    }

    lemma Extends(e: Event)
      ensures (events + [e])[..|events|] == events
    {}
  }

  // ----- safety over all runs -----

  function ModeAfter(c: Config, events: seq<Event>): Mode { Run(c, INITIAL, events).mode }

  ghost predicate Timed(events: seq<Event>) {
    forall i, j :: 0 <= i < j < |events| ==> events[i].time <= events[j].time
  }

  /** Failure reports since the last success report (a breaker closes only on a success report). */
  function TrailingFailures(events: seq<Event>): nat {
    if events == [] then 0 else
      var init := TrailingFailures(events[..|events| - 1]);
      match events[|events| - 1]
      case Success(_) => 0
      case Failure(_) => init + 1
      case _ => init
  }

  /** The time of the latest failure report. */
  function LatestFailure(events: seq<Event>): real {
    if events == [] then 0.0
    else if events[|events| - 1].Failure? then events[|events| - 1].time
    else LatestFailure(events[..|events| - 1])
  }

  lemma {:induction false} RemembersLatestFailure(c: Config, events: seq<Event>)
    ensures Run(c, INITIAL, events).lastFailure == LatestFailure(events)
  {
    if events != [] {
      RemembersLatestFailure(c, events[..|events| - 1]);
    }
  }

  /** While closed, the counter is the number of failure reports since the last success, and below the threshold. */
  lemma {:induction false} ClosedCountsTrailingFailures(c: Config, events: seq<Event>)
    requires c.failureThreshold >= 1
    ensures ModeAfter(c, events) == Closed ==>
              Run(c, INITIAL, events).failures == TrailingFailures(events) < c.failureThreshold
  {
    if events != [] {
      ClosedCountsTrailingFailures(c, events[..|events| - 1]);
    }
  }

  /** Success reports in the half-open episode a run is in (none outside an episode). */
  function EpisodeSuccesses(c: Config, events: seq<Event>): nat {
    if events == [] || ModeAfter(c, events) != HalfOpen then 0
    else EpisodeSuccesses(c, events[..|events| - 1]) + (if events[|events| - 1].Success? then 1 else 0)
  }

  lemma {:induction false} HalfOpenCountsSuccesses(c: Config, events: seq<Event>)
    ensures ModeAfter(c, events) == HalfOpen ==> Run(c, INITIAL, events).successes == EpisodeSuccesses(c, events)
  {
    if events != [] {
      HalfOpenCountsSuccesses(c, events[..|events| - 1]);
    }
  }

  /** Modes change only CLOSED -> OPEN -> HALF_OPEN -> {OPEN, CLOSED}: a closed breaker opens exactly on the
      threshold-th failure report since the last success; an open one turns half-open exactly when someone asks or
      looks once the timeout since the latest failure report is over; a half-open one opens on any failure report
      and closes exactly on the threshold-th success report of the episode. */
  lemma ModeChanges(c: Config, events: seq<Event>, e: Event)
    requires c.failureThreshold >= 1
    ensures var before, after := ModeAfter(c, events), ModeAfter(c, events + [e]);
            match before
            case Closed =>
              after == if e.Failure? && TrailingFailures(events + [e]) == c.failureThreshold then Open else Closed
            case Open =>
              after == if (e.Ask? || e.Look?) && e.time - LatestFailure(events) >= c.recoveryTimeout then HalfOpen
                       else Open
            case HalfOpen =>
              match e
              case Failure(_) => after == Open
              case Success(_) =>
                after == if EpisodeSuccesses(c, events) + 1 >= c.successThreshold then Closed else HalfOpen
              case _ => after == HalfOpen
  {
    assert (events + [e])[..|events|] == events;
    ClosedCountsTrailingFailures(c, events);
    RemembersLatestFailure(c, events);
    HalfOpenCountsSuccesses(c, events);
  }

  /** No call is admitted between a failure report that leaves the breaker open and `recoveryTimeout` later. */
  lemma {:induction false} QuarantineHolds(c: Config, events: seq<Event>, i: nat)
    requires Timed(events) && i < |events| - 1
    requires events[i].Failure? && ModeAfter(c, events[..i + 1]) == Open
    requires LastAdmits(c, INITIAL, events)
    ensures events[|events| - 1].time >= events[i].time + c.recoveryTimeout
  {
    var init := events[..|events| - 1];
    assert init[..i + 1] == events[..i + 1];
    StaysOpen(c, init, i);
    assert events[|events| - 2].time <= events[|events| - 1].time;
  }

  /** After such a report the breaker stays open with a last failure no older, unless the timeout has passed. */
  lemma {:induction false} StaysOpen(c: Config, events: seq<Event>, i: nat)
    requires Timed(events) && i < |events|
    requires events[i].Failure? && ModeAfter(c, events[..i + 1]) == Open
    ensures var s := Run(c, INITIAL, events);
            || (s.mode == Open && s.lastFailure >= events[i].time)
            || events[|events| - 1].time >= events[i].time + c.recoveryTimeout
  {
    if i == |events| - 1 {
      assert events[..i + 1] == events;
    } else {
      var init := events[..|events| - 1];
      assert init[..i + 1] == events[..i + 1];
      StaysOpen(c, init, i);
      assert events[|events| - 2].time <= events[|events| - 1].time;
    }
  }

  /** Calls admitted in the half-open episode a run is in (none outside an episode). */
  function EpisodeAdmissions(c: Config, events: seq<Event>): nat {
    if events == [] || ModeAfter(c, events) != HalfOpen then 0
    else EpisodeAdmissions(c, events[..|events| - 1]) + (if LastAdmits(c, INITIAL, events) then 1 else 0)
  }

  /** Each half-open episode admits at most `halfOpenMaxCalls` calls. */
  lemma {:induction false} EpisodeIsBounded(c: Config, events: seq<Event>)
    ensures EpisodeAdmissions(c, events) <= if c.halfOpenMaxCalls > 0 then c.halfOpenMaxCalls else 0
    ensures ModeAfter(c, events) == HalfOpen ==> Run(c, INITIAL, events).trials == EpisodeAdmissions(c, events)
  {
    if events != [] {
      EpisodeIsBounded(c, events[..|events| - 1]);
    }
  }

  // ----- recovery -----

  /** How many success reports it takes to close from half-open. */
  function Needed(c: Config): nat { if c.successThreshold > 1 then c.successThreshold else 1 }

  function CountSuccesses(events: seq<Event>): nat {
    if events == [] then 0
    else CountSuccesses(events[..|events| - 1]) + (if events[|events| - 1].Success? then 1 else 0)
  }

  function CountAdmitted(c: Config, start: State, events: seq<Event>): nat {
    if events == [] then 0
    else CountAdmitted(c, start, events[..|events| - 1]) + (if LastAdmits(c, start, events) then 1 else 0)
  }

  predicate NoFailures(events: seq<Event>) {
    events == [] || (NoFailures(events[..|events| - 1]) && !events[|events| - 1].Failure?)
  }

  /** How many calls a half-open episode admits at most. */
  function Quota(c: Config): nat { if c.halfOpenMaxCalls > 0 then c.halfOpenMaxCalls else 0 }

  /** Open, or half-open with what an episode can have counted so far. */
  predicate Tripped(c: Config, s: State) {
    s.mode == Open || (s.mode == HalfOpen && 0 <= s.successes < Needed(c) && 0 <= s.trials <= Quota(c))
  }

  /** Every reachable state that is not closed is such a state. */
  lemma {:induction false} ReachableIsTripped(c: Config, events: seq<Event>)
    ensures ModeAfter(c, events) == Closed || Tripped(c, Run(c, INITIAL, events))
  {
    if events != [] {
      ReachableIsTripped(c, events[..|events| - 1]);
    }
  }

  /** The successes and admissions that count for the episode a state is in, or for the next one. */
  function Gained(s: State): int { if s.mode == HalfOpen then s.successes else 0 }

  function Used(s: State): int { if s.mode == HalfOpen then s.trials else 0 }

  /** Has someone asked or looked since the timeout was over? */
  predicate Awake(c: Config, start: State, events: seq<Event>) {
    || start.mode == HalfOpen
    || (&& events != []
        && (|| Awake(c, start, events[..|events| - 1])
            || (var e := events[|events| - 1];
                (e.Ask? || e.Look?) && e.time - start.lastFailure >= c.recoveryTimeout)))
  }

  /** The success reports since then. */
  function Heard(c: Config, start: State, events: seq<Event>): nat {
    if events == [] then 0
    else
      var init := events[..|events| - 1];
      Heard(c, start, init) + (if events[|events| - 1].Success? && Awake(c, start, init) then 1 else 0)
  }

  /** While no failure is reported a tripped breaker is half-open from the first question after the timeout on, and
      closes exactly with the last success report needed since then, whichever calls report; until then it counts the
      reports and the calls it admits. */
  lemma {:induction false} ClosesIffEnoughSucceed(c: Config, start: State, events: seq<Event>)
    requires Tripped(c, start) && NoFailures(events)
    ensures var s := Run(c, start, events);
            if !Awake(c, start, events) then
              s.mode == Open && s.lastFailure == start.lastFailure && CountAdmitted(c, start, events) == 0
            else if Gained(start) + Heard(c, start, events) >= Needed(c) then s.mode == Closed
            else && s.mode == HalfOpen && s.successes == Gained(start) + Heard(c, start, events)
                 && s.trials == Used(start) + CountAdmitted(c, start, events) <= Quota(c)
  {
    if events != [] {
      ClosesIffEnoughSucceed(c, start, events[..|events| - 1]);
      AsleepHearsNothing(c, start, events[..|events| - 1]);
    }
  }

  lemma {:induction false} AsleepHearsNothing(c: Config, start: State, events: seq<Event>)
    ensures Heard(c, start, events) <= CountSuccesses(events)
    ensures !Awake(c, start, events) ==> Heard(c, start, events) == 0
    ensures start.mode == HalfOpen ==> Awake(c, start, events) && Heard(c, start, events) == CountSuccesses(events)
  {
    if events != [] {
      AsleepHearsNothing(c, start, events[..|events| - 1]);
    }
  }

  /** The exact lock-out: while no failure is reported a tripped breaker refuses a request if and only if the timeout is
      not over, unless someone has asked since it was, or too few successes were reported and the quota is used up. */
  lemma RefusedIff(c: Config, start: State, events: seq<Event>, now: real)
    requires Tripped(c, start) && NoFailures(events)
    ensures !Admits(c, Run(c, start, events), now)
       <==> || (!Awake(c, start, events) && now - start.lastFailure < c.recoveryTimeout)
            || (&& Gained(start) + Heard(c, start, events) < Needed(c)
                && Used(start) + CountAdmitted(c, start, events) >= Quota(c))
  {
    ClosesIffEnoughSucceed(c, start, events);
    AsleepHearsNothing(c, start, events);
    hide Run, CountSuccesses, CountAdmitted, NoFailures, Awake, Heard;
  }

  /** A continuation without failures in which every report comes from one of the `late` calls that were in flight when
      it began, or from a call admitted since. */
  predicate Honest(c: Config, start: State, late: nat, events: seq<Event>) {
    || events == []
    || (&& Honest(c, start, late, events[..|events| - 1])
        && !events[|events| - 1].Failure?
        && CountSuccesses(events) <= late + CountAdmitted(c, start, events))
  }

  lemma {:induction false} HonestHasNoFailures(c: Config, start: State, late: nat, events: seq<Event>)
    requires Honest(c, start, late, events)
    ensures NoFailures(events)
    ensures CountSuccesses(events) <= late + CountAdmitted(c, start, events)
  {
    if events != [] {
      HonestHasNoFailures(c, start, late, events[..|events| - 1]);
    }
  }

  /** Calls that can still report success, and reports still needed. */
  predicate Enough(c: Config, start: State, late: nat) {
    late + (Quota(c) - Used(start)) >= Needed(c) - Gained(start)
  }

  /** With too few calls that can report, an honest continuation does not close the breaker, however long it is. */
  lemma {:induction false} TooFewReports(c: Config, start: State, late: nat, events: seq<Event>)
    requires Tripped(c, start) && Honest(c, start, late, events) && !Enough(c, start, late)
    ensures Gained(start) + Heard(c, start, events) < Needed(c) && Run(c, start, events).mode != Closed
  {
    HonestHasNoFailures(c, start, late, events);
    ClosesIffEnoughSucceed(c, start, events);
    AsleepHearsNothing(c, start, events);
    if events != [] {
      var init := events[..|events| - 1];
      TooFewReports(c, start, late, init);
      HonestHasNoFailures(c, start, late, init);
      ClosesIffEnoughSucceed(c, start, init);
      LastEvent(c, start, events);
      hide Run, NoFailures, Honest, Heard, CountSuccesses, CountAdmitted, Awake;
    }
  }

  lemma LastEvent(c: Config, start: State, events: seq<Event>)
    requires events != []
    ensures var init, e := events[..|events| - 1], events[|events| - 1];
            && (e.Success? ==> CountAdmitted(c, start, events) == CountAdmitted(c, start, init))
            && (!e.Success? ==> Heard(c, start, events) == Heard(c, start, init))
            && (Heard(c, start, events) <= Heard(c, start, init) + 1)
            && (Heard(c, start, events) > Heard(c, start, init) ==> Awake(c, start, init))
  {}

  /** What wakes an open breaker up, if the timeout is over. */
  function WakeUp(start: State, now: real): seq<Event> {
    if start.mode == Open then [Look(now)] else []
  }

  predicate IsOver(c: Config, start: State, now: real) {
    start.mode == Open ==> now - start.lastFailure >= c.recoveryTimeout
  }

  ghost predicate AllAt(events: seq<Event>, now: real) {
    forall i :: 0 <= i < |events| ==> events[i].time == now
  }

  /** `n` successes after that: first the late calls report, then one admitted call after the other. */
  function Reports(start: State, n: nat, late: nat, now: real): seq<Event> {
    if n == 0 then WakeUp(start, now)
    else Reports(start, n - 1, late, now) + (if n <= late then [] else [Ask(now)]) + [Success(now)]
  }

  lemma OneMore(c: Config, start: State, late: nat, events: seq<Event>, e: Event)
    ensures Run(c, start, events + [e]) == Step(c, Run(c, start, events), e)
    ensures CountSuccesses(events + [e]) == CountSuccesses(events) + (if e.Success? then 1 else 0)
    ensures CountAdmitted(c, start, events + [e])
         == CountAdmitted(c, start, events) + (if e.Ask? && Admits(c, Run(c, start, events), e.time) then 1 else 0)
    ensures Awake(c, start, events) ==> Awake(c, start, events + [e])
    ensures Heard(c, start, events + [e])
         == Heard(c, start, events) + (if e.Success? && Awake(c, start, events) then 1 else 0)
    ensures Honest(c, start, late, events + [e]) <==>
              && Honest(c, start, late, events) && !e.Failure?
              && CountSuccesses(events + [e]) <= late + CountAdmitted(c, start, events + [e])
  {
    assert (events + [e])[..|events|] == events;
  }

  lemma WakesUp(c: Config, start: State, late: nat, now: real)
    requires Tripped(c, start) && IsOver(c, start, now)
    ensures var events := WakeUp(start, now);
            && Honest(c, start, late, events) && CountSuccesses(events) == CountAdmitted(c, start, events) == 0
            && Awake(c, start, events) && Heard(c, start, events) == 0
  {
    var none: seq<Event> := [];
    var e := Look(now);
    assert Honest(c, start, late, none) && CountSuccesses(none) == CountAdmitted(c, start, none) == 0;
    OneMore(c, start, late, none, e);
    assert none + [e] == [e];
  }

  lemma {:induction false} ReportsAreAt(start: State, n: nat, late: nat, now: real)
    ensures AllAt(Reports(start, n, late, now), now)
  {
    if n > 0 {
      ReportsAreAt(start, n - 1, late, now);
    }
  }

  /** Those reports can be made as long as the late calls and the quota last. */
  lemma {:induction false} ReportsAreHonest(c: Config, start: State, n: nat, late: nat, now: real)
    requires Tripped(c, start) && n <= Needed(c) - Gained(start) && n <= late + (Quota(c) - Used(start))
    requires IsOver(c, start, now)
    ensures var events := Reports(start, n, late, now);
            && Honest(c, start, late, events) && Awake(c, start, events)
            && CountSuccesses(events) == Heard(c, start, events) == n
            && CountAdmitted(c, start, events) == if n <= late then 0 else n - late
  {
    hide Run, CountSuccesses, CountAdmitted, CheckRecovery, Step, Admits, NoFailures, Awake, Heard, Tripped, WakeUp;
    if n == 0 {
      WakesUp(c, start, late, now);
    } else {
      var before := Reports(start, n - 1, late, now);
      ReportsAreHonest(c, start, n - 1, late, now);
      HonestHasNoFailures(c, start, late, before);
      RefusedIff(c, start, before, now);
      OneMore(c, start, late, before, Ask(now));
      OneMore(c, start, late, before, Success(now));
      OneMore(c, start, late, before + [Ask(now)], Success(now));
      hide Honest;
      assert before + [] == before;
    }
  }

  /** An honest continuation after `now`, in the order of time, that closes the breaker. */
  ghost predicate Recovers(c: Config, start: State, late: nat, now: real, events: seq<Event>) {
    && Timed(events) && (forall i :: 0 <= i < |events| ==> events[i].time >= now)
    && Honest(c, start, late, events) && Run(c, start, events).mode == Closed
  }

  /** A tripped breaker can be closed by successful calls if and only if what is left of its half-open quota and the
      calls still in flight together are at least the successes still needed. */
  lemma {:induction false} RecoverableIff(c: Config, start: State, late: nat, now: real)
    requires Tripped(c, start)
    ensures (exists events :: Recovers(c, start, late, now, events)) <==> Enough(c, start, late)
  {
    hide Tripped, Enough, Honest, Run, Timed;
    if Enough(c, start, late) {
      var events := Recovery(c, start, late, now);
    } else {
      forall events ensures !Recovers(c, start, late, now, events) {
        if Honest(c, start, late, events) {
          TooFewReports(c, start, late, events);
        }
      }
    }
  }

  lemma {:induction false} Recovery(c: Config, start: State, late: nat, now: real) returns (events: seq<Event>)
    requires Tripped(c, start) && Enough(c, start, late)
    ensures Recovers(c, start, late, now, events)
  {
    var n, over := Needed(c) - Gained(start), start.lastFailure + c.recoveryTimeout;
    var t := if now >= over then now else over;
    events := Reports(start, n, late, t);
    ReportsAreHonest(c, start, n, late, t);
    ReportsAreAt(start, n, late, t);
    HonestHasNoFailures(c, start, late, events);
    ClosesIffEnoughSucceed(c, start, events);
    hide Honest, Run, Heard, Awake, Reports, CountSuccesses, CountAdmitted, NoFailures;
  }

  /** With the default parameters the single trial call of an episode does not suffice: a breaker that is open, or has
      just turned half-open, can close if and only if some call admitted before is still to report, and once the trial
      is used and none is, every later request is refused for as long as no failure is reported. */
  lemma DefaultsLockOut(start: State, late: nat, events: seq<Event>, now: real)
    requires Tripped(DEFAULT_CONFIG, start) && Gained(start) == Used(start) == 0
    ensures (exists run :: Recovers(DEFAULT_CONFIG, start, late, now, run)) <==> late >= 1
    ensures Honest(DEFAULT_CONFIG, start, 0, events) && CountAdmitted(DEFAULT_CONFIG, start, events) >= 1 ==>
              !Admits(DEFAULT_CONFIG, Run(DEFAULT_CONFIG, start, events), now)
  {
    RecoverableIff(DEFAULT_CONFIG, start, late, now);
    if Honest(DEFAULT_CONFIG, start, 0, events) && CountAdmitted(DEFAULT_CONFIG, start, events) >= 1 {
      TooFewReports(DEFAULT_CONFIG, start, 0, events);
      HonestHasNoFailures(DEFAULT_CONFIG, start, 0, events);
      RefusedIff(DEFAULT_CONFIG, start, events, now);
    }
  }

  /** For instance, from the start: six calls are admitted, five fail, and the late success of the sixth together with
      that of the trial call closes the breaker. */
  lemma LateReportCloses()
    ensures var asks := [Ask(0.0), Ask(0.0), Ask(0.0), Ask(0.0), Ask(0.0), Ask(0.0)];
            var failures := [Failure(0.0), Failure(0.0), Failure(0.0), Failure(0.0), Failure(0.0)];
            && ModeAfter(DEFAULT_CONFIG, asks + failures) == Open
            && ModeAfter(DEFAULT_CONFIG, asks + failures + [Ask(60.0)]) == HalfOpen
            && ModeAfter(DEFAULT_CONFIG, asks + failures + [Ask(60.0)] + [Success(61.0)] + [Success(61.0)]) == Closed
  {
    var c := DEFAULT_CONFIG;
    var asks := [Ask(0.0), Ask(0.0), Ask(0.0), Ask(0.0), Ask(0.0), Ask(0.0)];
    var failures := [Failure(0.0), Failure(0.0), Failure(0.0), Failure(0.0), Failure(0.0)];
    ClosedStaysClosed(c, asks);
    RunAppend(c, asks, failures);
    FailuresCount(c, failures);
    OneMore(c, INITIAL, 0, asks + failures, Ask(60.0));
    OneMore(c, INITIAL, 0, asks + failures + [Ask(60.0)], Success(61.0));
    OneMore(c, INITIAL, 0, asks + failures + [Ask(60.0)] + [Success(61.0)], Success(61.0));
    hide Run, CountSuccesses, CountAdmitted, Honest;
  }

  lemma {:induction false} RunAppend(c: Config, a: seq<Event>, b: seq<Event>)
    ensures Run(c, INITIAL, a + b) == Run(c, Run(c, INITIAL, a), b)
  {
    if b == [] {
      assert a + b == a;
    } else {
      RunAppend(c, a, b[..|b| - 1]);
      assert (a + b)[..|a + b| - 1] == a + b[..|b| - 1];
    }
  }

  lemma {:induction false} ClosedStaysClosed(c: Config, asks: seq<Event>)
    requires forall i :: 0 <= i < |asks| ==> asks[i].Ask?
    ensures Run(c, INITIAL, asks) == INITIAL
  {
    if asks != [] {
      ClosedStaysClosed(c, asks[..|asks| - 1]);
    }
  }

  lemma {:induction false} FailuresCount(c: Config, failures: seq<Event>)
    requires forall i :: 0 <= i < |failures| ==> failures[i] == Failure(0.0)
    ensures Run(c, INITIAL, failures).failures == |failures|
    ensures Run(c, INITIAL, failures).mode
         == if |failures| >= 1 && |failures| >= c.failureThreshold then Open else Closed
    ensures Run(c, INITIAL, failures).lastFailure == 0.0 && Run(c, INITIAL, failures).successes == 0
  {
    if failures != [] {
      FailuresCount(c, failures[..|failures| - 1]);
    }
  }
}
