/** The work-distribution protocol of src/brain/queue/tasks.py, as a state machine.

    Producers and workers interleave freely; each method of the queue is one atomic step.  A run is a sequence of
    events on one `State`, and the theorems quantify over all runs. */
module WorkQueue {

  const DEAD_LETTER_MAX_SIZE: nat := 10_000

  datatype Message = Message(id: string, kind: string, retryCount: int, maxRetries: int)

  /** `inFlight` are the messages delivered and not yet settled; `unfinished` is the counter inside Python's queue,
      which a put raises and `task_done` lowers (`task_done` raises an error rather than go below zero). */
  datatype State = State(queue: seq<Message>, inFlight: seq<Message>, deadLetter: seq<Message>, dropped: nat,
                         processed: nat, unfinished: int)

  const EMPTY := State([], [], [], 0, 0, 0)

  datatype Event =
    | Submit(message: Message)  // a producer enqueues
    | Deliver                   // a worker dequeues; nothing happens when the queue is empty
    | Finish(index: nat)        // the handler of a held message returned, or there is none: mark_done
    | Fail(index: nat)          // the handler of a held message raised: requeue

  function Without<T>(s: seq<T>, i: nat): seq<T>
    requires i < |s|
  {
    s[..i] + s[i + 1..]
  }

  predicate Exhausted(m: Message) { m.retryCount >= m.maxRetries }

  function Retried(m: Message): Message { m.(retryCount := m.retryCount + 1) }

  /** A dead letter in a full deque pushes out the oldest. */
  function Bury(s: State, m: Message): State {
    if |s.deadLetter| >= DEAD_LETTER_MAX_SIZE
    then s.(deadLetter := s.deadLetter[1..] + [m], dropped := s.dropped + 1)
    else s.(deadLetter := s.deadLetter + [m])
  }

  function Put(s: State, m: Message): State {
    s.(queue := s.queue + [m], unfinished := s.unfinished + 1)
  }

  /** An event about a message no worker holds changes nothing. */
  function Step(s: State, e: Event): State {
    match e
    case Submit(m) => Put(s, m)
    case Deliver =>
      if s.queue == [] then s
      else s.(queue := s.queue[1..], inFlight := s.inFlight + [s.queue[0]])
    case Finish(i) =>
      if i >= |s.inFlight| then s
      else s.(inFlight := Without(s.inFlight, i), processed := s.processed + 1, unfinished := s.unfinished - 1)
    case Fail(i) =>
      if i >= |s.inFlight| then s else
        var m := s.inFlight[i];
        var t := s.(inFlight := Without(s.inFlight, i));
        if Exhausted(m) then Bury(t, m) else Put(t, Retried(m))
  }

  function Run(start: State, events: seq<Event>): State {
    if events == [] then start else Step(Run(start, events[..|events| - 1]), events[|events| - 1])
  }

  // ----- sums over messages -----

  function Total(ms: seq<Message>, w: Message -> nat): nat {
    if ms == [] then 0 else Total(ms[..|ms| - 1], w) + w(ms[|ms| - 1])
  }

  lemma {:induction false} TotalAppend(a: seq<Message>, b: seq<Message>, w: Message -> nat)
    ensures Total(a + b, w) == Total(a, w) + Total(b, w)
  {
    if b == [] {
      assert a + b == a;
    } else {
      TotalAppend(a, b[..|b| - 1], w);
      assert (a + b)[..|a + b| - 1] == a + b[..|b| - 1];
    }
  }

  lemma TotalOne(m: Message, w: Message -> nat)
    ensures Total([m], w) == w(m)
  {
    assert [m][..0] == [];
  }

  lemma TotalWithout(ms: seq<Message>, i: nat, w: Message -> nat)
    requires i < |ms|
    ensures Total(Without(ms, i), w) + w(ms[i]) == Total(ms, w)
  {
    hide *;
    SplitsAt(ms, i);
    TotalThree(ms[..i], ms[i], ms[i + 1..], w);
    TotalAppend(ms[..i], ms[i + 1..], w);
  }

  lemma SplitsAt<T>(s: seq<T>, i: nat)
    requires i < |s|
    ensures s == s[..i] + [s[i]] + s[i + 1..]
    ensures Without(s, i) == s[..i] + s[i + 1..]
  {}

  lemma TotalThree(a: seq<Message>, m: Message, b: seq<Message>, w: Message -> nat)
    ensures Total(a + [m] + b, w) == Total(a, w) + w(m) + Total(b, w)
  {
    hide Total;
    TotalAppend(a + [m], b, w);
    TotalAppend(a, [m], w);
    TotalOne(m, w);
  }

  lemma TotalTail(ms: seq<Message>, w: Message -> nat)
    requires ms != []
    ensures Total(ms[1..], w) + w(ms[0]) == Total(ms, w)
  {
    TotalWithout(ms, 0, w);
    assert Without(ms, 0) == ms[1..];
  }

  // ----- what a run did, read off its events -----

  /** The weight of what an event submits, delivers, finishes or buries in state `s`. */
  function SubmittedBy(e: Event, w: Message -> nat): nat {
    if e.Submit? then w(e.message) else 0
  }

  function DeliveredBy(s: State, e: Event, w: Message -> nat): nat {
    if e.Deliver? && s.queue != [] then w(s.queue[0]) else 0
  }

  function FinishedBy(s: State, e: Event, w: Message -> nat): nat {
    if e.Finish? && e.index < |s.inFlight| then w(s.inFlight[e.index]) else 0
  }

  function BuriedBy(s: State, e: Event): seq<Message> {
    if e.Fail? && e.index < |s.inFlight| && Exhausted(s.inFlight[e.index]) then [s.inFlight[e.index]] else []
  }

  function FailedBy(s: State, e: Event): nat {
    if e.Fail? && e.index < |s.inFlight| then 1 else 0
  }

  function Submitted(events: seq<Event>, w: Message -> nat): nat {
    if events == [] then 0 else Submitted(events[..|events| - 1], w) + SubmittedBy(events[|events| - 1], w)
  }

  function Delivered(start: State, events: seq<Event>, w: Message -> nat): nat {
    if events == [] then 0 else
      var init := events[..|events| - 1];
      Delivered(start, init, w) + DeliveredBy(Run(start, init), events[|events| - 1], w)
  }

  function Finished(start: State, events: seq<Event>, w: Message -> nat): nat {
    if events == [] then 0 else
      var init := events[..|events| - 1];
      Finished(start, init, w) + FinishedBy(Run(start, init), events[|events| - 1], w)
  }

  /** Every message ever moved to the dead letters, in order. */
  function Buried(start: State, events: seq<Event>): seq<Message> {
    if events == [] then [] else
      var init := events[..|events| - 1];
      Buried(start, init) + BuriedBy(Run(start, init), events[|events| - 1])
  }

  function Failed(start: State, events: seq<Event>): nat {
    if events == [] then 0 else
      var init := events[..|events| - 1];
      Failed(start, init) + FailedBy(Run(start, init), events[|events| - 1])
  }

  /** The messages with certain ids, each counted once. */
  function Named(who: string -> bool): Message -> nat { (m: Message) => If(who(m.id), 1) }

  function If(chosen: bool, n: nat): nat { if chosen then n else 0 }

  // ----- conservation -----

  /** Weights that do not change when a message is retried. */
  ghost predicate Stable(w: Message -> nat) { forall m :: w(Retried(m)) == w(m) }

  lemma StepConserves(s: State, e: Event, w: Message -> nat)
    requires Stable(w)
    ensures Total(Step(s, e).queue, w) + Total(Step(s, e).inFlight, w) + FinishedBy(s, e, w) + Total(BuriedBy(s, e), w)
         == Total(s.queue, w) + Total(s.inFlight, w) + SubmittedBy(e, w)
  {
    hide Total;
    TotalEmpty(w);
    match e
    case Submit(m) =>
      TotalAppend(s.queue, [m], w);
      TotalOne(m, w);
    case Deliver =>
      if s.queue != [] {
        TotalTail(s.queue, w);
        TotalAppend(s.inFlight, [s.queue[0]], w);
        TotalOne(s.queue[0], w);
      }
    case Finish(i) =>
      if i < |s.inFlight| {
        TotalWithout(s.inFlight, i, w);
      }
    case Fail(i) =>
      if i < |s.inFlight| {
        var m := s.inFlight[i];
        TotalWithout(s.inFlight, i, w);
        TotalAppend(s.queue, [Retried(m)], w);
        TotalOne(Retried(m), w);
        TotalOne(m, w);
      }
  }

  lemma TotalEmpty(w: Message -> nat)
    ensures Total([], w) == 0
  {}

  /** Nothing is lost and nothing is duplicated, whatever one counts. */
  lemma {:induction false} NothingIsLost(events: seq<Event>, w: Message -> nat)
    requires Stable(w)
    ensures Submitted(events, w)
         == Total(Run(EMPTY, events).queue, w) + Total(Run(EMPTY, events).inFlight, w)
            + Finished(EMPTY, events, w) + Total(Buried(EMPTY, events), w)
  {
    if events != [] {
      var init, e := events[..|events| - 1], events[|events| - 1];
      NothingIsLost(init, w);
      StepConserves(Run(EMPTY, init), e, w);
      TotalAppend(Buried(EMPTY, init), BuriedBy(Run(EMPTY, init), e), w);
    }
  }

  /** For every id, or set of ids, what was submitted is queued, in flight, processed or dead-lettered, each exactly
      once. */
  lemma EverythingIsSomewhere(events: seq<Event>, who: string -> bool)
    ensures Submitted(events, Named(who))
         == Total(Run(EMPTY, events).queue, Named(who)) + Total(Run(EMPTY, events).inFlight, Named(who))
            + Finished(EMPTY, events, Named(who)) + Total(Buried(EMPTY, events), Named(who))
  {
    NothingIsLost(events, Named(who));
  }

  /** `dead` is the newest part of `all`, as far as it goes, and `dropped` counts the rest. */
  predicate IsNewest(dead: seq<Message>, dropped: nat, all: seq<Message>) {
    && |all| == |dead| + dropped && dead == all[dropped..]
    && |dead| <= DEAD_LETTER_MAX_SIZE && (dropped > 0 ==> |dead| == DEAD_LETTER_MAX_SIZE)
  }

  lemma NewestGrows(dead: seq<Message>, dropped: nat, all: seq<Message>, m: Message)
    requires IsNewest(dead, dropped, all)
    ensures if |dead| >= DEAD_LETTER_MAX_SIZE then IsNewest(dead[1..] + [m], dropped + 1, all + [m])
            else IsNewest(dead + [m], dropped, all + [m])
  {}

  lemma StepBuries(s: State, e: Event, all: seq<Message>)
    requires IsNewest(s.deadLetter, s.dropped, all)
    ensures IsNewest(Step(s, e).deadLetter, Step(s, e).dropped, all + BuriedBy(s, e))
  {
    assert all + [] == all;
    hide IsNewest, Without;
    if BuriedBy(s, e) != [] {
      NewestGrows(s.deadLetter, s.dropped, all, BuriedBy(s, e)[0]);
    }
  }

  /** The dead-letter deque holds the newest 10,000 of all dead letters, the others are counted as dropped. */
  lemma {:induction false} DeadLettersAreTheNewest(events: seq<Event>)
    ensures IsNewest(Run(EMPTY, events).deadLetter, Run(EMPTY, events).dropped, Buried(EMPTY, events))
  {
    if events != [] {
      var init := events[..|events| - 1];
      DeadLettersAreTheNewest(init);
      hide IsNewest, Step, BuriedBy;
      StepBuries(Run(EMPTY, init), events[|events| - 1], Buried(EMPTY, init));
    }
  }

  const ANYTHING: Message -> nat := (m: Message) => 1

  /** The same in numbers, with the queue's own counters. */
  lemma NumbersAddUp(events: seq<Event>)
    ensures var s := Run(EMPTY, events);
            Submitted(events, ANYTHING) == |s.queue| + |s.inFlight| + s.processed + |s.deadLetter| + s.dropped
  {
    var s := Run(EMPTY, events);
    NothingIsLost(events, ANYTHING);
    ProcessedCounts(events);
    DeadLettersAreTheNewest(events);
    hide *;
    TotalOfAnything(s.queue);
    TotalOfAnything(s.inFlight);
    TotalOfAnything(Buried(EMPTY, events));
  }

  lemma {:induction false} ProcessedCounts(events: seq<Event>)
    ensures Run(EMPTY, events).processed == Finished(EMPTY, events, ANYTHING)
  {
    if events != [] {
      ProcessedCounts(events[..|events| - 1]);
    }
  }

  lemma {:induction false} TotalOfAnything(ms: seq<Message>)
    ensures Total(ms, ANYTHING) == |ms|
  {
    if ms != [] {
      TotalOfAnything(ms[..|ms| - 1]);
    }
  }

  /** Python's counter of unfinished tasks is what is queued and in flight plus one for every failed attempt.  So
      `task_done` never underflows, and a join on the queue can return only if no attempt ever failed. */
  lemma {:induction false} UnfinishedCountsFailures(events: seq<Event>)
    ensures var s := Run(EMPTY, events);
            && s.unfinished == |s.queue| + |s.inFlight| + Failed(EMPTY, events)
            && (s.inFlight != [] ==> s.unfinished > 0)
            && (s.unfinished == 0 <==> s.queue == [] && s.inFlight == [] && Failed(EMPTY, events) == 0)
  {
    if events != [] {
      UnfinishedCountsFailures(events[..|events| - 1]);
    }
  }

  // ----- bounded delivery -----

  /** How often a queued message can still be delivered. */
  function Budget(m: Message): (n: nat)
    ensures n >= 1
  {
    if m.retryCount < m.maxRetries then m.maxRetries - m.retryCount + 1 else 1
  }

  function Queued(who: string -> bool): Message -> nat { (m: Message) => If(who(m.id), Budget(m)) }

  /** A held message has spent one delivery of its budget. */
  function Held(who: string -> bool): Message -> nat { (m: Message) => If(who(m.id), Budget(m) - 1) }

  function Left(s: State, who: string -> bool): nat { Total(s.queue, Queued(who)) + Total(s.inFlight, Held(who)) }

  lemma Weights(m: Message, who: string -> bool)
    ensures Queued(who)(m) == Named(who)(m) + Held(who)(m)
    ensures !Exhausted(m) ==> Queued(who)(Retried(m)) == Held(who)(m)
  {
    assert Queued(who)(m) == If(who(m.id), Budget(m));
    assert Held(who)(m) == If(who(m.id), Budget(m) - 1);
    assert Named(who)(m) == If(who(m.id), 1);
    assert Queued(who)(Retried(m)) == If(who(m.id), Budget(Retried(m)));
  }

  /** Every delivery spends one unit; failing gives nothing back, and only submitting adds. */
  lemma StepSpends(s: State, e: Event, who: string -> bool)
    ensures DeliveredBy(s, e, Named(who)) + Left(Step(s, e), who) <= Left(s, who) + SubmittedBy(e, Queued(who))
  {
    hide Total;
    match e
    case Submit(m) =>
      TotalAppend(s.queue, [m], Queued(who));
      TotalOne(m, Queued(who));
    case Deliver =>
      if s.queue != [] {
        TotalTail(s.queue, Queued(who));
        TotalAppend(s.inFlight, [s.queue[0]], Held(who));
        TotalOne(s.queue[0], Held(who));
        Weights(s.queue[0], who);
      }
    case Finish(i) =>
      if i < |s.inFlight| {
        TotalWithout(s.inFlight, i, Held(who));
      }
    case Fail(i) =>
      if i < |s.inFlight| {
        var m := s.inFlight[i];
        TotalWithout(s.inFlight, i, Held(who));
        TotalAppend(s.queue, [Retried(m)], Queued(who));
        TotalOne(Retried(m), Queued(who));
        Weights(m, who);
      }
  }

  /** In every run a message is delivered at most max_retries - retry_count + 1 times (once if it comes with its retries
      used up), summed over all submissions with the id, or with any of a set of ids. */
  lemma {:induction false} DeliveriesAreBounded(start: State, events: seq<Event>, who: string -> bool)
    ensures Delivered(start, events, Named(who)) + Left(Run(start, events), who)
         <= Left(start, who) + Submitted(events, Queued(who))
  {
    if events != [] {
      var init := events[..|events| - 1];
      DeliveriesAreBounded(start, init, who);
      StepSpends(Run(start, init), events[|events| - 1], who);
    }
  }
}
