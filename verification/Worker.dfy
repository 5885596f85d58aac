/** The queue as an object shared by producers and workers (`TaskQueue`, `QueueMessage`), and the worker loop
    (`QueueWorker._run_loop`), proved to follow the protocol of `WorkQueue`. */
module QueueWorking {
  import opened WorkQueue

  /** A message object; the queue that requeues it counts its retries in place. */
  class QueueMessage {
    const messageId: string
    const messageType: string
    const maxRetries: int
    var retryCount: int

    constructor (messageId: string, messageType: string, retryCount: int, maxRetries: int)
      ensures View() == Message(messageId, messageType, retryCount, maxRetries)
    {
      this.messageId := messageId;
      this.messageType := messageType;
      this.maxRetries := maxRetries;
      this.retryCount := retryCount;
    }

    ghost function View(): Message
      reads this
    {
      Message(messageId, messageType, retryCount, maxRetries)
    }
  }

  ghost function Views(ms: seq<QueueMessage>): (vs: seq<Message>)
    reads ms
    ensures |vs| == |ms| && forall i :: 0 <= i < |vs| ==> vs[i] == ms[i].View()
  {
    seq(|ms|, i requires 0 <= i < |ms| reads ms => ms[i].View())
  }

  lemma ViewsAppend(ms: seq<QueueMessage>, m: QueueMessage)
    ensures Views(ms + [m]) == Views(ms) + [m.View()]
  {}

  lemma ViewsWithout(ms: seq<QueueMessage>, i: nat)
    requires i < |ms|
    ensures Views(Without(ms, i)) == Without(Views(ms), i)
  {}

  lemma ViewsTail(ms: seq<QueueMessage>)
    requires ms != []
    ensures Views(ms[1..]) == Views(ms)[1..]
  {}

  ghost predicate AllDifferent(ms: seq<QueueMessage>) {
    forall i, j :: 0 <= i < j < |ms| ==> ms[i] != ms[j]
  }

  ghost predicate Apart(a: seq<QueueMessage>, b: seq<QueueMessage>) {
    forall i, j :: 0 <= i < |a| && 0 <= j < |b| ==> a[i] != b[j]
  }

  /** Every message object is in one place only. */
  ghost predicate Separate(queued: seq<QueueMessage>, held: seq<QueueMessage>, dead: seq<QueueMessage>) {
    && AllDifferent(queued) && AllDifferent(held) && AllDifferent(dead)
    && Apart(queued, held) && Apart(queued, dead) && Apart(held, dead)
  }

  lemma SeparateEnqueue(queued: seq<QueueMessage>, held: seq<QueueMessage>, dead: seq<QueueMessage>, m: QueueMessage)
    requires Separate(queued, held, dead) && m !in queued && m !in held && m !in dead
    ensures Separate(queued + [m], held, dead) && Separate(queued, held, dead + [m])
  {}

  lemma SeparateDequeue(queued: seq<QueueMessage>, held: seq<QueueMessage>, dead: seq<QueueMessage>)
    requires Separate(queued, held, dead) && queued != []
    ensures Separate(queued[1..], held + [queued[0]], dead)
  {}

  lemma SeparateRelease(queued: seq<QueueMessage>, held: seq<QueueMessage>, dead: seq<QueueMessage>, i: nat)
    requires Separate(queued, held, dead) && i < |held|
    ensures Separate(queued, Without(held, i), dead)
    ensures held[i] !in queued && held[i] !in Without(held, i) && held[i] !in dead
  {}

  lemma SeparateForget(queued: seq<QueueMessage>, held: seq<QueueMessage>, dead: seq<QueueMessage>)
    requires Separate(queued, held, dead) && dead != []
    ensures Separate(queued, held, dead[1..])
  {}

  lemma SeparateBury(queued: seq<QueueMessage>, held: seq<QueueMessage>, dead: seq<QueueMessage>, m: QueueMessage)
    requires Separate(queued, held, dead) && m !in queued && m !in held && m !in dead
    ensures dead != [] ==> Separate(queued, held, dead[1..] + [m])
    ensures Separate(queued, held, dead + [m])
  {
    SeparateEnqueue(queued, held, dead, m);
    if dead != [] {
      SeparateForget(queued, held, dead);
      SeparateEnqueue(queued, held, dead[1..], m);
    }
  }

  lemma ViewsBury(dead: seq<QueueMessage>, m: QueueMessage)
    ensures dead != [] ==> Views(dead[1..] + [m]) == Views(dead)[1..] + [m.View()]
    ensures Views(dead + [m]) == Views(dead) + [m.View()]
  {
    ViewsAppend(dead, m);
    if dead != [] {
      ViewsTail(dead);
      ViewsAppend(dead[1..], m);
    }
  }

  /** What is held when a message is let go. */
  function Minus(ms: seq<QueueMessage>, m: QueueMessage): seq<QueueMessage> {
    if ms == [] then [] else if ms[0] == m then ms[1..] else [ms[0]] + Minus(ms[1..], m)
  }

  lemma {:induction false} MinusIsWithout(ms: seq<QueueMessage>, i: nat)
    requires AllDifferent(ms) && i < |ms|
    ensures Minus(ms, ms[i]) == Without(ms, i)
  {
    if i > 0 {
      MinusIsWithout(ms[1..], i - 1);
      assert [ms[0]] + Without(ms[1..], i - 1) == Without(ms, i);
    }
  }

  class TaskQueue {
    var queue: seq<QueueMessage>
    var deadLetter: seq<QueueMessage>
    var deadLetterDropped: nat
    var processedCount: nat
    var unfinishedTasks: int           // inside queue.Queue

    var inFlight: seq<QueueMessage>    // what the workers hold, each in a local variable

    ghost predicate Valid()
      reads this
    {
      Separate(queue, inFlight, deadLetter)
    }

    ghost predicate Absent(message: QueueMessage)
      reads this
    {
      message !in queue && message !in inFlight && message !in deadLetter
    }

    /** The messages that may be worked on. */
    ghost function Messages(): set<QueueMessage>
      reads this
    {
      (set m | m in queue) + (set m | m in inFlight)
    }

    ghost function View(): State
      reads this, queue, inFlight, deadLetter
    {
      State(Views(queue), Views(inFlight), Views(deadLetter), deadLetterDropped, processedCount, unfinishedTasks)
    }

    lemma HeldIsMine(i: nat)
      requires i < |inFlight|
      ensures inFlight[i] in Messages()
    {}

    constructor ()
      ensures Valid() && View() == EMPTY
    {
      queue, deadLetter, deadLetterDropped, processedCount, unfinishedTasks, inFlight := [], [], 0, 0, 0, [];
    }

    method Enqueue(message: QueueMessage)
      requires Valid() && Absent(message)
      modifies this`queue, this`unfinishedTasks
      ensures Valid() && View() == Step(old(View()), Submit(message.View()))
      ensures queue == old(queue) + [message] && Messages() == old(Messages()) + {message}
    {
      SeparateEnqueue(queue, inFlight, deadLetter, message);
      ViewsAppend(queue, message);
      hide Separate, Views;
      queue := queue + [message];
      unfinishedTasks := unfinishedTasks + 1;
    }

    method Dequeue() returns (message: QueueMessage?)
      requires Valid()
      modifies this`queue, this`inFlight
      ensures Valid() && View() == Step(old(View()), Deliver) && Messages() == old(Messages())
      ensures if old(queue) == [] then message == null && unchanged(this)
              else message == old(queue)[0] && queue == old(queue)[1..] && inFlight == old(inFlight) + [message]
    {
      if queue == [] {
        return null;
      }
      message := queue[0];
      SeparateDequeue(queue, inFlight, deadLetter);
      ViewsTail(queue);
      ViewsAppend(inFlight, message);
      hide Separate, Views;
      queue := queue[1..];
      inFlight := inFlight + [message];
    }

    /** A worker that holds the message gives it back after a failure. */
    method Requeue(message: QueueMessage, ghost i: nat) returns (again: bool)
      requires Valid() && i < |inFlight| && inFlight[i] == message
      modifies this, message
      ensures Valid() && View() == Step(old(View()), Fail(i))
      ensures again <==> old(message.retryCount) < message.maxRetries
      ensures inFlight == Without(old(inFlight), i)
      ensures queue == if again then old(queue) + [message] else old(queue)
      ensures Messages() <= old(Messages())
    {
      SeparateRelease(queue, inFlight, deadLetter, i);
      WithoutIsPart(inFlight, i);
      ViewsWithout(inFlight, i);
      MinusIsWithout(inFlight, i);
      hide Separate, Views, Without, Minus;
      inFlight := Minus(inFlight, message);
      if message.retryCount >= message.maxRetries {
        AddDeadLetter(message);
        return false;
      }
      Retry(message);
      return true;
    }

    method Retry(message: QueueMessage)
      requires Valid() && Absent(message)
      modifies this`queue, this`unfinishedTasks, message
      ensures Valid() && View() == Put(old(View()), Retried(old(message.View())))
      ensures queue == old(queue) + [message]
    {
      message.retryCount := message.retryCount + 1;
      assert View() == old(View());
      Enqueue(message);
    }

    method AddDeadLetter(message: QueueMessage)
      requires Valid() && Absent(message)
      modifies this`deadLetter, this`deadLetterDropped
      ensures Valid() && View() == Bury(old(View()), message.View())
    {
      SeparateBury(queue, inFlight, deadLetter, message);
      ViewsBury(deadLetter, message);
      hide Separate, Views;
      if |deadLetter| >= DEAD_LETTER_MAX_SIZE {
        deadLetterDropped := deadLetterDropped + 1;
        deadLetter := deadLetter[1..];
      }
      deadLetter := deadLetter + [message];
    }

    /** A worker that holds the message reports it done. */
    method MarkDone(message: QueueMessage, ghost i: nat)
      requires Valid() && i < |inFlight| && inFlight[i] == message
      modifies this`inFlight, this`processedCount, this`unfinishedTasks
      ensures Valid() && View() == Step(old(View()), Finish(i))
      ensures inFlight == Without(old(inFlight), i) && Messages() <= old(Messages())
    {
      SeparateRelease(queue, inFlight, deadLetter, i);
      WithoutIsPart(inFlight, i);
      ViewsWithout(inFlight, i);
      MinusIsWithout(inFlight, i);
      hide Separate, Views, Without, Minus;
      inFlight := Minus(inFlight, message);
      processedCount := processedCount + 1;
      unfinishedTasks := unfinishedTasks - 1;
    }
  }

  // ----- others -----

  /** Where the message held at place `i` is held after some events of others. */
  function Place(events: seq<Event>, i: nat): nat {
    if events == [] then i else
      var at, e := Place(events[..|events| - 1], i), events[|events| - 1];
      if (e.Finish? || e.Fail?) && e.index < at then at - 1 else at
  }

  /** None of the events settles that message: only who holds a message does. */
  predicate Spares(events: seq<Event>, i: nat) {
    || events == []
    || (var init, e := events[..|events| - 1], events[|events| - 1];
        Spares(init, i) && (e.Finish? || e.Fail? ==> e.index != Place(init, i)))
  }

  /** What was held before the events and is not settled by them is held afterwards. */
  ghost predicate Tracked(before: seq<QueueMessage>, events: seq<Event>, after: seq<QueueMessage>) {
    forall i: nat :: TrackedAt(before, events, after, i)
  }

  ghost predicate TrackedAt(before: seq<QueueMessage>, events: seq<Event>, after: seq<QueueMessage>, i: nat) {
    i < |before| && Spares(events, i) ==> Place(events, i) < |after| && after[Place(events, i)] == before[i]
  }

  lemma NoEvents(s: State, held: seq<QueueMessage>)
    ensures Run(s, []) == s && Tracked(held, [], held)
    ensures forall i :: Spares([], i) && Place([], i) == i
  {}

  lemma OneEvent(e: Event, i: nat)
    ensures Spares([e], i) <==> (e.Finish? || e.Fail? ==> e.index != i)
    ensures Place([e], i) == if (e.Finish? || e.Fail?) && e.index < i then i - 1 else i
  {
    assert [e][..0] == [];
  }

  lemma OneMoreEvent(s: State, events: seq<Event>, n: nat, before: seq<QueueMessage>, at: seq<QueueMessage>,
                     after: seq<QueueMessage>)
    requires n < |events|
    ensures Run(s, events[..n + 1]) == Step(Run(s, events[..n]), events[n])
    ensures Tracked(before, events[..n], at) && Tracked(at, [events[n]], after) ==>
              Tracked(before, events[..n + 1], after)
  {
    assert events[..n + 1][..n] == events[..n];
    var grown := events[..n + 1];
    hide Spares, Place;
    if Tracked(before, events[..n], at) && Tracked(at, [events[n]], after) {
      forall i: nat ensures TrackedAt(before, grown, after, i) {
        if i < |before| && Spares(grown, i) {
          PlaceStep(events, n, i);
          assert TrackedAt(before, events[..n], at, i);
          assert TrackedAt(at, [events[n]], after, Place(events[..n], i));
        }
      }
    }
  }

  lemma PlaceStep(events: seq<Event>, n: nat, i: nat)
    requires n < |events| && Spares(events[..n + 1], i)
    ensures Spares(events[..n], i) && Spares([events[n]], Place(events[..n], i))
    ensures Place(events[..n + 1], i) == Place([events[n]], Place(events[..n], i))
  {
    assert events[..n + 1][..n] == events[..n];
    OneEvent(events[n], Place(events[..n], i));
  }

  lemma TrackedAdded(held: seq<QueueMessage>, e: Event, more: seq<QueueMessage>)
    requires !e.Finish? && !e.Fail?
    ensures Tracked(held, [e], held + more)
  {
    forall i: nat ensures TrackedAt(held, [e], held + more, i) {
      OneEvent(e, i);
    }
  }

  lemma TrackedWithout(held: seq<QueueMessage>, e: Event)
    requires e.Finish? || e.Fail?
    ensures Tracked(held, [e], if e.index < |held| then Without(held, e.index) else held)
  {
    var after := if e.index < |held| then Without(held, e.index) else held;
    forall i: nat ensures TrackedAt(held, [e], after, i) {
      OneEvent(e, i);
    }
  }

  /** Another producer or worker acts. */
  method Act(q: TaskQueue, e: Event)
    requires q.Valid()
    modifies q, q.Messages()
    ensures q.Valid() && q.View() == Step(old(q.View()), e)
    ensures forall m :: m in q.Messages() ==> m in old(q.Messages()) || fresh(m)
    ensures Tracked(old(q.inFlight), [e], q.inFlight)
  {
    hide Separate, Views, Tracked, Without, TaskQueue.Messages;
    LengthOfViews(q.inFlight);
    assert q.inFlight + [] == q.inFlight;
    match e {
      case Submit(m) =>
        TrackedAdded(q.inFlight, e, []);
        var message := new QueueMessage(m.id, m.kind, m.retryCount, m.maxRetries);
        q.Enqueue(message);
      case Deliver =>
        TrackedAdded(q.inFlight, e, if q.queue == [] then [] else [q.queue[0]]);
        var _ := q.Dequeue();
      case Finish(k) =>
        TrackedWithout(q.inFlight, e);
        if k < |q.inFlight| {
          q.MarkDone(q.inFlight[k], k);
        }
      case Fail(k) =>
        TrackedWithout(q.inFlight, e);
        if k < |q.inFlight| {
          q.HeldIsMine(k);
          var _ := q.Requeue(q.inFlight[k], k);
        }
    }
  }

  lemma WithoutIsPart(ms: seq<QueueMessage>, i: nat)
    requires i < |ms|
    ensures forall m :: m in Without(ms, i) ==> m in ms
  {}

  /** Others act, one event after the other; what they do not settle is still held. */
  method OthersAct(q: TaskQueue, events: seq<Event>)
    requires q.Valid()
    modifies q, q.Messages()
    ensures q.Valid() && q.View() == Run(old(q.View()), events)
    ensures forall m :: m in q.Messages() ==> m in old(q.Messages()) || fresh(m)
    ensures Tracked(old(q.inFlight), events, q.inFlight)
  {
    hide Separate, Views, Step, Run, Tracked, TaskQueue.Messages, TaskQueue.Valid, TaskQueue.View;
    NoEvents(q.View(), q.inFlight);
    assert events[..0] == [];
    for n := 0 to |events|
      invariant q.Valid() && q.View() == Run(old(q.View()), events[..n])
      invariant forall m :: m in q.Messages() ==> m in old(q.Messages()) || fresh(m)
      invariant Tracked(old(q.inFlight), events[..n], q.inFlight)
    {
      ghost var at := q.inFlight;
      Act(q, events[n]);
      OneMoreEvent(old(q.View()), events, n, old(q.inFlight), at, q.inFlight);
    }
    assert events[..|events|] == events;
  }

  // ----- the worker loop -----

  /** What happens around one turn: what others do before it and while the handler runs, and whether that returns. */
  datatype Slot = Slot(before: seq<Event>, during: seq<Event>, succeeds: bool)

  /** One turn of the loop: nothing on an empty queue; a message without a handler counts as done. */
  function Turn(s: State, handled: set<string>, slot: Slot): State {
    if s.queue == [] then s else
      var mine := Place(slot.during, |s.inFlight|);
      Step(Run(Step(s, Deliver), slot.during),
           if s.queue[0].kind !in handled || slot.succeeds then Finish(mine) else Fail(mine))
  }

  /** The turns of one worker, among others. */
  function Turns(s: State, handled: set<string>, plan: nat -> Slot, turns: nat): State {
    if turns == 0 then s else
      var slot := plan(turns - 1);
      Turn(Run(Turns(s, handled, plan, turns - 1), slot.before), handled, slot)
  }

  /** Nobody settles the message this worker holds. */
  ghost predicate LeftAlone(s: State, handled: set<string>, plan: nat -> Slot, turns: nat) {
    forall k: nat :: k < turns ==>
      Spares(plan(k).during, |Run(Turns(s, handled, plan, k), plan(k).before).inFlight|)
  }

  /** The body of the loop. */
  method TakeTurn(q: TaskQueue, handled: set<string>, slot: Slot)
    requires q.Valid() && Spares(slot.during, |q.inFlight|)
    modifies q, q.Messages()
    ensures q.Valid() && q.View() == Turn(old(q.View()), handled, slot)
    ensures forall m :: m in q.Messages() ==> m in old(q.Messages()) || fresh(m)
  {
    hide Separate, Views, Run, Spares, Place, Without, TaskQueue.Messages, TaskQueue.Valid;
    ViewOfFirst(q.queue);
    LengthOfViews(q.inFlight);
    ghost var held := |q.inFlight|;
    var msg := q.Dequeue();
    if msg == null {
      return;
    }
    ghost var mine := Place(slot.during, held);
    ghost var before := q.inFlight;
    OthersAct(q, slot.during);
    assert TrackedAt(before, slot.during, q.inFlight, held);
    q.HeldIsMine(mine);
    if msg.messageType !in handled {
      q.MarkDone(msg, mine);
      return;
    }
    if slot.succeeds {
      q.MarkDone(msg, mine);
    } else {
      var _ := q.Requeue(msg, mine);
    }
  }

  /** The loop of a worker that is stopped after `turns` turns. */
  method RunLoop(q: TaskQueue, handled: set<string>, plan: nat -> Slot, turns: nat)
    requires q.Valid() && LeftAlone(q.View(), handled, plan, turns)
    modifies q, q.Messages()
    ensures q.Valid() && q.View() == Turns(old(q.View()), handled, plan, turns)
  {
    hide Separate, Views, Turn, Run, Spares, Tracked, TaskQueue.Messages, TaskQueue.Valid, LeftAlone;
    for turn := 0 to turns
      invariant q.Valid() && q.View() == Turns(old(q.View()), handled, plan, turn)
      invariant forall m :: m in q.Messages() ==> m in old(q.Messages()) || fresh(m)
    {
      OthersAct(q, plan(turn).before);
      LengthOfViews(q.inFlight);
      LeftAloneAt(old(q.View()), handled, plan, turns, turn);
      TakeTurn(q, handled, plan(turn));
    }
  }

  lemma LeftAloneAt(s: State, handled: set<string>, plan: nat -> Slot, turns: nat, k: nat)
    requires LeftAlone(s, handled, plan, turns) && k < turns
    ensures Spares(plan(k).during, |Run(Turns(s, handled, plan, k), plan(k).before).inFlight|)
  {}

  lemma ViewOfFirst(ms: seq<QueueMessage>)
    ensures ms == [] <==> Views(ms) == []
    ensures ms != [] ==> Views(ms)[0] == ms[0].View()
  {}

  lemma LengthOfViews(ms: seq<QueueMessage>)
    ensures |Views(ms)| == |ms|
  {}

  // ----- what the loop guarantees -----

  /** Everybody's messages. */
  function Everyone(): string -> bool { (id: string) => true }

  /** The events of a run of the loop, in order: those of the others and the worker's own. */
  function Log(s: State, handled: set<string>, plan: nat -> Slot, turns: nat): seq<Event> {
    if turns == 0 then [] else
      var slot := plan(turns - 1);
      Joined(Log(s, handled, plan, turns - 1), slot.before,
             OwnEvents(Run(Turns(s, handled, plan, turns - 1), slot.before), handled, slot))
  }

  function Joined(a: seq<Event>, b: seq<Event>, c: seq<Event>): seq<Event> { a + b + c }

  /** Those from the worker's taking a message until it settles it. */
  function OwnEvents(s: State, handled: set<string>, slot: Slot): seq<Event> {
    if s.queue == [] then [] else
      var mine := Place(slot.during, |s.inFlight|);
      [Deliver] + slot.during + [if s.queue[0].kind !in handled || slot.succeeds then Finish(mine) else Fail(mine)]
  }

  lemma {:induction false} RunAppend(s: State, a: seq<Event>, b: seq<Event>)
    ensures Run(s, a + b) == Run(Run(s, a), b)
  {
    if b == [] {
      assert a + b == a;
    } else {
      RunAppend(s, a, b[..|b| - 1]);
      assert (a + b)[..|a + b| - 1] == a + b[..|b| - 1];
    }
  }

  lemma RunOne(s: State, e: Event)
    ensures Run(s, [e]) == Step(s, e)
  {
    assert [e][..0] == [];
  }

  lemma TurnIsRun(s: State, handled: set<string>, slot: Slot)
    ensures Turn(s, handled, slot) == Run(s, OwnEvents(s, handled, slot))
  {
    if s.queue != [] {
      var mine := Place(slot.during, |s.inFlight|);
      var last := if s.queue[0].kind !in handled || slot.succeeds then Finish(mine) else Fail(mine);
      hide Run, Step, Place;
      RunAppend(s, [Deliver] + slot.during, [last]);
      RunAppend(s, [Deliver], slot.during);
      RunOne(s, Deliver);
      RunOne(Run(s, [Deliver] + slot.during), last);
    } else {
      assert Run(s, []) == s;
    }
  }

  /** The loop among others is a run of the protocol, so every theorem of `WorkQueue` applies to it. */
  lemma {:induction false} LoopIsRun(s: State, handled: set<string>, plan: nat -> Slot, turns: nat)
    ensures Turns(s, handled, plan, turns) == Run(s, Log(s, handled, plan, turns))
  {
    hide Run, Turn, OwnEvents, Joined, Step, Place;
    if turns == 0 {
      NoEvents(s, []);
    } else {
      var slot, before := plan(turns - 1), Log(s, handled, plan, turns - 1);
      LoopIsRun(s, handled, plan, turns - 1);
      var t := Run(Turns(s, handled, plan, turns - 1), slot.before);
      TurnIsRun(t, handled, slot);
      RunThree(s, before, slot.before, OwnEvents(t, handled, slot));
    }
  }

  lemma {:induction false} RunThree(s: State, a: seq<Event>, b: seq<Event>, c: seq<Event>)
    ensures Run(s, Joined(a, b, c)) == Run(Run(Run(s, a), b), c)
  {
    hide Run;
    RunAppend(s, a + b, c);
    RunAppend(s, a, b);
  }

  /** How many of the turns find a message. */
  function Busy(s: State, handled: set<string>, plan: nat -> Slot, turns: nat): nat {
    if turns == 0 then 0 else
      Busy(s, handled, plan, turns - 1)
      + (if Run(Turns(s, handled, plan, turns - 1), plan(turns - 1).before).queue != [] then 1 else 0)
  }

  /** What others submit before and during the turns, in deliveries. */
  function Added(plan: nat -> Slot, turns: nat): nat {
    if turns == 0 then 0 else
      Added(plan, turns - 1) + Submitted(plan(turns - 1).before, Queued(Everyone()))
      + Submitted(plan(turns - 1).during, Queued(Everyone()))
  }

  /** A turn that finds a message uses up at least one of the deliveries that are left. */
  lemma TurnSpends(s: State, handled: set<string>, slot: Slot)
    ensures Left(Turn(s, handled, slot), Everyone()) + (if s.queue != [] then 1 else 0)
         <= Left(s, Everyone()) + Submitted(slot.during, Queued(Everyone()))
  {
    if s.queue != [] {
      var mine := Place(slot.during, |s.inFlight|);
      var last := if s.queue[0].kind !in handled || slot.succeeds then Finish(mine) else Fail(mine);
      var t := Step(s, Deliver);
      assert DeliveredBy(s, Deliver, Named(Everyone())) == 1;
      hide Step, Run, Place, Left, Queued, Delivered, Submitted, Named, Everyone, DeliveredBy;
      StepSpends(s, Deliver, Everyone());
      DeliveriesAreBounded(t, slot.during, Everyone());
      StepSpends(Run(t, slot.during), last, Everyone());
    }
  }

  /** Whatever others do meanwhile, the turns that find a message are at most the deliveries that were left at the start
      and those submitted since. */
  lemma {:induction false} BusyTurnsAreBounded(s: State, handled: set<string>, plan: nat -> Slot, turns: nat)
    ensures Busy(s, handled, plan, turns) + Left(Turns(s, handled, plan, turns), Everyone())
         <= Left(s, Everyone()) + Added(plan, turns)
  {
    hide Turn, Run, Left, Queued, Submitted, Everyone, Delivered;
    if turns > 0 {
      BusyTurnsAreBounded(s, handled, plan, turns - 1);
      var t, slot := Turns(s, handled, plan, turns - 1), plan(turns - 1);
      DeliveriesAreBounded(t, slot.before, Everyone());
      TurnSpends(Run(t, slot.before), handled, slot);
    }
  }

  /** Nobody else acts. */
  ghost predicate Alone(plan: nat -> Slot) { forall k: nat :: plan(k).before == plan(k).during == [] }

  lemma AloneTurn(s: State, handled: set<string>, slot: Slot)
    requires slot.before == slot.during == []
    ensures var t := Turn(Run(s, slot.before), handled, slot);
            t.inFlight == s.inFlight && (s.queue == [] ==> t == s)
    ensures Submitted(slot.before, Queued(Everyone())) == Submitted(slot.during, Queued(Everyone())) == 0
    ensures Run(s, slot.before) == s
  {
    NoEvents(s, []);
    if s.queue != [] {
      NoEvents(Step(s, Deliver), []);
      var held := s.inFlight + [s.queue[0]];
      assert Without(held, |held| - 1) == s.inFlight;
    }
  }

  /** A worker that is alone drains the queue: after as many turns as there are deliveries left it is empty, whichever
      handler calls fail. */
  lemma {:induction false} WorkerDrains(s: State, handled: set<string>, plan: nat -> Slot, turns: nat)
    requires Alone(plan)
    ensures var t := Turns(s, handled, plan, turns);
            && t.inFlight == s.inFlight
            && (t.queue == [] || Total(t.queue, Queued(Everyone())) + turns <= Total(s.queue, Queued(Everyone())))
            && (turns >= Total(s.queue, Queued(Everyone())) ==> t.queue == [])
  {
    AloneIsBusy(s, handled, plan, turns);
    BusyTurnsAreBounded(s, handled, plan, turns);
    NoBudgetNoMessage(Turns(s, handled, plan, turns).queue);
    hide Turns, Busy, Added, Queued, Total;
  }

  lemma {:induction false} AloneIsBusy(s: State, handled: set<string>, plan: nat -> Slot, turns: nat)
    requires Alone(plan)
    ensures var t := Turns(s, handled, plan, turns);
            t.inFlight == s.inFlight && (t.queue == [] || Busy(s, handled, plan, turns) == turns)
    ensures Added(plan, turns) == 0
  {
    hide Turn, Run, Submitted;
    if turns > 0 {
      AloneIsBusy(s, handled, plan, turns - 1);
      AloneTurn(Turns(s, handled, plan, turns - 1), handled, plan(turns - 1));
    }
  }

  lemma NoBudgetNoMessage(ms: seq<Message>)
    ensures ms != [] ==> Total(ms, Queued(Everyone())) > 0
  {
    if ms != [] {
      assert Queued(Everyone())(ms[|ms| - 1]) == If(Everyone()(ms[|ms| - 1].id), Budget(ms[|ms| - 1]));
    }
  }
}
