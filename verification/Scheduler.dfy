/** The multi-tenant scheduler of src/brain/queue/scheduler.py.

    The scheduler remembers one key per tenant and kind of job: the last one it fired.  It is specified against a
    complete log of everything ever fired. */
module Scheduling {
  import opened Days

  /** Days are proleptic ordinals, as Python's `date.toordinal` counts them. */
  datatype Instant = Instant(day: int, hour: nat, minute: nat)

  const FRIDAY := 4
  const SUNDAY := 6

  datatype ClockTime = Never | At(hour: nat, minute: nat)

  /** The schedule part of a tenant's configuration; `digestTime` is Never when the text is no HH:MM. */
  datatype Config = Config(digestTime: ClockTime, digestDays: set<int>, overdueEnabled: bool, overdueInterval: int,
                           weekendEnabled: bool, reviewEnabled: bool)

  datatype Tenant = Tenant(id: string, active: bool, config: Config)

  datatype Kind = Daily | Overdue | Weekend | Weekly

  /** What the code writes as daily_DATE, overdue_DATE_HOUR, weekend_DATE, weekly_DATE (hour 0 where it has none). */
  datatype Key = Key(kind: Kind, day: int, hour: nat)

  datatype Firing = Firing(tenant: string, key: Key)

  datatype Message = Message(tenant: string, messageType: string, source: string, weekendMode: bool)

  predicate Due(kind: Kind, c: Config, now: Instant) {
    match kind
    case Daily => c.digestTime == At(now.hour, now.minute) && Weekday(now.day) in c.digestDays
    case Overdue =>
      c.overdueEnabled && c.overdueInterval > 0 && now.hour % c.overdueInterval == 0 && now.minute == 0
    case Weekend => c.weekendEnabled && Weekday(now.day) == FRIDAY && now.hour == 17 && now.minute == 0
    case Weekly => c.reviewEnabled && Weekday(now.day) == SUNDAY && now.hour == 20 && now.minute == 0
  }

  function KeyOf(kind: Kind, now: Instant): Key {
    Key(kind, now.day, if kind == Overdue then now.hour else 0)
  }

  function MessageOf(f: Firing): Message {
    match f.key.kind
    case Daily => Message(f.tenant, "pipeline_run", "scheduled_daily", false)
    case Overdue => Message(f.tenant, "pipeline_run", "scheduled_overdue", false)
    case Weekend => Message(f.tenant, "pipeline_run", "scheduled_weekend", true)
    case Weekly => Message(f.tenant, "digest_generate", "scheduled_weekly", false)
  }

  function Messages(log: seq<Firing>): (ms: seq<Message>)
    ensures |ms| == |log|
  {
    if log == [] then [] else Messages(log[..|log| - 1]) + [MessageOf(log[|log| - 1])]
  }

  // ----- a scheduler that never forgets -----

  /** Fires the kind if it is due and this key has not been fired before. */
  function FireOne(log: seq<Firing>, tid: string, c: Config, now: Instant, kind: Kind): seq<Firing> {
    if Due(kind, c, now) && Firing(tid, KeyOf(kind, now)) !in log then log + [Firing(tid, KeyOf(kind, now))] else log
  }

  function FireAll(log: seq<Firing>, tid: string, c: Config, now: Instant): seq<Firing> {
    FireOne(FireOne(FireOne(FireOne(log, tid, c, now, Daily), tid, c, now, Overdue), tid, c, now, Weekend),
            tid, c, now, Weekly)
  }

  function TickLog(log: seq<Firing>, tenants: seq<Tenant>, now: Instant): seq<Firing> {
    if tenants == [] then log else
      var l, t := TickLog(log, tenants[..|tenants| - 1], now), tenants[|tenants| - 1];
      if t.active then FireAll(l, t.id, t.config, now) else l
  }

  datatype Tick = Tick(tenants: seq<Tenant>, now: Instant)

  function RunLog(ticks: seq<Tick>): seq<Firing> {
    if ticks == [] then [] else
      var t := ticks[|ticks| - 1];
      TickLog(RunLog(ticks[..|ticks| - 1]), t.tenants, t.now)
  }

  ghost predicate NoRepeats(log: seq<Firing>) {
    forall i, j :: 0 <= i < j < |log| ==> log[i] != log[j]
  }

  predicate DueFor(f: Firing, t: Tenant, now: Instant) {
    t.active && t.id == f.tenant && Due(f.key.kind, t.config, now) && f.key == KeyOf(f.key.kind, now)
  }

  /** `f` is due at some tenant of the tick. */
  ghost predicate DueAt(f: Firing, tenants: seq<Tenant>, now: Instant) {
    exists k :: 0 <= k < |tenants| && DueFor(f, tenants[k], now)
  }

  lemma FireAllFires(log: seq<Firing>, tid: string, c: Config, now: Instant)
    requires NoRepeats(log)
    ensures var l := FireAll(log, tid, c, now);
            && NoRepeats(l) && log <= l
            && forall f :: f in l <==>
                 f in log || (f.tenant == tid && Due(f.key.kind, c, now) && f.key == KeyOf(f.key.kind, now))
  {
    FireOneFires(log, tid, c, now, Daily);
    var a := FireOne(log, tid, c, now, Daily);
    FireOneFires(a, tid, c, now, Overdue);
    var b := FireOne(a, tid, c, now, Overdue);
    FireOneFires(b, tid, c, now, Weekend);
    FireOneFires(FireOne(b, tid, c, now, Weekend), tid, c, now, Weekly);
  }

  lemma FireOneFires(log: seq<Firing>, tid: string, c: Config, now: Instant, kind: Kind)
    requires NoRepeats(log)
    ensures var l := FireOne(log, tid, c, now, kind);
            && NoRepeats(l) && log <= l
            && forall f :: f in l <==> f in log || (f == Firing(tid, KeyOf(kind, now)) && Due(kind, c, now))
  {}

  lemma {:induction false} TickFires(log: seq<Firing>, tenants: seq<Tenant>, now: Instant)
    requires NoRepeats(log)
    ensures var l := TickLog(log, tenants, now);
            NoRepeats(l) && log <= l && forall f :: f in l <==> f in log || DueAt(f, tenants, now)
  {
    if tenants != [] {
      var init, t := tenants[..|tenants| - 1], tenants[|tenants| - 1];
      TickFires(log, init, now);
      FireAllFires(TickLog(log, init, now), t.id, t.config, now);
      forall f ensures DueAt(f, tenants, now) <==> (DueAt(f, init, now) || DueFor(f, t, now)) {
        DueAtLast(f, init, t, now);
        assert tenants == init + [t];
      }
    }
  }

  lemma DueAtLast(f: Firing, init: seq<Tenant>, t: Tenant, now: Instant)
    ensures DueAt(f, init + [t], now) <==> (DueAt(f, init, now) || DueFor(f, t, now))
  {
    var all := init + [t];
    assert all[|init|] == t;
    assert forall k :: 0 <= k < |init| ==> all[k] == init[k];
  }

  /** Over any run each (tenant, kind, day) -- and hour, for overdue alerts -- fires at most once, and fires at all if
      and only if some tick falls into its due minute while the tenant is active. */
  lemma {:induction false} FiresOnceIffDue(ticks: seq<Tick>)
    ensures NoRepeats(RunLog(ticks))
    ensures forall f :: f in RunLog(ticks) <==>
              exists n :: 0 <= n < |ticks| && DueAt(f, ticks[n].tenants, ticks[n].now)
  {
    if ticks != [] {
      var init, t := ticks[..|ticks| - 1], ticks[|ticks| - 1];
      FiresOnceIffDue(init);
      TickFires(RunLog(init), t.tenants, t.now);
      hide DueAt, NoRepeats;
      forall f ensures f in RunLog(ticks) <==>
          exists n :: 0 <= n < |ticks| && DueAt(f, ticks[n].tenants, ticks[n].now)
      {
        assert forall n :: 0 <= n < |init| ==> init[n] == ticks[n];
      }
    }
  }

  /** Ticking again in the same minute adds nothing. */
  lemma TickingAgainAddsNothing(log: seq<Firing>, tenants: seq<Tenant>, now: Instant)
    requires NoRepeats(log)
    ensures TickLog(TickLog(log, tenants, now), tenants, now) == TickLog(log, tenants, now)
  {
    TickFires(log, tenants, now);
    NothingDueIsNew(TickLog(log, tenants, now), tenants, now);
  }

  lemma {:induction false} NothingDueIsNew(log: seq<Firing>, tenants: seq<Tenant>, now: Instant)
    requires forall f :: DueAt(f, tenants, now) ==> f in log
    ensures TickLog(log, tenants, now) == log
  {
    if tenants != [] {
      var init, t := tenants[..|tenants| - 1], tenants[|tenants| - 1];
      assert tenants == init + [t];
      forall f ensures DueAt(f, init, now) ==> f in log {
        DueAtLast(f, init, t, now);
      }
      NothingDueIsNew(log, init, now);
      forall kind | t.active && Due(kind, t.config, now) ensures Firing(t.id, KeyOf(kind, now)) in log {
        DueAtLast(Firing(t.id, KeyOf(kind, now)), init, t, now);
      }
    }
  }

  // ----- the scheduler with a one-slot memory -----

  predicate KeyBefore(a: Key, b: Key) { a.day < b.day || (a.day == b.day && a.hour <= b.hour) }

  predicate NotAfter(a: Instant, b: Instant) {
    a.day < b.day || (a.day == b.day && (a.hour < b.hour || (a.hour == b.hour && a.minute <= b.minute)))
  }

  type Slots = map<string, map<Kind, Key>>

  predicate Holds(slots: Slots, tid: string, kind: Kind, key: Key) {
    tid in slots && kind in slots[tid] && slots[tid][kind] == key
  }

  /** The slot of a tenant and kind holds the latest key fired for it, which lies not in the future. */
  ghost predicate SlotTells(slots: Slots, log: seq<Firing>, clock: Instant, tid: string, kind: Kind) {
    (forall key :: Firing(tid, key) in log && key.kind == kind ==>
       && tid in slots && kind in slots[tid]
       && KeyBefore(key, slots[tid][kind]))
    && (tid in slots && kind in slots[tid] ==>
          && slots[tid][kind].kind == kind
          && Firing(tid, slots[tid][kind]) in log
          && KeyBefore(slots[tid][kind], KeyOf(kind, clock)))
  }

  ghost predicate AllSlotsTell(slots: Slots, log: seq<Firing>, clock: Instant) {
    forall tid, kind :: SlotTells(slots, log, clock, tid, kind)
  }

  /** The slot knows whether the key of this moment has been fired: an older one would have been overwritten, and a
      newer one is impossible. */
  lemma SlotDecides(slots: Slots, log: seq<Firing>, clock: Instant, tid: string, kind: Kind)
    requires SlotTells(slots, log, clock, tid, kind)
    ensures Holds(slots, tid, kind, KeyOf(kind, clock)) <==> Firing(tid, KeyOf(kind, clock)) in log
  {}

  lemma AllSlotsTellLater(slots: Slots, log: seq<Firing>, clock: Instant, now: Instant)
    requires AllSlotsTell(slots, log, clock) && NotAfter(clock, now)
    ensures AllSlotsTell(slots, log, now)
  {
    forall tid, kind ensures SlotTells(slots, log, now, tid, kind) {
      assert SlotTells(slots, log, clock, tid, kind);
    }
  }

  lemma AllSlotsTellFired(slots: Slots, log: seq<Firing>, now: Instant, tid: string, kind: Kind)
    requires AllSlotsTell(slots, log, now) && tid in slots
    ensures AllSlotsTell(slots[tid := slots[tid][kind := KeyOf(kind, now)]], log + [Firing(tid, KeyOf(kind, now))], now)
  {
    var slots' := slots[tid := slots[tid][kind := KeyOf(kind, now)]];
    var log' := log + [Firing(tid, KeyOf(kind, now))];
    forall tid', kind' ensures SlotTells(slots', log', now, tid', kind') {
      assert SlotTells(slots, log, now, tid', kind');
    }
  }

  lemma AllSlotsTellOpened(slots: Slots, log: seq<Firing>, now: Instant, tid: string)
    requires AllSlotsTell(slots, log, now) && tid !in slots
    ensures AllSlotsTell(slots[tid := map[]], log, now)
  {
    var slots' := slots[tid := map[]];
    forall tid', kind' ensures SlotTells(slots', log, now, tid', kind') {
      assert SlotTells(slots, log, now, tid', kind');
    }
  }

  lemma MessagesAppend(log: seq<Firing>, f: Firing)
    ensures Messages(log + [f]) == Messages(log) + [MessageOf(f)]
  {
    assert (log + [f])[..|log|] == log;
  }

  class TenantScheduler {
    var lastCheck: Slots
    var enqueued: seq<Message>    // what went into the task queue

    ghost var log: seq<Firing>    // everything ever fired
    ghost var clock: Instant

    ghost predicate Valid()
      reads this
    {
      AllSlotsTell(lastCheck, log, clock) && enqueued == Messages(log)
    }

    constructor (ghost start: Instant)
      ensures Valid() && log == [] && clock == start && enqueued == []
    {
      lastCheck, enqueued, log, clock := map[], [], [], start;
    }

    /** One kind of job: fires exactly when the scheduler that never forgets would. */
    method CheckKind(tid: string, c: Config, now: Instant, kind: Kind, due: bool) returns (fired: int)
      requires Valid() && clock == now && tid in lastCheck && due == Due(kind, c, now)
      modifies this`lastCheck, this`enqueued, this`log
      ensures Valid() && tid in lastCheck
      ensures log == FireOne(old(log), tid, c, now, kind) && fired == |log| - |old(log)|
    {
      fired := 0;
      if due {
        var checkKey := KeyOf(kind, now);
        assert SlotTells(lastCheck, log, now, tid, kind);
        SlotDecides(lastCheck, log, now, tid, kind);
        if !(kind in lastCheck[tid] && lastCheck[tid][kind] == checkKey) {
          AllSlotsTellFired(lastCheck, log, now, tid, kind);
          MessagesAppend(log, Firing(tid, checkKey));
          hide AllSlotsTell, SlotTells, Messages;
          lastCheck := lastCheck[tid := lastCheck[tid][kind := checkKey]];
          enqueued := enqueued + [MessageOf(Firing(tid, checkKey))];
          log := log + [Firing(tid, checkKey)];
          fired := 1;
        }
      }
    }

    method CheckTenant(tenant: Tenant, now: Instant) returns (count: int)
      requires Valid() && clock == now
      modifies this`lastCheck, this`enqueued, this`log
      ensures Valid()
      ensures log == FireAll(old(log), tenant.id, tenant.config, now) && count == |log| - |old(log)|
    {
      var c, tid := tenant.config, tenant.id;
      if tid !in lastCheck {
        AllSlotsTellOpened(lastCheck, log, now, tid);
        lastCheck := lastCheck[tid := map[]];
      }
      hide AllSlotsTell, FireOne, Messages;
      var daily := CheckKind(tid, c, now, Daily,
                             c.digestTime == At(now.hour, now.minute) && Weekday(now.day) in c.digestDays);
      var overdue := CheckKind(tid, c, now, Overdue,
                               c.overdueEnabled && c.overdueInterval > 0 && now.hour % c.overdueInterval == 0
                               && now.minute == 0);
      var weekend := CheckKind(tid, c, now, Weekend,
                               c.weekendEnabled && Weekday(now.day) == FRIDAY && now.hour == 17 && now.minute == 0);
      var weekly := CheckKind(tid, c, now, Weekly,
                              c.reviewEnabled && Weekday(now.day) == SUNDAY && now.hour == 20 && now.minute == 0);
      count := daily + overdue + weekend + weekly;
    }

    /** For nondecreasing times the one-slot memory enqueues exactly the jobs of the complete memory, and the result
        is their number. */
    method DoTick(tenants: seq<Tenant>, now: Instant) returns (count: int)
      requires Valid() && NotAfter(clock, now)
      modifies this
      ensures Valid() && clock == now
      ensures log == TickLog(old(log), tenants, now) && enqueued == Messages(log)
      ensures count == |enqueued| - |old(enqueued)|
    {
      AllSlotsTellLater(lastCheck, log, clock, now);
      clock := now;
      count := 0;
      hide AllSlotsTell, FireAll, Messages;
      for n := 0 to |tenants|
        invariant Valid() && clock == now
        invariant log == TickLog(old(log), tenants[..n], now)
        invariant count == |log| - |old(log)|
      {
        assert tenants[..n + 1][..n] == tenants[..n];
        if !tenants[n].active {
          continue;
        }
        var fired := CheckTenant(tenants[n], now);
        count := count + fired;
      }
      assert tenants[..|tenants|] == tenants;
    }
  }
}
