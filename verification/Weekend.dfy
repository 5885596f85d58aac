/** The weekend planner's greedy allocation, `build_weekend_digest` of src/brain/planner.py, without its texts. */
module Weekend {
  import opened Days
  import opened Options
  import opened Ranking
  import opened Slices

  datatype Slot = Saturday | Sunday | Overflow

  datatype Plan = Plan(saturday: seq<Scored>, sunday: seq<Scored>, overflow: seq<Scored>)

  /** A calendar event: the day it starts on, if it has a start, and its minutes. */
  datatype Event = Event(day: Option<int>, minutes: int)

  // ----- what an allocation is -----

  /** The tasks put into a slot: `slots[i]` is the slot of `tasks[i]`. */
  function Placed(tasks: seq<Scored>, slots: seq<Slot>, slot: Slot): seq<Scored>
    requires |slots| <= |tasks|
  {
    if slots == [] then [] else
      var n := |slots| - 1;
      Placed(tasks, slots[..n], slot) + (if slots[n] == slot then [tasks[n]] else [])
  }

  function Load(tasks: seq<Scored>, settings: Settings): int {
    if tasks == [] then 0
    else Load(tasks[..|tasks| - 1], settings) + Minutes(tasks[|tasks| - 1].task, settings)
  }

  /** The minutes a slot is filled with. */
  function Used(tasks: seq<Scored>, slots: seq<Slot>, slot: Slot, settings: Settings): int
    requires |slots| <= |tasks|
  {
    Load(Placed(tasks, slots, slot), settings)
  }

  /** How many tasks are on one of the days. */
  function OnDays(slots: seq<Slot>): nat {
    if slots == [] then 0
    else OnDays(slots[..|slots| - 1]) + (if slots[|slots| - 1] != Overflow then 1 else 0)
  }

  /** The slot is right for a task, given whether it fits each day: a day that fits if there is one, Saturday first for
      focus tasks and Sunday first for others. */
  predicate Right(slot: Slot, focus: bool, fitsSaturday: bool, fitsSunday: bool) {
    && (slot == Overflow <==> !fitsSaturday && !fitsSunday)
    && (slot == Saturday ==> fitsSaturday && (focus || !fitsSunday))
    && (slot == Sunday ==> fitsSunday && (!focus || !fitsSaturday))
  }

  /** Every task got the right slot, given where the tasks before it went. */
  predicate Greedy(tasks: seq<Scored>, slots: seq<Slot>, settings: Settings, saturdayFree: int, sundayFree: int)
    requires |slots| <= |tasks|
  {
    slots == [] ||
    (var n := |slots| - 1;
     var before, dur := slots[..n], Minutes(tasks[n].task, settings);
     && Greedy(tasks, before, settings, saturdayFree, sundayFree)
     && Right(slots[n], settings.focusLabel in tasks[n].task.labels,
              Used(tasks, before, Saturday, settings) + dur <= saturdayFree,
              Used(tasks, before, Sunday, settings) + dur <= sundayFree))
  }

  lemma OneMoreSlot(tasks: seq<Scored>, slots: seq<Slot>, slot: Slot, settings: Settings)
    requires |slots| < |tasks|
    ensures var grown := slots + [slot];
            && (forall x :: Placed(tasks, grown, x)
                         == Placed(tasks, slots, x) + (if x == slot then [tasks[|slots|]] else []))
            && (forall x :: Used(tasks, grown, x, settings)
                         == Used(tasks, slots, x, settings)
                            + (if x == slot then Minutes(tasks[|slots|].task, settings) else 0))
            && OnDays(grown) == OnDays(slots) + (if slot != Overflow then 1 else 0)
  {
    var grown := slots + [slot];
    assert grown[..|slots|] == slots;
    forall x ensures Used(tasks, grown, x, settings)
                  == Used(tasks, slots, x, settings)
                     + (if x == slot then Minutes(tasks[|slots|].task, settings) else 0)
    {
      var kept := Placed(tasks, slots, x);
      assert (kept + [tasks[|slots|]])[..|kept|] == kept;
      assert kept + [] == kept;
    }
  }

  lemma GreedyGrows(tasks: seq<Scored>, slots: seq<Slot>, slot: Slot, settings: Settings, saturdayFree: int,
                    sundayFree: int)
    requires |slots| < |tasks| && Greedy(tasks, slots, settings, saturdayFree, sundayFree)
    requires var task := tasks[|slots|].task;
             Right(slot, settings.focusLabel in task.labels,
                   Used(tasks, slots, Saturday, settings) + Minutes(task, settings) <= saturdayFree,
                   Used(tasks, slots, Sunday, settings) + Minutes(task, settings) <= sundayFree)
    ensures Greedy(tasks, slots + [slot], settings, saturdayFree, sundayFree)
  {
    assert (slots + [slot])[..|slots|] == slots;
  }

  // ----- the algorithm -----

  function PlanOf(tasks: seq<Scored>, slots: seq<Slot>): Plan
    requires |slots| <= |tasks|
  {
    Plan(Placed(tasks, slots, Saturday), Placed(tasks, slots, Sunday), Placed(tasks, slots, Overflow))
  }

  /** Tasks are dealt with until the limit is reached, and no further. */
  predicate Stops(tasks: seq<Scored>, slots: seq<Slot>, limit: int) {
    && (|slots| < |tasks| ==> slots != [] && OnDays(slots) >= limit)
    && (|slots| > 1 ==> OnDays(slots[..|slots| - 1]) < limit)
  }

  /** The plan puts tasks into slots greedily and stops where it should. */
  ghost predicate IsAllocation(plan: Plan, tasks: seq<Scored>, settings: Settings, saturdayFree: int, sundayFree: int) {
    exists slots ::
      && |slots| <= |tasks|
      && Greedy(tasks, slots, settings, saturdayFree, sundayFree)
      && Stops(tasks, slots, settings.taskLimit)
      && plan == PlanOf(tasks, slots)
  }

  /** The allocation loop over the tasks considered. */
  method Allocate(tasks: seq<Scored>, settings: Settings, saturdayFree: int, sundayFree: int) returns (plan: Plan)
    ensures IsAllocation(plan, tasks, settings, saturdayFree, sundayFree)
  {
    var sat: seq<Scored>, sun: seq<Scored>, over: seq<Scored> := [], [], [];
    var satUsed, sunUsed := 0, 0;
    ghost var slots: seq<Slot> := [];
    hide Greedy, Right, Placed, Used, OnDays, Load;
    StartEmpty(tasks, settings, saturdayFree, sundayFree);
    for n := 0 to |tasks|
      invariant |slots| == n && Greedy(tasks, slots, settings, saturdayFree, sundayFree)
      invariant sat == Placed(tasks, slots, Saturday) && satUsed == Used(tasks, slots, Saturday, settings)
      invariant sun == Placed(tasks, slots, Sunday) && sunUsed == Used(tasks, slots, Sunday, settings)
      invariant over == Placed(tasks, slots, Overflow) && OnDays(slots) == |sat| + |sun|
      invariant n > 0 ==> OnDays(slots) < settings.taskLimit
      invariant n > 1 ==> OnDays(slots[..n - 1]) < settings.taskLimit
    {
      var s := tasks[n];
      var dur := Minutes(s.task, settings);
      var preferSat := settings.focusLabel in s.task.labels;
      var placed := false;
      ghost var slot := Overflow;
      if preferSat && satUsed + dur <= saturdayFree {
        sat, satUsed, placed, slot := sat + [s], satUsed + dur, true, Saturday;
      } else if sunUsed + dur <= sundayFree {
        sun, sunUsed, placed, slot := sun + [s], sunUsed + dur, true, Sunday;
      } else if satUsed + dur <= saturdayFree {
        sat, satUsed, placed, slot := sat + [s], satUsed + dur, true, Saturday;
      }
      if !placed {
        over := over + [s];
      }
      OneMoreSlot(tasks, slots, slot, settings);
      RightSlot(slot, preferSat, Used(tasks, slots, Saturday, settings) + dur <= saturdayFree,
                Used(tasks, slots, Sunday, settings) + dur <= sundayFree);
      GreedyGrows(tasks, slots, slot, settings, saturdayFree, sundayFree);
      assert (slots + [slot])[..n] == slots;
      slots := slots + [slot];
      if |sat| + |sun| >= settings.taskLimit {
        break;
      }
    }
    plan := Plan(sat, sun, over);
    assert Stops(tasks, slots, settings.taskLimit);
  }

  lemma StartEmpty(tasks: seq<Scored>, settings: Settings, saturdayFree: int, sundayFree: int)
    ensures Greedy(tasks, [], settings, saturdayFree, sundayFree) && OnDays([]) == 0
    ensures forall x :: Placed(tasks, [], x) == [] && Used(tasks, [], x, settings) == 0
  {}

  /** The branches of the loop choose the right slot. */
  lemma RightSlot(slot: Slot, focus: bool, fitsSaturday: bool, fitsSunday: bool)
    requires slot == if focus && fitsSaturday then Saturday else if fitsSunday then Sunday
                     else if fitsSaturday then Saturday else Overflow
    ensures Right(slot, focus, fitsSaturday, fitsSunday)
  {}

  // ----- what a greedy allocation guarantees -----

  /** Being greedy leaves no choice. */
  lemma {:induction false} GreedyIsUnique(tasks: seq<Scored>, a: seq<Slot>, b: seq<Slot>, settings: Settings,
                                          saturdayFree: int, sundayFree: int)
    requires |a| == |b| <= |tasks|
    requires Greedy(tasks, a, settings, saturdayFree, sundayFree)
    requires Greedy(tasks, b, settings, saturdayFree, sundayFree)
    ensures a == b
  {
    hide Used, Minutes;
    if a != [] {
      var n := |a| - 1;
      GreedyIsUnique(tasks, a[..n], b[..n], settings, saturdayFree, sundayFree);
      assert a == a[..n] + [a[n]] && b == b[..n] + [b[n]];
    }
  }

  lemma UsesNothing(tasks: seq<Scored>, settings: Settings)
    ensures forall x :: Used(tasks, [], x, settings) == 0
  {}

  lemma {:induction false} GreedyPrefix(tasks: seq<Scored>, slots: seq<Slot>, n: nat, settings: Settings,
                                        saturdayFree: int, sundayFree: int)
    requires n <= |slots| <= |tasks| && Greedy(tasks, slots, settings, saturdayFree, sundayFree)
    ensures Greedy(tasks, slots[..n], settings, saturdayFree, sundayFree)
    ensures OnDays(slots[..n]) <= OnDays(slots)
  {
    hide Used, Minutes, Right;
    if n == |slots| {
      assert slots[..n] == slots;
    } else {
      GreedyPrefix(tasks, slots[..|slots| - 1], n, settings, saturdayFree, sundayFree);
      assert slots[..|slots| - 1][..n] == slots[..n];
    }
  }

  /** Two greedy choices that stop where they should are the same. */
  lemma SlotsAreUnique(tasks: seq<Scored>, a: seq<Slot>, b: seq<Slot>, settings: Settings, saturdayFree: int,
                       sundayFree: int)
    requires |a| <= |b| <= |tasks|
    requires Greedy(tasks, a, settings, saturdayFree, sundayFree)
    requires Greedy(tasks, b, settings, saturdayFree, sundayFree)
    requires Stops(tasks, a, settings.taskLimit) && Stops(tasks, b, settings.taskLimit)
    ensures a == b
  {
    GreedyPrefix(tasks, b, |a|, settings, saturdayFree, sundayFree);
    GreedyIsUnique(tasks, a, b[..|a|], settings, saturdayFree, sundayFree);
    assert |a| == |b| ==> b[..|a|] == b;
    EarlierIsBelow(tasks, b, |a|, settings, saturdayFree, sundayFree);
    hide Greedy;
  }

  /** Before it stops, an allocation is below the limit. */
  lemma EarlierIsBelow(tasks: seq<Scored>, slots: seq<Slot>, m: nat, settings: Settings, saturdayFree: int,
                       sundayFree: int)
    requires m <= |slots| <= |tasks| && Greedy(tasks, slots, settings, saturdayFree, sundayFree)
    requires Stops(tasks, slots, settings.taskLimit)
    ensures 0 < m < |slots| ==> OnDays(slots[..m]) < settings.taskLimit
  {
    if 0 < m < |slots| {
      var n := |slots| - 1;
      GreedyPrefix(tasks, slots, n, settings, saturdayFree, sundayFree);
      GreedyPrefix(tasks, slots[..n], m, settings, saturdayFree, sundayFree);
      assert slots[..n][..m] == slots[..m];
    }
  }

  /** So the plan is determined by the tasks and the free minutes. */
  lemma AllocationIsUnique(plan: Plan, other: Plan, tasks: seq<Scored>, settings: Settings, saturdayFree: int,
                           sundayFree: int)
    requires IsAllocation(plan, tasks, settings, saturdayFree, sundayFree)
    requires IsAllocation(other, tasks, settings, saturdayFree, sundayFree)
    ensures plan == other
  {
    var a :| |a| <= |tasks| && Greedy(tasks, a, settings, saturdayFree, sundayFree)
             && Stops(tasks, a, settings.taskLimit) && plan == PlanOf(tasks, a);
    var b :| |b| <= |tasks| && Greedy(tasks, b, settings, saturdayFree, sundayFree)
             && Stops(tasks, b, settings.taskLimit) && other == PlanOf(tasks, b);
    hide Greedy, Stops, PlanOf;
    if |a| <= |b| {
      SlotsAreUnique(tasks, a, b, settings, saturdayFree, sundayFree);
    } else {
      SlotsAreUnique(tasks, b, a, settings, saturdayFree, sundayFree);
    }
  }

  /** No day is filled beyond its free minutes. */
  lemma {:induction false} DaysHold(tasks: seq<Scored>, slots: seq<Slot>, settings: Settings, saturdayFree: int,
                                    sundayFree: int)
    requires |slots| <= |tasks| && Greedy(tasks, slots, settings, saturdayFree, sundayFree)
    requires saturdayFree >= 0 && sundayFree >= 0
    ensures Used(tasks, slots, Saturday, settings) <= saturdayFree && Used(tasks, slots, Sunday, settings) <= sundayFree
  {
    UsesNothing(tasks, settings);
    hide Placed, Load, Used, Minutes, OnDays;
    if slots != [] {
      var n := |slots| - 1;
      DaysHold(tasks, slots[..n], settings, saturdayFree, sundayFree);
      OneMoreSlot(tasks, slots[..n], slots[n], settings);
      assert slots[..n] + [slots[n]] == slots;
    }
  }

  ghost predicate NoNegativeMinutes(tasks: seq<Scored>, settings: Settings) {
    forall i :: 0 <= i < |tasks| ==> Minutes(tasks[i].task, settings) >= 0
  }

  /** No overflow task fits what is left of either day in the end. */
  lemma {:induction false} NothingMoreFits(tasks: seq<Scored>, slots: seq<Slot>, settings: Settings, saturdayFree: int,
                                           sundayFree: int, i: nat)
    requires |slots| <= |tasks| && Greedy(tasks, slots, settings, saturdayFree, sundayFree)
    requires NoNegativeMinutes(tasks, settings) && i < |slots| && slots[i] == Overflow
    ensures Used(tasks, slots, Saturday, settings) + Minutes(tasks[i].task, settings) > saturdayFree
    ensures Used(tasks, slots, Sunday, settings) + Minutes(tasks[i].task, settings) > sundayFree
  {
    hide Placed, Load, Used, Minutes, OnDays;
    var n := |slots| - 1;
    OneMoreSlot(tasks, slots[..n], slots[n], settings);
    assert slots[..n] + [slots[n]] == slots;
    if i < n {
      assert Minutes(tasks[n].task, settings) >= 0;
      NothingMoreFits(tasks, slots[..n], settings, saturdayFree, sundayFree, i);
    }
  }

  /** At most `taskLimit` tasks are placed; the loop's check after the fact lets one through when the limit is not
      positive. */
  lemma LimitHolds(slots: seq<Slot>, limit: int)
    requires |slots| > 1 ==> OnDays(slots[..|slots| - 1]) < limit
    ensures OnDays(slots) <= if limit >= 1 then limit else 1
  {
    if |slots| == 1 {
      assert OnDays(slots[..0]) == 0;
    }
  }

  /** How often `s` is put into a slot. */
  function Times(tasks: seq<Scored>, slots: seq<Slot>, slot: Slot, s: Scored): nat
    requires |slots| <= |tasks|
  {
    multiset(Placed(tasks, slots, slot))[s]
  }

  lemma Occurrences<T>(a: seq<T>, last: T, s: T)
    ensures multiset(a + [last])[s] == multiset(a)[s] + (if last == s then 1 else 0)
  {}

  lemma TimesStep(tasks: seq<Scored>, slots: seq<Slot>, slot: Slot, s: Scored)
    requires 0 < |slots| <= |tasks|
    ensures var n := |slots| - 1;
            Times(tasks, slots, slot, s)
            == Times(tasks, slots[..n], slot, s) + (if slots[n] == slot && tasks[n] == s then 1 else 0)
  {
    var n := |slots| - 1;
    var before := Placed(tasks, slots[..n], slot);
    assert before + [] == before;
    assert Placed(tasks, slots, slot) == before + (if slots[n] == slot then [tasks[n]] else []);
    hide Placed;
    Occurrences(before, tasks[n], s);
  }

  function TimesDealt(tasks: seq<Scored>, n: nat, s: Scored): nat
    requires n <= |tasks|
  {
    multiset(tasks[..n])[s]
  }

  lemma DealtStep(tasks: seq<Scored>, n: nat, s: Scored)
    requires n < |tasks|
    ensures TimesDealt(tasks, n + 1, s) == TimesDealt(tasks, n, s) + (if tasks[n] == s then 1 else 0)
  {
    Occurrences(tasks[..n], tasks[n], s);
    assert tasks[..n + 1] == tasks[..n] + [tasks[n]];
  }

  lemma {:induction false} EachShared(tasks: seq<Scored>, slots: seq<Slot>, s: Scored)
    requires |slots| <= |tasks|
    ensures Times(tasks, slots, Saturday, s) + Times(tasks, slots, Sunday, s) + Times(tasks, slots, Overflow, s)
         == TimesDealt(tasks, |slots|, s)
  {
    if slots == [] {
      NothingDealt(tasks, s);
      hide Times, TimesDealt;
    } else {
      hide Times, TimesDealt;
      var n := |slots| - 1;
      EachShared(tasks, slots[..n], s);
      TimesStep(tasks, slots, Saturday, s);
      TimesStep(tasks, slots, Sunday, s);
      TimesStep(tasks, slots, Overflow, s);
      DealtStep(tasks, n, s);
    }
  }

  lemma NothingDealt(tasks: seq<Scored>, s: Scored)
    ensures TimesDealt(tasks, 0, s) == 0 && forall x :: Times(tasks, [], x, s) == 0
  {
    assert tasks[..0] == [];
  }

  /** Saturday, Sunday and the overflow share out the tasks dealt with, each task once. */
  lemma SharedOut(tasks: seq<Scored>, slots: seq<Slot>)
    requires |slots| <= |tasks|
    ensures multiset(Placed(tasks, slots, Saturday)) + multiset(Placed(tasks, slots, Sunday))
            + multiset(Placed(tasks, slots, Overflow))
         == multiset(tasks[..|slots|])
  {
    hide Placed;
    forall s ensures (multiset(Placed(tasks, slots, Saturday)) + multiset(Placed(tasks, slots, Sunday))
                      + multiset(Placed(tasks, slots, Overflow)))[s]
                  == multiset(tasks[..|slots|])[s]
    {
      EachShared(tasks, slots, s);
    }
  }

  /** The three lists interleave to the whole: each is a subsequence, and together they are all of it, once. */
  predicate Interleave<T(==)>(a: seq<T>, b: seq<T>, c: seq<T>, whole: seq<T>) {
    if whole == [] then a == [] && b == [] && c == []
    else
      var n, last := |whole| - 1, whole[|whole| - 1];
      || (a != [] && a[|a| - 1] == last && Interleave(a[..|a| - 1], b, c, whole[..n]))
      || (b != [] && b[|b| - 1] == last && Interleave(a, b[..|b| - 1], c, whole[..n]))
      || (c != [] && c[|c| - 1] == last && Interleave(a, b, c[..|c| - 1], whole[..n]))
  }

  /** Saturday, Sunday and the overflow interleave to the tasks dealt with, a first part of the ranking. */
  lemma {:induction false} SlotsInterleave(tasks: seq<Scored>, slots: seq<Slot>)
    requires |slots| <= |tasks|
    ensures Interleave(Placed(tasks, slots, Saturday), Placed(tasks, slots, Sunday), Placed(tasks, slots, Overflow),
                       tasks[..|slots|])
  {
    if slots != [] {
      var n := |slots| - 1;
      SlotsInterleave(tasks, slots[..n]);
      assert tasks[..n + 1][..n] == tasks[..n];
      PlacedGrows(tasks, slots, Saturday);
      PlacedGrows(tasks, slots, Sunday);
      PlacedGrows(tasks, slots, Overflow);
      hide Placed;
    }
  }

  lemma PlacedGrows(tasks: seq<Scored>, slots: seq<Slot>, slot: Slot)
    requires 0 < |slots| <= |tasks|
    ensures var n := |slots| - 1;
            var now, before := Placed(tasks, slots, slot), Placed(tasks, slots[..n], slot);
            if slots[n] == slot then now != [] && now[..|now| - 1] == before && now[|now| - 1] == tasks[n]
            else now == before
  {
    var before := Placed(tasks, slots[..|slots| - 1], slot);
    assert before + [] == before;
  }

  lemma {:induction false} DaysCount(tasks: seq<Scored>, slots: seq<Slot>)
    requires |slots| <= |tasks|
    ensures |Placed(tasks, slots, Saturday)| + |Placed(tasks, slots, Sunday)| == OnDays(slots)
  {
    if slots != [] {
      DaysCount(tasks, slots[..|slots| - 1]);
    }
  }

  /** Every slot keeps the order of the ranking. */
  lemma {:induction false} SlotsKeepOrder(tasks: seq<Scored>, slots: seq<Slot>, slot: Slot, lower: string -> string,
                                          i: nat, j: nat)
    requires |slots| <= |tasks| && InOrder(tasks, lower) && i < j < |Placed(tasks, slots, slot)|
    ensures Precedes(Placed(tasks, slots, slot)[i], Placed(tasks, slots, slot)[j], lower)
  {
    hide Precedes, InOrder;
    var n := |slots| - 1;
    var before := Placed(tasks, slots[..n], slot);
    if j < |before| {
      SlotsKeepOrder(tasks, slots[..n], slot, lower, i, j);
    } else {
      var k := PlacedComesFrom(tasks, slots[..n], slot, i);
      AnyTwoInOrder(tasks, lower, k, n);
    }
  }

  lemma {:induction false} PlacedComesFrom(tasks: seq<Scored>, slots: seq<Slot>, slot: Slot, i: nat) returns (k: nat)
    requires |slots| <= |tasks| && i < |Placed(tasks, slots, slot)|
    ensures k < |slots| && slots[k] == slot && tasks[k] == Placed(tasks, slots, slot)[i]
  {
    var n := |slots| - 1;
    if i < |Placed(tasks, slots[..n], slot)| {
      k := PlacedComesFrom(tasks, slots[..n], slot, i);
    } else {
      k := n;
    }
  }

  // ----- the weekend -----

  function UpcomingSaturday(today: int): int { today + (5 - Weekday(today)) % 7 }

  /** It is the first Saturday from today on. */
  lemma FirstSaturday(today: int, day: int)
    ensures Weekday(UpcomingSaturday(today)) == 5 && today <= UpcomingSaturday(today)
    ensures today <= day < UpcomingSaturday(today) ==> Weekday(day) != 5
  {}

  function Booked(events: seq<Event>, day: int): int {
    if events == [] then 0
    else Booked(events[1..], day) + (if events[0].day == Some(day) then events[0].minutes else 0)
  }

  /** What the events of a day leave of its capacity. */
  function Free(settings: Settings, events: seq<Event>, day: int): nat {
    var left := settings.capacityHours * 60 - Booked(events, day);
    if left < 0 then 0 else left
  }

  /** The tasks the allocation looks at: the best `2 * taskLimit` of the ranking. */
  function Considered(tasks: seq<Task>, settings: Settings, today: int): seq<Scored> {
    Slice(RankTasks(tasks, settings, today, true), 0, settings.taskLimit * 2)
  }

  method PlanWeekend(tasks: seq<Task>, events: seq<Event>, settings: Settings, today: int) returns (plan: Plan)
    ensures var saturday := UpcomingSaturday(today);
            IsAllocation(plan, Considered(tasks, settings, today), settings, Free(settings, events, saturday),
                         Free(settings, events, saturday + 1))
  {
    var saturday := UpcomingSaturday(today);
    hide *;
    plan := Allocate(Considered(tasks, settings, today), settings, Free(settings, events, saturday),
                     Free(settings, events, saturday + 1));
  }

  /** The tasks considered come from those given and are in the order of the ranking. */
  lemma ConsideredAreRanked(tasks: seq<Task>, settings: Settings, today: int)
    ensures multiset(Considered(tasks, settings, today)) <= multiset(ScoreAll(tasks, settings, today, true))
    ensures InOrder(Considered(tasks, settings, today), settings.lower)
  {
    var considered := Considered(tasks, settings, today);
    var scored := ScoreAll(tasks, settings, today, true);
    var ranked := Sort(scored, settings.lower);
    SortSorts(scored, settings.lower, Key(0, 0, 0, ""));
    FrontIsPrefix(ranked, settings.taskLimit * 2);
    hide ScoreAll, Sort, InOrder, Slice;
    assert ranked == considered + ranked[|considered|..];
    FrontInOrder(considered, ranked[|considered|..], settings.lower);
  }

  /** An allocation of ranked tasks interleaves to a first part of them, keeps within the free minutes of
      both days and within the limit, and lists every part in the order of the ranking. */
  lemma PlanIsSound(plan: Plan, tasks: seq<Scored>, settings: Settings, saturdayFree: nat, sundayFree: nat)
    requires IsAllocation(plan, tasks, settings, saturdayFree, sundayFree) && InOrder(tasks, settings.lower)
    ensures Load(plan.saturday, settings) <= saturdayFree && Load(plan.sunday, settings) <= sundayFree
    ensures |plan.saturday| + |plan.sunday| <= if settings.taskLimit >= 1 then settings.taskLimit else 1
    ensures exists n | 0 <= n <= |tasks| ::
              && Interleave(plan.saturday, plan.sunday, plan.overflow, tasks[..n])
              && multiset(plan.saturday) + multiset(plan.sunday) + multiset(plan.overflow) == multiset(tasks[..n])
    ensures IndexedInOrder(plan.saturday, settings.lower) && IndexedInOrder(plan.sunday, settings.lower)
    ensures IndexedInOrder(plan.overflow, settings.lower)
  {
    var slots :| |slots| <= |tasks| && Greedy(tasks, slots, settings, saturdayFree, sundayFree)
                 && Stops(tasks, slots, settings.taskLimit) && plan == PlanOf(tasks, slots);
    hide Greedy, InOrder, Placed, Load, OnDays, IndexedInOrder, Interleave;
    DaysHold(tasks, slots, settings, saturdayFree, sundayFree);
    LimitHolds(slots, settings.taskLimit);
    DaysCount(tasks, slots);
    SharedOut(tasks, slots);
    SlotsInterleave(tasks, slots);
    AllInOrder(tasks, slots, settings.lower);
  }

  /** No overflow task of an allocation fits what is left of either day, if no task takes negative time. */
  lemma OverflowDoesNotFit(plan: Plan, tasks: seq<Scored>, settings: Settings, saturdayFree: int, sundayFree: int,
                           i: nat)
    requires IsAllocation(plan, tasks, settings, saturdayFree, sundayFree) && NoNegativeMinutes(tasks, settings)
    requires i < |plan.overflow|
    ensures Load(plan.saturday, settings) + Minutes(plan.overflow[i].task, settings) > saturdayFree
    ensures Load(plan.sunday, settings) + Minutes(plan.overflow[i].task, settings) > sundayFree
  {
    var slots :| |slots| <= |tasks| && Greedy(tasks, slots, settings, saturdayFree, sundayFree)
                 && Stops(tasks, slots, settings.taskLimit) && plan == PlanOf(tasks, slots);
    hide Greedy, Placed, Load, Minutes;
    var k := PlacedComesFrom(tasks, slots, Overflow, i);
    NothingMoreFits(tasks, slots, settings, saturdayFree, sundayFree, k);
  }

  ghost predicate IndexedInOrder(ranked: seq<Scored>, lower: string -> string) {
    forall i, j :: 0 <= i < j < |ranked| ==> Precedes(ranked[i], ranked[j], lower)
  }

  lemma AllInOrder(tasks: seq<Scored>, slots: seq<Slot>, lower: string -> string)
    requires |slots| <= |tasks| && InOrder(tasks, lower)
    ensures forall x :: IndexedInOrder(Placed(tasks, slots, x), lower)
  {
    hide Placed, Precedes, InOrder;
    forall x, i, j | 0 <= i < j < |Placed(tasks, slots, x)|
      ensures Precedes(Placed(tasks, slots, x)[i], Placed(tasks, slots, x)[j], lower)
    {
      SlotsKeepOrder(tasks, slots, x, lower, i, j);
    }
  }

  lemma {:induction false} FrontInOrder(front: seq<Scored>, back: seq<Scored>, lower: string -> string)
    requires InOrder(front + back, lower)
    ensures InOrder(front, lower)
  {
    hide Precedes;
    if front != [] {
      assert (front + back)[1..] == front[1..] + back;
      FrontInOrder(front[1..], back, lower);
    }
  }
}
