/** Scoring and ranking of tasks, `score_task` and `rank_tasks` of src/brain/planner.py.  Days are day numbers. */
module Ranking {
  import opened Options
  import opened Texts

  datatype Task = Task(content: string, section: string, priority: int, labels: seq<string>, due: Option<int>,
                       duration: Option<int>)

  /** The settings the planner reads; `lower` is `str.lower`. */
  datatype Settings = Settings(focusLabel: string, weekendLabel: string, defaultDuration: int, capacityHours: int,
                               taskLimit: int, lower: string -> string)

  datatype Scored = Scored(task: Task, score: int)

  /** The day number of `date.max`. */
  const LAST_DAY: int := 3_652_059

  // ----- scoring -----

  function DuePoints(due: Option<int>, today: int): int {
    match due
    case None => 0
    case Some(day) =>
      if day < today then (if today - day < 7 then today - day else 7) * 20
      else if day == today then 25
      else if day - today == 1 then 16
      else if day - today == 2 then 8
      else if day - today == 3 then 4
      else 0
  }

  function PriorityPoints(priority: int): int {
    if priority == 4 then 18 else if priority == 3 then 10 else if priority == 2 then 4 else 0
  }

  /** Minutes a task takes; a duration of 0 counts as none. */
  function Minutes(t: Task, settings: Settings): int {
    if t.duration.Some? && t.duration.value != 0 then t.duration.value else settings.defaultDuration
  }

  function DurationPoints(minutes: int): int {
    if minutes <= 30 then 4 else if minutes >= 120 then -6 else 0
  }

  function SectionPoints(section: string, priority: int): int {
    if Contains(section, "urgent") || Contains(section, "today") then 12
    else if Contains(section, "doing") then 10
    else if Contains(section, "high") then 6
    else if Contains(section, "blocked") then -20
    else if Contains(section, "rejected") then -30
    else if Contains(section, "backlog") then if priority >= 3 then 5 else -2
    else 0
  }

  function Score(t: Task, settings: Settings, today: int, weekend: bool): int {
    DuePoints(t.due, today)
    + PriorityPoints(t.priority)
    + (if settings.focusLabel in t.labels then 14 else 0)
    + (if weekend && settings.weekendLabel in t.labels then 10 else 0)
    + DurationPoints(Minutes(t, settings))
    + (if t.due.None? && settings.focusLabel !in t.labels then -4 else 0)
    + SectionPoints(settings.lower(t.section), t.priority)
  }

  /** Of two tasks that differ only in their due days the earlier one scores at least as high, except when it is overdue
      by one day and the other is due today: being due today weighs more than being one day late. */
  lemma EarlierScoresHigherIff(t: Task, settings: Settings, today: int, weekend: bool, early: int, late: int)
    requires early < late
    ensures (Score(t.(due := Some(early)), settings, today, weekend)
             >= Score(t.(due := Some(late)), settings, today, weekend))
       <==> !(early == today - 1 && late == today)
  {
    hide SectionPoints, PriorityPoints, DurationPoints;
    assert Minutes(t.(due := Some(early)), settings) == Minutes(t.(due := Some(late)), settings);
    assert DuePoints(Some(early), today) >= DuePoints(Some(late), today) <==> !(early == today - 1 && late == today);
  }

  /** Raising a task's priority raises its score, wherever it stands and whenever it is due. */
  lemma HigherPriorityScoresHigher(t: Task, settings: Settings, today: int, weekend: bool, low: int, high: int)
    requires 1 <= low < high <= 4
    ensures Score(t.(priority := low), settings, today, weekend) < Score(t.(priority := high), settings, today, weekend)
  {
    hide Contains, DuePoints, DurationPoints;
    assert Minutes(t.(priority := low), settings) == Minutes(t.(priority := high), settings);
    assert PriorityPoints(low) < PriorityPoints(high);
    assert SectionPoints(settings.lower(t.section), low) <= SectionPoints(settings.lower(t.section), high);
  }

  // ----- the order -----

  /** The sort key (-score, due or date.max, -priority, lower-case content). */
  datatype Key = Key(score: int, due: int, priority: int, name: string)

  function KeyOf(s: Scored, lower: string -> string): Key {
    Key(-s.score, if s.task.due.Some? then s.task.due.value else LAST_DAY, -s.task.priority, lower(s.task.content))
  }

  /** Lexicographic order of texts by character. */
  predicate TextAtMost(a: string, b: string) {
    a == "" || (b != "" && (a[0] < b[0] || (a[0] == b[0] && TextAtMost(a[1..], b[1..]))))
  }

  /** Lexicographic order of keys. */
  predicate AtMost(a: Key, b: Key) {
    || a.score < b.score
    || (a.score == b.score
        && (|| a.due < b.due
            || (a.due == b.due
                && (a.priority < b.priority || (a.priority == b.priority && TextAtMost(a.name, b.name))))))
  }

  lemma {:induction false} TextOrder(a: string, b: string, c: string)
    ensures TextAtMost(a, a) && (TextAtMost(a, b) || TextAtMost(b, a))
    ensures TextAtMost(a, b) && TextAtMost(b, a) ==> a == b
    ensures TextAtMost(a, b) && TextAtMost(b, c) ==> TextAtMost(a, c)
  {
    if a != "" {
      TextOrder(a[1..], if b == "" then "" else b[1..], if c == "" then "" else c[1..]);
      if b != "" && a[0] == b[0] && a[1..] == b[1..] {
        assert a == [a[0]] + a[1..] && b == [b[0]] + b[1..];
      }
    }
  }

  /** The order of keys is total. */
  lemma KeyOrder(a: Key, b: Key, c: Key)
    ensures AtMost(a, a) && (AtMost(a, b) || AtMost(b, a))
    ensures AtMost(a, b) && AtMost(b, a) ==> a == b
    ensures AtMost(a, b) && AtMost(b, c) ==> AtMost(a, c)
  {
    TextOrder(a.name, b.name, c.name);
    hide TextAtMost;
  }

  // ----- sorting -----

  /** `sort` keeps the order of equal keys: an element goes before those that followed it. */
  function Insert(s: Scored, ranked: seq<Scored>, lower: string -> string): seq<Scored> {
    if ranked == [] || Precedes(s, ranked[0], lower) then [s] + ranked
    else [ranked[0]] + Insert(s, ranked[1..], lower)
  }

  function Sort(scored: seq<Scored>, lower: string -> string): seq<Scored> {
    if scored == [] then [] else Insert(scored[0], Sort(scored[1..], lower), lower)
  }

  /** `rank_tasks`. */
  function RankTasks(tasks: seq<Task>, settings: Settings, today: int, weekend: bool): seq<Scored> {
    Sort(ScoreAll(tasks, settings, today, weekend), settings.lower)
  }

  function ScoreAll(tasks: seq<Task>, settings: Settings, today: int, weekend: bool): seq<Scored> {
    seq(|tasks|, i requires 0 <= i < |tasks| => Scored(tasks[i], Score(tasks[i], settings, today, weekend)))
  }

  predicate Precedes(a: Scored, b: Scored, lower: string -> string) {
    AtMost(KeyOf(a, lower), KeyOf(b, lower))
  }

  ghost predicate PrecedesAll(s: Scored, others: seq<Scored>, lower: string -> string) {
    forall x :: x in others ==> Precedes(s, x, lower)
  }

  ghost predicate InOrder(ranked: seq<Scored>, lower: string -> string) {
    ranked == [] || (PrecedesAll(ranked[0], ranked[1..], lower) && InOrder(ranked[1..], lower))
  }

  /** In other words, any two are in order. */
  lemma {:induction false} AnyTwoInOrder(ranked: seq<Scored>, lower: string -> string, i: nat, j: nat)
    requires InOrder(ranked, lower) && i < j < |ranked|
    ensures Precedes(ranked[i], ranked[j], lower)
  {
    hide Precedes;
    if i == 0 {
      assert ranked[j] in ranked[1..];
    } else {
      AnyTwoInOrder(ranked[1..], lower, i - 1, j - 1);
    }
  }

  /** The elements with a given key, in the order they come. */
  function WithKey(scored: seq<Scored>, k: Key, lower: string -> string): seq<Scored> {
    if scored == [] then []
    else (if KeyOf(scored[0], lower) == k then [scored[0]] else []) + WithKey(scored[1..], k, lower)
  }

  lemma {:induction false} InsertPermutes(s: Scored, ranked: seq<Scored>, lower: string -> string)
    ensures multiset(Insert(s, ranked, lower)) == multiset(ranked) + multiset{s}
    ensures forall x :: x in Insert(s, ranked, lower) ==> x == s || x in ranked
  {
    hide Precedes;
    if ranked != [] && !Precedes(s, ranked[0], lower) {
      InsertPermutes(s, ranked[1..], lower);
      assert ranked == [ranked[0]] + ranked[1..];
    }
  }

  lemma {:induction false} InsertSorts(s: Scored, ranked: seq<Scored>, lower: string -> string)
    requires InOrder(ranked, lower)
    ensures InOrder(Insert(s, ranked, lower), lower)
  {
    if ranked == [] || Precedes(s, ranked[0], lower) {
      forall x | x in ranked ensures Precedes(s, x, lower) {
        FirstIsLeast(ranked, lower, x);
        KeyOrder(KeyOf(s, lower), KeyOf(ranked[0], lower), KeyOf(x, lower));
      }
      hide Precedes;
      assert ([s] + ranked)[1..] == ranked;
    } else {
      var first, rest := ranked[0], ranked[1..];
      KeyOrder(KeyOf(s, lower), KeyOf(first, lower), KeyOf(first, lower));
      assert Precedes(first, s, lower);
      hide Precedes;
      InsertSorts(s, rest, lower);
      InsertPermutes(s, rest, lower);
      assert ([first] + Insert(s, rest, lower))[1..] == Insert(s, rest, lower);
    }
  }

  lemma WithKeyPrepend(first: Scored, rest: seq<Scored>, k: Key, lower: string -> string)
    ensures WithKey([first] + rest, k, lower)
         == (if KeyOf(first, lower) == k then [first] else []) + WithKey(rest, k, lower)
  {
    assert ([first] + rest)[1..] == rest;
  }

  lemma {:induction false} InsertIsStable(s: Scored, ranked: seq<Scored>, lower: string -> string, k: Key)
    ensures WithKey(Insert(s, ranked, lower), k, lower) == WithKey([s] + ranked, k, lower)
  {
    hide AtMost, KeyOf, WithKey;
    if ranked == [] || Precedes(s, ranked[0], lower) {
      assert Insert(s, ranked, lower) == [s] + ranked;
    } else {
      var first, rest := ranked[0], ranked[1..];
      KeyOrder(KeyOf(s, lower), KeyOf(s, lower), KeyOf(s, lower));
      assert KeyOf(s, lower) != KeyOf(first, lower);
      assert Insert(s, ranked, lower) == [first] + Insert(s, rest, lower);
      InsertIsStable(s, rest, lower, k);
      WithKeyPrepend(first, Insert(s, rest, lower), k, lower);
      WithKeyPrepend(s, rest, k, lower);
      WithKeyPrepend(s, ranked, k, lower);
      hide Insert, Precedes;
      assert ranked == [first] + rest;
      WithKeyPrepend(first, rest, k, lower);
    }
  }

  /** Sorting yields a permutation in the order of the keys that keeps the order of equal keys. */
  lemma {:induction false} SortSorts(scored: seq<Scored>, lower: string -> string, k: Key)
    ensures InOrder(Sort(scored, lower), lower) && multiset(Sort(scored, lower)) == multiset(scored)
    ensures WithKey(Sort(scored, lower), k, lower) == WithKey(scored, k, lower)
  {
    if scored != [] {
      var first, rest := scored[0], Sort(scored[1..], lower);
      SortSorts(scored[1..], lower, k);
      InsertSorts(first, rest, lower);
      InsertPermutes(first, rest, lower);
      InsertIsStable(first, rest, lower, k);
      WithKeyPrepend(first, rest, k, lower);
      hide Insert, KeyOf, InOrder;
      assert scored == [first] + scored[1..];
    }
  }

  lemma {:induction false} WithKeyContains(scored: seq<Scored>, i: nat, lower: string -> string)
    requires i < |scored|
    ensures scored[i] in WithKey(scored, KeyOf(scored[i], lower), lower)
  {
    if i > 0 {
      WithKeyContains(scored[1..], i - 1, lower);
    }
  }

  lemma {:induction false} WithKeyComesFrom(scored: seq<Scored>, k: Key, lower: string -> string)
    ensures forall s :: s in WithKey(scored, k, lower) ==> s in scored && KeyOf(s, lower) == k
  {
    hide KeyOf;
    if scored != [] {
      WithKeyComesFrom(scored[1..], k, lower);
    }
  }

  /** In order, nothing has a smaller key than the first. */
  lemma FirstIsLeast(ranked: seq<Scored>, lower: string -> string, s: Scored)
    requires InOrder(ranked, lower) && s in ranked
    ensures Precedes(ranked[0], s, lower)
  {
    KeyOrder(KeyOf(s, lower), KeyOf(s, lower), KeyOf(s, lower));
    assert Precedes(s, s, lower);
    hide Precedes;
    assert ranked == [ranked[0]] + ranked[1..];
  }

  lemma FirstsAgree(a: seq<Scored>, b: seq<Scored>, lower: string -> string)
    requires InOrder(a, lower) && InOrder(b, lower) && a != [] && b != []
    requires forall k :: WithKey(a, k, lower) == WithKey(b, k, lower)
    ensures a[0] == b[0]
  {
    var k, l := KeyOf(a[0], lower), KeyOf(b[0], lower);
    WithKeyContains(a, 0, lower);
    WithKeyComesFrom(b, k, lower);
    FirstIsLeast(b, lower, a[0]);
    WithKeyContains(b, 0, lower);
    WithKeyComesFrom(a, l, lower);
    FirstIsLeast(a, lower, b[0]);
    KeyOrder(k, l, k);
    assert WithKey(a, k, lower)[0] == a[0] && WithKey(b, l, lower)[0] == b[0];
  }

  lemma RestsAgree(a: seq<Scored>, b: seq<Scored>, lower: string -> string, k: Key)
    requires a != [] && b != [] && a[0] == b[0] && WithKey(a, k, lower) == WithKey(b, k, lower)
    ensures WithKey(a[1..], k, lower) == WithKey(b[1..], k, lower)
  {
    hide KeyOf;
    if KeyOf(a[0], lower) == k {
      assert WithKey(a[1..], k, lower) == WithKey(a, k, lower)[1..];
      assert WithKey(b[1..], k, lower) == WithKey(b, k, lower)[1..];
    } else {
      assert WithKey(a[1..], k, lower) == WithKey(a, k, lower);
      assert WithKey(b[1..], k, lower) == WithKey(b, k, lower);
    }
  }

  /** These properties leave no choice: two lists in order that agree for every key are the same. */
  lemma {:induction false} RankingIsUnique(a: seq<Scored>, b: seq<Scored>, lower: string -> string)
    requires InOrder(a, lower) && InOrder(b, lower)
    requires forall k :: WithKey(a, k, lower) == WithKey(b, k, lower)
    ensures a == b
  {
    if a == [] || b == [] {
      if a != [] {
        WithKeyContains(a, 0, lower);
      }
      if b != [] {
        WithKeyContains(b, 0, lower);
      }
    } else {
      FirstsAgree(a, b, lower);
      forall k ensures WithKey(a[1..], k, lower) == WithKey(b[1..], k, lower) {
        RestsAgree(a, b, lower, k);
      }
      hide WithKey, PrecedesAll;
      RankingIsUnique(a[1..], b[1..], lower);
      assert a == [a[0]] + a[1..] && b == [b[0]] + b[1..];
    }
  }

  lemma {:induction false} WithKeyCounts(scored: seq<Scored>, k: Key, lower: string -> string, s: Scored)
    ensures multiset(WithKey(scored, k, lower))[s] == if KeyOf(s, lower) == k then multiset(scored)[s] else 0
  {
    hide KeyOf;
    if scored != [] {
      WithKeyCounts(scored[1..], k, lower, s);
      assert scored == [scored[0]] + scored[1..];
    }
  }

  ghost predicate DistinctKeys(scored: seq<Scored>, lower: string -> string) {
    forall k :: |WithKey(scored, k, lower)| <= 1
  }

  lemma SameWithKey(a: seq<Scored>, b: seq<Scored>, lower: string -> string, k: Key)
    requires multiset(a) == multiset(b) && DistinctKeys(a, lower)
    ensures WithKey(a, k, lower) == WithKey(b, k, lower)
  {
    var p, q := WithKey(a, k, lower), WithKey(b, k, lower);
    hide WithKey;
    SameCounts(a, b, lower, k);
    OneElement(p, q);
  }

  lemma SameCounts(a: seq<Scored>, b: seq<Scored>, lower: string -> string, k: Key)
    requires multiset(a) == multiset(b)
    ensures multiset(WithKey(a, k, lower)) == multiset(WithKey(b, k, lower))
  {
    hide *;
    forall s ensures multiset(WithKey(a, k, lower))[s] == multiset(WithKey(b, k, lower))[s] {
      WithKeyCounts(a, k, lower, s);
      WithKeyCounts(b, k, lower, s);
    }
  }

  lemma OneElement<T>(p: seq<T>, q: seq<T>)
    requires |p| <= 1 && multiset(p) == multiset(q)
    ensures p == q
  {
    assert |p| == |multiset(p)| == |multiset(q)| == |q|;
    if |p| == 1 {
      assert p[0] in multiset(q);
    }
  }

  /** When no two keys are equal the ranking does not depend on the order of the tasks. */
  lemma RankingIgnoresOrder(a: seq<Scored>, b: seq<Scored>, lower: string -> string)
    requires multiset(a) == multiset(b) && DistinctKeys(a, lower)
    ensures Sort(a, lower) == Sort(b, lower)
  {
    var p, q := Sort(a, lower), Sort(b, lower);
    forall k ensures WithKey(p, k, lower) == WithKey(q, k, lower) {
      SortSorts(a, lower, k);
      SortSorts(b, lower, k);
      SameWithKey(a, b, lower, k);
    }
    SortSorts(a, lower, Key(0, 0, 0, ""));
    SortSorts(b, lower, Key(0, 0, 0, ""));
    hide *;
    RankingIsUnique(p, q, lower);
  }
}
