/** What repeated synchronisation passes guarantee, over any run in which any writes may fail or lose their replies. */
module NotionConvergence {
  import opened NotionTable
  import opened NotionSync

  /** An id the database stores as it is. */
  ghost predicate GoodId(id: string) { id != "" && Clean(id, ID_LENGTH) }

  ghost predicate GoodTasks(tasks: seq<Task>) {
    DistinctTasks(tasks) && forall i :: 0 <= i < |tasks| ==> GoodId(tasks[i].id)
  }

  const ALL_DONE: string -> Reply := (id: string) => Done

  /** The writes a pass reports never exceed its tasks. */
  lemma {:induction false} ReportsAreBounded(items: seq<Item>, tasks: seq<Task>, reply: string -> Reply)
    ensures Reported(items, tasks, reply, false) + Reported(items, tasks, reply, true) <= |tasks|
  {
    if tasks != [] {
      ReportsAreBounded(items, tasks[..|tasks| - 1], reply);
    }
  }

  // ----- any run keeps at most one page per id -----

  lemma GoodIdSurvives(task: Task, section: bool, page: nat)
    requires GoodId(task.id)
    ensures StoredId(Item(page, TaskToProperties(task, section))) == task.id
  {
    EmittedId(task, section, page);
    SanitizeCleans(task.id, ID_LENGTH);
  }

  lemma MergeTakesId(item: Item, props: Props)
    requires TodoistId in props
    ensures StoredId(Merge(item, props)) == StoredId(Item(item.page, props))
  {}

  /** Updating a page never changes the id it holds. */
  lemma SyncedKeepsId(items: seq<Item>, tasks: seq<Task>, section: bool, stale: set<string>, reply: string -> Reply,
                      i: nat)
    requires i < |items| && GoodTasks(tasks)
    ensures StoredId(Synced(items, tasks, section, stale, reply, i)) == StoredId(items[i])
    ensures StoredId(items[i]) == "" ==> Synced(items, tasks, section, stale, reply, i) == items[i]
  {
    hide TaskToProperties;
    var id := StoredId(items[i]);
    var k := Find(tasks, id);
    if k >= 0 {
      GoodIdSurvives(tasks[k], section, items[i].page);
      EmittedId(tasks[k], section, items[i].page);
      MergeTakesId(items[i], TaskToProperties(tasks[k], section));
    }
  }

  /** The pages hold different good ids, all of them among `ids` and none known to the table. */
  ghost predicate NewlyNamed(added: seq<Item>, items: seq<Item>, ids: set<string>) {
    && UniqueIds(added)
    && (forall k :: 0 <= k < |added| ==>
          StoredId(added[k]) in ids && GoodId(StoredId(added[k])) && !Known(items, StoredId(added[k])))
  }

  lemma NewlyNamedGrows(added: seq<Item>, items: seq<Item>, ids: set<string>, id: string, more: seq<Item>)
    requires NewlyNamed(added, items, ids) && id !in ids
    requires more == [] || (|more| == 1 && StoredId(more[0]) == id && GoodId(id) && !Known(items, id))
    ensures NewlyNamed(added + more, items, ids + {id})
  {
    hide StoredId, Known, GoodId;
  }

  /** The pages a pass adds hold different ids, all of them active and unknown before. */
  lemma {:induction false} NewIds(items: seq<Item>, tasks: seq<Task>, section: bool, reply: string -> Reply, next: nat)
    requires GoodTasks(tasks)
    ensures NewlyNamed(NewItems(items, tasks, section, reply, next), items, Ids(tasks))
  {
    if tasks != [] {
      var init, t := tasks[..|tasks| - 1], tasks[|tasks| - 1];
      var added := NewItems(items, init, section, reply, next);
      LastTaskIsNew(tasks);
      hide *;
      assert tasks == init + [t];
      NewIds(items, init, section, reply, next);
      IdsOneMore(init, t);
      NewItemsOneMore(items, init, t, section, reply, next);
      NewItemIsNamed(items, t, section, reply, next + |added|);
      NewlyNamedGrows(added, items, Ids(init), t.id, NewItem(items, t, section, reply, next + |added|));
    }
  }

  lemma NewItemIsNamed(items: seq<Item>, t: Task, section: bool, reply: string -> Reply, page: nat)
    requires GoodId(t.id)
    ensures var more := NewItem(items, t, section, reply, page);
            more == [] || (|more| == 1 && StoredId(more[0]) == t.id && !Known(items, t.id))
  {
    GoodIdSurvives(t, section, page);
  }

  lemma LastTaskIsNew(tasks: seq<Task>)
    requires GoodTasks(tasks) && tasks != []
    ensures var init, t := tasks[..|tasks| - 1], tasks[|tasks| - 1];
            GoodTasks(init) && GoodId(t.id) && t.id !in Ids(init)
  {
    hide GoodId;
    assert forall k :: 0 <= k < |tasks| - 1 ==> tasks[..|tasks| - 1][k] == tasks[k];
  }

  /** A pass keeps at most one page per id, whatever fails. */
  lemma PassKeepsIdsUnique(items: seq<Item>, tasks: seq<Task>, section: bool, markStale: bool, reply: string -> Reply,
                           next: nat)
    requires UniqueIds(items) && GoodTasks(tasks)
    ensures UniqueIds(Pass(items, tasks, section, markStale, reply, next))
  {
    var stale := if markStale then StaleIds(items, tasks) else {};
    var mapped := SyncedAll(items, tasks, section, stale, reply);
    var added := NewItems(items, tasks, section, reply, next);
    NewIds(items, tasks, section, reply, next);
    hide StoredId, Known, GoodId, NewItems, StaleIds, Synced;
    forall i | 0 <= i < |mapped| ensures StoredId(mapped[i]) == StoredId(items[i]) {
      SyncedKeepsId(items, tasks, section, stale, reply, i);
    }
    forall i, k | 0 <= i < |mapped| && 0 <= k < |added| && StoredId(mapped[i]) != ""
      ensures StoredId(mapped[i]) != StoredId(added[k])
    {
      StoredIsKnown(items, i);
    }
    UniqueAppend(mapped, added);
  }

  lemma UniqueAppend(a: seq<Item>, b: seq<Item>)
    requires UniqueIds(a) && UniqueIds(b)
    requires forall i, k :: 0 <= i < |a| && 0 <= k < |b| && StoredId(a[i]) != "" ==> StoredId(a[i]) != StoredId(b[k])
    ensures UniqueIds(a + b)
  {
    hide StoredId;
  }

  lemma StoredIsKnown(items: seq<Item>, i: nat)
    requires i < |items| && StoredId(items[i]) != ""
    ensures Known(items, StoredId(items[i]))
    ensures UniqueIds(items) ==> LastWith(items, StoredId(items[i])) == i
  {
    hide StoredId;
    LastWithFinds(items, StoredId(items[i]));
  }

  /** Pages without an id are the user's: no pass touches them. */
  lemma PassLeavesIdlessAlone(items: seq<Item>, tasks: seq<Task>, section: bool, markStale: bool,
                              reply: string -> Reply, next: nat, i: nat)
    requires GoodTasks(tasks) && i < |items| && StoredId(items[i]) == ""
    ensures Pass(items, tasks, section, markStale, reply, next)[i] == items[i]
  {
    SyncedKeepsId(items, tasks, section, if markStale then StaleIds(items, tasks) else {}, reply, i);
  }

  // ----- a clean pass makes the table mirror the tasks, and then nothing changes -----

  predicate Holds(item: Item, props: Props) {
    forall p :: p in props ==> p in item.props && item.props[p] == props[p]
  }

  /** Every task has its page, holding all that is written for it; every other id's page is done if asked for. */
  ghost predicate Mirrors(items: seq<Item>, tasks: seq<Task>, section: bool, markStale: bool) {
    && (forall k :: 0 <= k < |tasks| ==>
          && Known(items, tasks[k].id)
          && Holds(items[LastWith(items, tasks[k].id)], TaskToProperties(tasks[k], section)))
    && (markStale ==> forall id :: id in StaleIds(items, tasks) ==>
          Known(items, id) && Holds(items[LastWith(items, id)], DONE_PROPS))
  }

  /** When the table mirrors the tasks, a clean pass changes nothing and creates nothing. */
  lemma MirroringIsStable(items: seq<Item>, tasks: seq<Task>, section: bool, markStale: bool, next: nat)
    requires Mirrors(items, tasks, section, markStale)
    ensures Pass(items, tasks, section, markStale, ALL_DONE, next) == items
    ensures Reported(items, tasks, ALL_DONE, false) == 0 && Reported(items, tasks, ALL_DONE, true) == |tasks|
  {
    hide TaskToProperties;
    var stale := if markStale then StaleIds(items, tasks) else {};
    forall i | 0 <= i < |items| ensures Synced(items, tasks, section, stale, ALL_DONE, i) == items[i] {
      var id := StoredId(items[i]);
      if Find(tasks, id) >= 0 {
        MergeOfHeld(items[i], TaskToProperties(tasks[Find(tasks, id)], section));
      }
      MergeOfHeld(items[i], DONE_PROPS);
    }
    AllKnown(items, tasks, section, ALL_DONE, next);
  }

  lemma MergeOfHeld(item: Item, props: Props)
    ensures Holds(item, props) ==> Merge(item, props) == item
    ensures Holds(Merge(item, props), props)
  {
    if Holds(item, props) {
      assert item.props + props == item.props;
    }
  }

  lemma {:induction false} AllKnown(items: seq<Item>, tasks: seq<Task>, section: bool, reply: string -> Reply,
                                    next: nat)
    requires forall k :: 0 <= k < |tasks| ==> Known(items, tasks[k].id)
    ensures NewItems(items, tasks, section, reply, next) == [] && Reported(items, tasks, reply, false) == 0
    ensures reply == ALL_DONE ==> Reported(items, tasks, reply, true) == |tasks|
  {
    hide Known;
    if tasks != [] {
      AllKnown(items, tasks[..|tasks| - 1], section, reply, next);
    }
  }

  /** Whatever the table looked like, after a clean pass it mirrors the tasks. */
  lemma CleanPassMirrors(items: seq<Item>, tasks: seq<Task>, section: bool, markStale: bool, next: nat)
    requires UniqueIds(items) && GoodTasks(tasks)
    ensures Mirrors(Pass(items, tasks, section, markStale, ALL_DONE, next), tasks, section, markStale)
  {
    var after := Pass(items, tasks, section, markStale, ALL_DONE, next);
    PassKeepsIdsUnique(items, tasks, section, markStale, ALL_DONE, next);
    forall k | 0 <= k < |tasks|
      ensures Known(after, tasks[k].id)
      ensures Holds(after[LastWith(after, tasks[k].id)], TaskToProperties(tasks[k], section))
    {
      var i := TaskHasPage(items, tasks, section, markStale, next, k);
      StoredIsKnown(after, i);
    }
    if markStale {
      forall id | id in StaleIds(after, tasks)
        ensures Known(after, id) && Holds(after[LastWith(after, id)], DONE_PROPS)
      {
        var i := StalePageIsDone(items, tasks, section, next, id);
        StoredIsKnown(after, i);
      }
    }
  }

  /** The page of a task after a clean pass is its old page, updated, or a new one. */
  lemma TaskPage(items: seq<Item>, tasks: seq<Task>, section: bool, markStale: bool, next: nat, k: nat)
    returns (i: nat)
    requires GoodTasks(tasks) && k < |tasks|
    ensures var after, id := Pass(items, tasks, section, markStale, ALL_DONE, next), tasks[k].id;
            var props := TaskToProperties(tasks[k], section);
            && i < |after| && StoredId(after[i]) == id && id != ""
            && (if Known(items, id) then after[i] == Merge(items[LastWith(items, id)], props)
                else after[i].props == props)
  {
    hide TaskToProperties, StoredId, NewItems, StaleIds;
    var stale := if markStale then StaleIds(items, tasks) else {};
    FindsAt(tasks, k);
    if Known(items, tasks[k].id) {
      i := LastWith(items, tasks[k].id);
      SyncedKeepsId(items, tasks, section, stale, ALL_DONE, i);
    } else {
      var j := NewItemFor(items, tasks, section, next, k);
      i := |items| + j;
      var item := NewItems(items, tasks, section, ALL_DONE, next)[j];
      assert item == Item(item.page, TaskToProperties(tasks[k], section));
      GoodIdSurvives(tasks[k], section, item.page);
    }
  }

  lemma TaskHasPage(items: seq<Item>, tasks: seq<Task>, section: bool, markStale: bool, next: nat, k: nat)
    returns (i: nat)
    requires GoodTasks(tasks) && k < |tasks|
    ensures var after := Pass(items, tasks, section, markStale, ALL_DONE, next);
            i < |after| && StoredId(after[i]) == tasks[k].id && Holds(after[i], TaskToProperties(tasks[k], section))
  {
    i := TaskPage(items, tasks, section, markStale, next, k);
    hide TaskToProperties, Pass, StoredId, GoodTasks;
    if Known(items, tasks[k].id) {
      MergeOfHeld(items[LastWith(items, tasks[k].id)], TaskToProperties(tasks[k], section));
    }
  }

  lemma {:induction false} FindsAt(tasks: seq<Task>, k: nat)
    requires DistinctTasks(tasks) && k < |tasks|
    ensures Find(tasks, tasks[k].id) == k
  {
    if k < |tasks| - 1 {
      FindsAt(tasks[..|tasks| - 1], k);
    }
  }

  lemma {:induction false} NewItemFor(items: seq<Item>, tasks: seq<Task>, section: bool, next: nat, k: nat)
    returns (j: nat)
    requires k < |tasks| && !Known(items, tasks[k].id)
    ensures var added := NewItems(items, tasks, section, ALL_DONE, next);
            j < |added| && added[j].props == TaskToProperties(tasks[k], section)
  {
    hide TaskToProperties, Known;
    if k == |tasks| - 1 {
      j := |NewItems(items, tasks[..|tasks| - 1], section, ALL_DONE, next)|;
    } else {
      j := NewItemFor(items, tasks[..|tasks| - 1], section, next, k);
    }
  }

  /** The page of an inactive id after a clean pass that marks stale pages. */
  lemma StalePageIsDone(items: seq<Item>, tasks: seq<Task>, section: bool, next: nat, id: string) returns (i: nat)
    requires UniqueIds(items) && GoodTasks(tasks)
    requires id in StaleIds(Pass(items, tasks, section, true, ALL_DONE, next), tasks)
    ensures var after := Pass(items, tasks, section, true, ALL_DONE, next);
            i < |after| && StoredId(after[i]) == id && id != "" && Holds(after[i], DONE_PROPS)
  {
    hide TaskToProperties, StoredId, Holds;
    var after := Pass(items, tasks, section, true, ALL_DONE, next);
    i :| 0 <= i < |after| && StoredId(after[i]) == id;
    NewIds(items, tasks, section, ALL_DONE, next);
    FindsActive(tasks);
    forall j | |items| <= j < |after| ensures Find(tasks, StoredId(after[j])) >= 0 {
      assert after[j] == NewItems(items, tasks, section, ALL_DONE, next)[j - |items|];
    }
    if i < |items| {
      SyncedKeepsId(items, tasks, section, StaleIds(items, tasks), ALL_DONE, i);
      StoredIsKnown(items, i);
      KnownIdsAreStored(items, tasks);
      MergeOfHeld(items[i], DONE_PROPS);
    }
  }

  // ----- over whole runs -----

  /** One pass of a run: what it was asked to write and what became of the writes. */
  datatype Step = Step(tasks: seq<Task>, section: bool, markStale: bool, reply: string -> Reply, next: nat)

  function Run(items: seq<Item>, steps: seq<Step>): seq<Item> {
    if steps == [] then items else
      var s := steps[|steps| - 1];
      Pass(Run(items, steps[..|steps| - 1]), s.tasks, s.section, s.markStale, s.reply, s.next)
  }

  ghost predicate GoodSteps(steps: seq<Step>) {
    forall k :: 0 <= k < |steps| ==> GoodTasks(steps[k].tasks)
  }

  lemma {:induction false} RunKeepsIdsUnique(items: seq<Item>, steps: seq<Step>)
    requires UniqueIds(items) && GoodSteps(steps)
    ensures UniqueIds(Run(items, steps))
  {
    if steps != [] {
      var s := steps[|steps| - 1];
      RunKeepsIdsUnique(items, steps[..|steps| - 1]);
      PassKeepsIdsUnique(Run(items, steps[..|steps| - 1]), s.tasks, s.section, s.markStale, s.reply, s.next);
    }
  }

  /** After any run, however much of it failed, one clean pass makes the table mirror the tasks, and a second one
      creates nothing and changes nothing. */
  lemma RunConverges(items: seq<Item>, steps: seq<Step>, tasks: seq<Task>, section: bool, markStale: bool,
                     next: nat, next': nat)
    requires UniqueIds(items) && GoodSteps(steps) && GoodTasks(tasks)
    ensures var first := Pass(Run(items, steps), tasks, section, markStale, ALL_DONE, next);
            && UniqueIds(first) && Mirrors(first, tasks, section, markStale)
            && Pass(first, tasks, section, markStale, ALL_DONE, next') == first
            && Reported(first, tasks, ALL_DONE, false) == 0
  {
    var before := Run(items, steps);
    RunKeepsIdsUnique(items, steps);
    PassKeepsIdsUnique(before, tasks, section, markStale, ALL_DONE, next);
    CleanPassMirrors(before, tasks, section, markStale, next);
    MirroringIsStable(Pass(before, tasks, section, markStale, ALL_DONE, next), tasks, section, markStale, next');
  }

  // ----- where the mirror is not exact, and which ids never settle -----

  /** An update replaces only the properties it sends: the page is an exact mirror afterwards if and only if it held
      no property the task does not have. */
  lemma ExactMirrorIff(item: Item, props: Props)
    ensures Merge(item, props).props == props <==> item.props.Keys <= props.Keys
  {
    assert Merge(item, props).props.Keys == item.props.Keys + props.Keys;
    if item.props.Keys <= props.Keys {
      assert item.props + props == props;
    }
  }

  /** After a clean pass the page of a task has exactly the properties emitted for it if and only if the page is new, or
      held no property before that the task does not have. */
  lemma PageIsExactIff(items: seq<Item>, tasks: seq<Task>, section: bool, markStale: bool, next: nat, k: nat)
    requires UniqueIds(items) && GoodTasks(tasks) && k < |tasks|
    ensures var after, id := Pass(items, tasks, section, markStale, ALL_DONE, next), tasks[k].id;
            var props := TaskToProperties(tasks[k], section);
            && Known(after, id)
            && (after[LastWith(after, id)].props == props
                <==> !Known(items, id) || items[LastWith(items, id)].props.Keys <= props.Keys)
  {
    hide TaskToProperties, StoredId, NewItems, StaleIds, GoodId;
    var after, id := Pass(items, tasks, section, markStale, ALL_DONE, next), tasks[k].id;
    var props := TaskToProperties(tasks[k], section);
    PassKeepsIdsUnique(items, tasks, section, markStale, ALL_DONE, next);
    FindsAt(tasks, k);
    var i := TaskPage(items, tasks, section, markStale, next, k);
    StoredIsKnown(after, i);
    if Known(items, id) {
      ExactMirrorIff(items[LastWith(items, id)], props);
    }
  }

  /** For instance a due date that is removed in Todoist stays in Notion for good. */
  lemma RemovedDueDateStays(task: Task, date: string, page: nat, section: bool)
    requires date != ""
    ensures var dated := task.(dueDate := date, dueDatetime := "");
            var undated := task.(dueDate := "");
            var item := Merge(Item(page, TaskToProperties(dated, section)), TaskToProperties(undated, section));
            DueDate in item.props && item.props[DueDate] == Date(date)
  {
    var dated, undated := task.(dueDate := date, dueDatetime := ""), task.(dueDate := "");
    EmitsDate(dated, section);
    EmitsDate(undated, section);
    hide TaskToProperties;
  }

  lemma EmitsDate(task: Task, section: bool)
    ensures DueDate in TaskToProperties(task, section) <==> task.dueDate != ""
    ensures task.dueDate != "" && task.dueDatetime == "" ==>
              TaskToProperties(task, section)[DueDate] == Date(task.dueDate)
  {}

  function Unsettled(tasks: seq<Task>): nat {
    if tasks == [] then 0 else
      var id := tasks[|tasks| - 1].id;
      Unsettled(tasks[..|tasks| - 1]) + (if id != "" && Sanitize(id, ID_LENGTH) == id then 0 else 1)
  }

  /** After a clean pass the table knows a task's id if and only if it is a good one. */
  lemma KnownAfterwardsIffGood(items: seq<Item>, tasks: seq<Task>, section: bool, markStale: bool, next: nat, k: nat)
    requires UniqueIds(items) && DistinctTasks(tasks) && k < |tasks|
    ensures Known(Pass(items, tasks, section, markStale, ALL_DONE, next), tasks[k].id) <==> GoodId(tasks[k].id)
  {
    hide TaskToProperties, Holds, StoredId, StaleIds;
    var after := Pass(items, tasks, section, markStale, ALL_DONE, next);
    var stale := if markStale then StaleIds(items, tasks) else {};
    var id := tasks[k].id;
    FindsAt(tasks, k);
    if GoodId(id) {
      var i := TaskIsWritten(items, tasks, section, markStale, next, k);
      GoodIdSurvives(tasks[k], section, after[i].page);
      LastWithFinds(after, id);
    } else if id != "" {
      forall i | 0 <= i < |after| ensures StoredId(after[i]) != id {
        if i < |items| {
          SyncedIdIsOtherOrClean(items, tasks, section, stale, i, k);
        } else {
          var j := i - |items|;
          assert after[i] == NewItems(items, tasks, section, ALL_DONE, next)[j];
          NewItemsAreClean(items, tasks, section, next, j);
        }
      }
      LastWithFinds(after, id);
    }
  }

  lemma TaskIsWritten(items: seq<Item>, tasks: seq<Task>, section: bool, markStale: bool, next: nat, k: nat)
    returns (i: nat)
    requires DistinctTasks(tasks) && k < |tasks| && GoodId(tasks[k].id)
    ensures var after := Pass(items, tasks, section, markStale, ALL_DONE, next);
            i < |after| && StoredId(after[i]) == tasks[k].id
  {
    hide TaskToProperties, NewItems, StaleIds, StoredId, Sanitize, Clean, Merge;
    FindsAt(tasks, k);
    var props := TaskToProperties(tasks[k], section);
    EmittedId(tasks[k], section, 0);
    if Known(items, tasks[k].id) {
      i := LastWith(items, tasks[k].id);
      MergeTakesId(items[i], props);
      GoodIdSurvives(tasks[k], section, items[i].page);
    } else {
      var j := NewItemFor(items, tasks, section, next, k);
      var item := NewItems(items, tasks, section, ALL_DONE, next)[j];
      assert item == Item(item.page, props);
      GoodIdSurvives(tasks[k], section, item.page);
      i := |items| + j;
    }
  }

  lemma SyncedIdIsOtherOrClean(items: seq<Item>, tasks: seq<Task>, section: bool, stale: set<string>, i: nat, k: nat)
    requires UniqueIds(items) && DistinctTasks(tasks) && i < |items| && k < |tasks|
    requires tasks[k].id != "" && !Clean(tasks[k].id, ID_LENGTH)
    ensures StoredId(Synced(items, tasks, section, stale, ALL_DONE, i)) != tasks[k].id
  {
    hide TaskToProperties;
    FindsAt(tasks, k);
    var id := StoredId(items[i]);
    if id != "" {
      StoredIsKnown(items, i);
    }
    var f := Find(tasks, id);
    if f >= 0 {
      EmittedId(tasks[f], section, items[i].page);
      MergeTakesId(items[i], TaskToProperties(tasks[f], section));
      SanitizeCleans(tasks[f].id, ID_LENGTH);
    }
  }

  lemma {:induction false} NewItemsAreClean(items: seq<Item>, tasks: seq<Task>, section: bool, next: nat, j: nat)
    requires j < |NewItems(items, tasks, section, ALL_DONE, next)|
    ensures Clean(StoredId(NewItems(items, tasks, section, ALL_DONE, next)[j]), ID_LENGTH)
  {
    hide TaskToProperties, Known, StoredId;
    var init, t := tasks[..|tasks| - 1], tasks[|tasks| - 1];
    if j < |NewItems(items, init, section, ALL_DONE, next)| {
      NewItemsAreClean(items, init, section, next, j);
    } else {
      EmittedId(t, section, next + |NewItems(items, init, section, ALL_DONE, next)|);
      SanitizeCleans(t.id, ID_LENGTH);
    }
  }

  /** A second clean pass creates exactly one more page for every task whose id is empty or does not survive
      sanitising; so it creates none if and only if all ids are good. */
  lemma SecondPassCreatesTheUnsettled(items: seq<Item>, tasks: seq<Task>, section: bool, markStale: bool, next: nat)
    requires UniqueIds(items) && DistinctTasks(tasks)
    ensures Reported(Pass(items, tasks, section, markStale, ALL_DONE, next), tasks, ALL_DONE, false) == Unsettled(tasks)
    ensures Unsettled(tasks) == 0 <==> AllGood(tasks)
  {
    var after := Pass(items, tasks, section, markStale, ALL_DONE, next);
    forall k | 0 <= k < |tasks| ensures Known(after, tasks[k].id) <==> GoodId(tasks[k].id) {
      KnownAfterwardsIffGood(items, tasks, section, markStale, next, k);
    }
    CountsUnknown(after, tasks);
    SettledIffGood(tasks);
  }

  lemma {:induction false} CountsUnknown(after: seq<Item>, tasks: seq<Task>)
    requires forall k :: 0 <= k < |tasks| ==> (Known(after, tasks[k].id) <==> GoodId(tasks[k].id))
    ensures Reported(after, tasks, ALL_DONE, false) == Unsettled(tasks)
  {
    hide Known, Clean;
    if tasks != [] {
      CountsUnknown(after, tasks[..|tasks| - 1]);
      SanitizeCleans(tasks[|tasks| - 1].id, ID_LENGTH);
    }
  }

  ghost predicate AllGood(tasks: seq<Task>) {
    forall k :: 0 <= k < |tasks| ==> GoodId(tasks[k].id)
  }

  lemma AllGoodAppend(tasks: seq<Task>, t: Task)
    ensures AllGood(tasks + [t]) <==> AllGood(tasks) && GoodId(t.id)
  {
    hide GoodId;
    assert (tasks + [t])[|tasks|] == t;
    assert forall k :: 0 <= k < |tasks| ==> (tasks + [t])[k] == tasks[k];
  }

  lemma {:induction false} SettledIffGood(tasks: seq<Task>)
    ensures Unsettled(tasks) == 0 <==> AllGood(tasks)
  {
    if tasks != [] {
      var init, t := tasks[..|tasks| - 1], tasks[|tasks| - 1];
      SettledIffGood(init);
      SanitizeCleans(t.id, ID_LENGTH);
      AllGoodAppend(init, t);
      hide AllGood, Sanitize;
      assert tasks == init + [t];
    }
  }
}
