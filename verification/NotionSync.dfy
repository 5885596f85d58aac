/** One pass of `NotionClient.sync_tasks_to_database`, src/brain/notion.py, when any individual write may fail.

    A pass writes each Todoist id at most once, so the environment is a function from ids to replies.  The table
    after a pass is described page by page (`Synced`, `NewItems`); the loops are proved to compute just that. */
module NotionSync {
  import opened NotionTable

  // ----- the table after a pass, page by page -----

  /** The last page holding `id`, -1 if none: with duplicates, the map from ids to pages keeps the last. */
  function LastWith(items: seq<Item>, id: string): (k: int)
    ensures -1 <= k < |items|
    ensures k >= 0 ==> StoredId(items[k]) == id
  {
    if items == [] then -1
    else if StoredId(items[|items| - 1]) == id then |items| - 1
    else LastWith(items[..|items| - 1], id)
  }

  predicate Known(items: seq<Item>, id: string) { id != "" && LastWith(items, id) >= 0 }

  function Find(tasks: seq<Task>, id: string): (k: int)
    ensures -1 <= k < |tasks|
    ensures k >= 0 ==> tasks[k].id == id
  {
    if tasks == [] then -1
    else if tasks[|tasks| - 1].id == id then |tasks| - 1
    else Find(tasks[..|tasks| - 1], id)
  }

  const DONE_PROPS: Props := map[Status := DONE]

  /** Page `i` after the tasks have been written and the ids in `stale` have been marked done. */
  function Synced(items: seq<Item>, tasks: seq<Task>, section: bool, stale: set<string>, reply: string -> Reply,
                  i: nat): (item: Item)
    requires i < |items|
    ensures item.page == items[i].page
  {
    var id := StoredId(items[i]);
    if id == "" || LastWith(items, id) != i || !reply(id).Applied() then items[i]
    else if Find(tasks, id) >= 0 then Merge(items[i], TaskToProperties(tasks[Find(tasks, id)], section))
    else if id in stale then Merge(items[i], DONE_PROPS)
    else items[i]
  }

  function SyncedAll(items: seq<Item>, tasks: seq<Task>, section: bool, stale: set<string>, reply: string -> Reply)
    : (r: seq<Item>)
    ensures |r| == |items|
    ensures forall i :: 0 <= i < |r| ==> r[i] == Synced(items, tasks, section, stale, reply, i)
  {
    seq(|items|, i requires 0 <= i < |items| => Synced(items, tasks, section, stale, reply, i))
  }

  /** The page added for a task, if the table did not know its id. */
  function NewItem(items: seq<Item>, t: Task, section: bool, reply: string -> Reply, page: nat): seq<Item> {
    if !Known(items, t.id) && reply(t.id).Applied() then [Item(page, TaskToProperties(t, section))] else []
  }

  /** The pages added for tasks whose id the table did not know. */
  function NewItems(items: seq<Item>, tasks: seq<Task>, section: bool, reply: string -> Reply, next: nat): seq<Item> {
    if tasks == [] then [] else
      var init := NewItems(items, tasks[..|tasks| - 1], section, reply, next);
      init + NewItem(items, tasks[|tasks| - 1], section, reply, next + |init|)
  }

  /** The writes reported as done, for ids the table knew (updates) or did not know (creations). */
  function Reported(items: seq<Item>, tasks: seq<Task>, reply: string -> Reply, known: bool): nat {
    if tasks == [] then 0 else
      var t := tasks[|tasks| - 1];
      Reported(items, tasks[..|tasks| - 1], reply, known)
      + (if Known(items, t.id) == known && reply(t.id) == Done then 1 else 0)
  }

  function StaleIds(items: seq<Item>, tasks: seq<Task>): set<string> {
    set i | 0 <= i < |items| && StoredId(items[i]) != "" && Find(tasks, StoredId(items[i])) < 0 :: StoredId(items[i])
  }

  /** The table after the tasks have been written and the ids in `stale` have been marked done. */
  function Written(items: seq<Item>, tasks: seq<Task>, section: bool, stale: set<string>, reply: string -> Reply,
                   next: nat): seq<Item>
  {
    SyncedAll(items, tasks, section, stale, reply) + NewItems(items, tasks, section, reply, next)
  }

  function Pass(items: seq<Item>, tasks: seq<Task>, section: bool, markStale: bool, reply: string -> Reply,
                next: nat): seq<Item>
  {
    Written(items, tasks, section, if markStale then StaleIds(items, tasks) else {}, reply, next)
  }

  // ----- the loops compute it -----

  /** Writing one more task changes one page at most: the one holding its id. */
  lemma SyncedOneMore(items: seq<Item>, tasks: seq<Task>, t: Task, section: bool, reply: string -> Reply, i: nat)
    requires i < |items| && DistinctTasks(tasks + [t])
    ensures Synced(items, tasks + [t], section, {}, reply, i)
         == if Known(items, t.id) && reply(t.id).Applied() && i == LastWith(items, t.id)
            then Merge(Synced(items, tasks, section, {}, reply, i), TaskToProperties(t, section))
            else Synced(items, tasks, section, {}, reply, i)
  {
    hide TaskToProperties, Merge;
    NotFoundYet(tasks, t);
    assert (tasks + [t])[..|tasks|] == tasks;
    var id := StoredId(items[i]);
    assert Find(tasks + [t], id) == if id == t.id then |tasks| else Find(tasks, id);
  }

  function MergeIndex(items: seq<Item>, k: int, props: Props): seq<Item> {
    if 0 <= k < |items| then items[k := Merge(items[k], props)] else items
  }

  lemma SyncedAllOneMore(items: seq<Item>, tasks: seq<Task>, t: Task, section: bool, reply: string -> Reply)
    requires DistinctTasks(tasks + [t])
    ensures SyncedAll(items, tasks + [t], section, {}, reply)
         == MergeIndex(SyncedAll(items, tasks, section, {}, reply),
                       if Known(items, t.id) && reply(t.id).Applied() then LastWith(items, t.id) else -1,
                       TaskToProperties(t, section))
  {
    hide TaskToProperties, Merge, LastWith, Synced;
    forall i | 0 <= i < |items|
      ensures Synced(items, tasks + [t], section, {}, reply, i)
           == if Known(items, t.id) && reply(t.id).Applied() && i == LastWith(items, t.id)
              then Merge(Synced(items, tasks, section, {}, reply, i), TaskToProperties(t, section))
              else Synced(items, tasks, section, {}, reply, i)
    {
      SyncedOneMore(items, tasks, t, section, reply, i);
    }
  }

  lemma NewItemsOneMore(items: seq<Item>, tasks: seq<Task>, t: Task, section: bool, reply: string -> Reply, next: nat)
    ensures NewItems(items, tasks + [t], section, reply, next)
         == NewItems(items, tasks, section, reply, next)
            + NewItem(items, t, section, reply, next + |NewItems(items, tasks, section, reply, next)|)
  {
    hide TaskToProperties, Known, NewItem;
    assert (tasks + [t])[..|tasks|] == tasks;
  }

  /** Writing one more task: an update of its page if the table knew the id, a new page otherwise. */
  lemma WriteOneMore(items: seq<Item>, tasks: seq<Task>, t: Task, section: bool, reply: string -> Reply, next: nat)
    requires DistinctPages(items) && (forall i :: 0 <= i < |items| ==> items[i].page < next)
    requires DistinctTasks(tasks + [t])
    ensures var before := Written(items, tasks, section, {}, reply, next);
            var unused := next + |NewItems(items, tasks, section, reply, next)|;
            Written(items, tasks + [t], section, {}, reply, next)
            == if !reply(t.id).Applied() then before
               else if Known(items, t.id)
                    then MergeAt(before, items[LastWith(items, t.id)].page, TaskToProperties(t, section))
                    else before + [Item(unused, TaskToProperties(t, section))]
    ensures |NewItems(items, tasks + [t], section, reply, next)|
         == |NewItems(items, tasks, section, reply, next)|
            + (if !Known(items, t.id) && reply(t.id).Applied() then 1 else 0)
  {
    hide TaskToProperties, LastWith, NewItems, Synced, MergeAt;
    var added := NewItems(items, tasks, section, reply, next);
    var mapped := SyncedAll(items, tasks, section, {}, reply);
    SyncedAllOneMore(items, tasks, t, section, reply);
    NewItemsOneMore(items, tasks, t, section, reply, next);
    if Known(items, t.id) && reply(t.id).Applied() {
      NewPagesAreNew(items, tasks, section, reply, next);
      MergesOnePage(items, mapped, added, LastWith(items, t.id), TaskToProperties(t, section), next);
    }
  }

  /** Merging at the page of index `k` touches that index alone, as pages are distinct and later ones are newer. */
  lemma MergesOnePage(items: seq<Item>, mapped: seq<Item>, added: seq<Item>, k: nat, props: Props, next: nat)
    requires DistinctPages(items) && (forall i :: 0 <= i < |items| ==> items[i].page < next)
    requires |mapped| == |items| && k < |items|
    requires forall i :: 0 <= i < |mapped| ==> mapped[i].page == items[i].page
    requires PagesFrom(added, next)
    ensures MergeAt(mapped + added, items[k].page, props) == MergeIndex(mapped, k, props) + added
  {
    hide Merge;
    var l, r := MergeAt(mapped + added, items[k].page, props), MergeIndex(mapped, k, props) + added;
    forall i | 0 <= i < |l| ensures l[i] == r[i] {
      if i < |items| {
        assert i != k ==> items[i].page != items[k].page;
      } else {
        assert r[i] == added[i - |items|];
      }
    }
  }

  lemma NotFoundYet(tasks: seq<Task>, t: Task)
    requires DistinctTasks(tasks + [t])
    ensures Find(tasks, t.id) == -1
  {
    forall k | 0 <= k < |tasks| ensures tasks[k].id != t.id {
      assert (tasks + [t])[k] == tasks[k] && (tasks + [t])[|tasks|] == t;
    }
  }

  ghost predicate PagesFrom(items: seq<Item>, next: nat) {
    forall k :: 0 <= k < |items| ==> items[k].page == next + k
  }

  lemma {:induction false} NewPagesAreNew(items: seq<Item>, tasks: seq<Task>, section: bool, reply: string -> Reply,
                                          next: nat)
    ensures PagesFrom(NewItems(items, tasks, section, reply, next), next)
  {
    if tasks != [] {
      hide TaskToProperties;
      NewPagesAreNew(items, tasks[..|tasks| - 1], section, reply, next);
    }
  }

  /** Marking one more known, inactive id as done. */
  lemma MarkOneMore(items: seq<Item>, tasks: seq<Task>, section: bool, stale: set<string>, id: string,
                    reply: string -> Reply, next: nat)
    requires DistinctPages(items) && (forall i :: 0 <= i < |items| ==> items[i].page < next)
    requires Known(items, id) && Find(tasks, id) < 0 && id !in stale
    ensures Written(items, tasks, section, stale + {id}, reply, next)
         == if reply(id).Applied()
            then MergeAt(Written(items, tasks, section, stale, reply, next), items[LastWith(items, id)].page,
                         DONE_PROPS)
            else Written(items, tasks, section, stale, reply, next)
  {
    hide TaskToProperties, Merge, LastWith, Find, NewItems, MergeAt;
    var added := NewItems(items, tasks, section, reply, next);
    var mapped := SyncedAll(items, tasks, section, stale, reply);
    forall i | 0 <= i < |items|
      ensures Synced(items, tasks, section, stale + {id}, reply, i)
           == if reply(id).Applied() && i == LastWith(items, id)
              then Merge(mapped[i], DONE_PROPS) else mapped[i]
    {
    }
    if reply(id).Applied() {
      NewPagesAreNew(items, tasks, section, reply, next);
      MergesOnePage(items, mapped, added, LastWith(items, id), DONE_PROPS, next);
      assert SyncedAll(items, tasks, section, stale + {id}, reply)
          == MergeIndex(mapped, LastWith(items, id), DONE_PROPS);
    } else {
      assert SyncedAll(items, tasks, section, stale + {id}, reply) == mapped;
    }
  }

  /** The map from Todoist ids to pages. */
  function IdMap(items: seq<Item>): (m: map<string, nat>)
    ensures forall id :: id in m <==> Known(items, id)
    ensures forall id :: id in m ==> Known(items, id) && m[id] == items[LastWith(items, id)].page
  {
    if items == [] then map[] else
      var m := IdMap(items[..|items| - 1]);
      var id := StoredId(items[|items| - 1]);
      if id == "" then m else m[id := items[|items| - 1].page]
  }

  /** The loop that builds the map. */
  method BuildIdMap(existing: seq<Item>) returns (m: map<string, nat>)
    ensures m == IdMap(existing)
  {
    hide Known, LastWith, StoredId;
    m := map[];
    for n := 0 to |existing|
      invariant m == IdMap(existing[..n])
    {
      assert existing[..n + 1][..n] == existing[..n];
      var tid := StoredId(existing[n]);
      if tid != "" {
        m := m[tid := existing[n].page];
      }
    }
    assert existing[..|existing|] == existing;
  }

  lemma ReportedOneMore(items: seq<Item>, tasks: seq<Task>, t: Task, reply: string -> Reply, known: bool)
    ensures Reported(items, tasks + [t], reply, known)
         == Reported(items, tasks, reply, known) + (if Known(items, t.id) == known && reply(t.id) == Done then 1 else 0)
  {
    assert (tasks + [t])[..|tasks|] == tasks;
  }

  /** The loop that updates or creates a page for every task. */
  method WriteTasks(db: NotionDatabase, existingMap: map<string, nat>, tasks: seq<Task>, section: bool,
                    reply: string -> Reply) returns (created: nat, updated: nat, activeIds: set<string>)
    requires db.Valid() && DistinctTasks(tasks) && existingMap == IdMap(db.items)
    modifies db
    ensures db.Valid()
    ensures db.items == Written(old(db.items), tasks, section, {}, reply, old(db.nextPage))
    ensures created == Reported(old(db.items), tasks, reply, false)
    ensures updated == Reported(old(db.items), tasks, reply, true)
    ensures activeIds == Ids(tasks)
  {
    hide *;
    ghost var items, next := db.items, db.nextPage;
    created, updated, activeIds := 0, 0, {};
    NothingToDo(items, section, reply, next);
    ValidMeans(db);
    ghost var done := [];
    for n := 0 to |tasks|
      invariant done == tasks[..n] && db.Valid()
      invariant db.nextPage == next + |NewItems(items, done, section, reply, next)|
      invariant db.items == Written(items, done, section, {}, reply, next)
      invariant created == Reported(items, done, reply, false)
      invariant updated == Reported(items, done, reply, true)
      invariant activeIds == Ids(done)
    {
      var task := tasks[n];
      FirstOnesAreDistinct(tasks, n);
      WriteOneMore(items, done, task, section, reply, next);
      ReportedOneMore(items, done, task, reply, false);
      ReportedOneMore(items, done, task, reply, true);
      IdsOneMore(done, task);
      activeIds := activeIds + {task.id};
      var props := TaskToProperties(task, section);
      if task.id in existingMap {
        var raised := db.UpdatePage(existingMap[task.id], props, reply(task.id));
        if !raised {
          updated := updated + 1;
        }
      } else {
        var raised := db.CreatePage(props, reply(task.id));
        if !raised {
          created := created + 1;
        }
      }
      done := done + [task];
    }
    assert tasks[..|tasks|] == tasks;
  }

  lemma ValidMeans(db: NotionDatabase)
    ensures db.Valid() <==>
              DistinctPages(db.items) && forall i :: 0 <= i < |db.items| ==> db.items[i].page < db.nextPage
  {}

  function Ids(tasks: seq<Task>): set<string> {
    set k | 0 <= k < |tasks| :: tasks[k].id
  }

  lemma IdsOneMore(tasks: seq<Task>, t: Task)
    ensures Ids(tasks + [t]) == Ids(tasks) + {t.id}
  {
    assert (tasks + [t])[|tasks|] == t;
    assert forall k :: 0 <= k < |tasks| ==> (tasks + [t])[k] == tasks[k];
  }

  lemma FirstOnesAreDistinct(tasks: seq<Task>, n: nat)
    requires DistinctTasks(tasks) && n < |tasks|
    ensures DistinctTasks(tasks[..n] + [tasks[n]])
  {
    assert tasks[..n] + [tasks[n]] == tasks[..n + 1];
  }

  /** The loop that marks the pages of inactive ids as done. */
  method MarkStale(db: NotionDatabase, existingMap: map<string, nat>, activeIds: set<string>, reply: string -> Reply,
                   ghost items: seq<Item>, ghost tasks: seq<Task>, ghost section: bool, ghost next: nat)
    requires db.Valid() && existingMap == IdMap(items) && activeIds == Ids(tasks)
    requires DistinctPages(items) && (forall i :: 0 <= i < |items| ==> items[i].page < next)
    requires db.items == Written(items, tasks, section, {}, reply, next)
    modifies db`items
    ensures db.Valid()
    ensures db.items == Written(items, tasks, section, StaleIds(items, tasks), reply, next)
  {
    FindsActive(tasks);
    KnownIdsAreStored(items, tasks);
    hide *;
    var todo := existingMap.Keys;
    ghost var marked: set<string> := {};
    while todo != {}
      invariant db.Valid() && todo <= existingMap.Keys
      invariant marked == set id | id in existingMap && id !in todo && id !in activeIds
      invariant db.items == Written(items, tasks, section, marked, reply, next)
      decreases todo
    {
      var tid :| tid in todo;
      todo := todo - {tid};
      if tid !in activeIds {
        MarkOneMore(items, tasks, section, marked, tid, reply, next);
        var raised := db.UpdatePage(existingMap[tid], DONE_PROPS, reply(tid));
        marked := marked + {tid};
      }
    }
    assert marked == StaleIds(items, tasks);
  }

  /** The table after the call is the one a pass leaves, whatever fails; the counts are those of the replies. */
  method SyncTasksToDatabase(db: NotionDatabase, tasks: seq<Task>, section: bool, markStale: bool,
                             reply: string -> Reply) returns (created: nat, updated: nat)
    requires db.Valid() && DistinctTasks(tasks)
    modifies db
    ensures db.Valid()
    ensures db.items == Pass(old(db.items), tasks, section, markStale, reply, old(db.nextPage))
    ensures created == Reported(old(db.items), tasks, reply, false)
    ensures updated == Reported(old(db.items), tasks, reply, true)
  {
    hide SyncedAll, NewItems, Synced, Known, IdMap, StaleIds, MergeAt;
    ghost var items, next := db.items, db.nextPage;
    if tasks == [] && !markStale {
      NothingToDo(items, section, reply, next);
      return 0, 0;
    }
    var existingMap := BuildIdMap(db.items);
    var activeIds;
    created, updated, activeIds := WriteTasks(db, existingMap, tasks, section, reply);
    if markStale {
      MarkStale(db, existingMap, activeIds, reply, items, tasks, section, next);
    }
  }

  lemma NothingToDo(items: seq<Item>, section: bool, reply: string -> Reply, next: nat)
    ensures Written(items, [], section, {}, reply, next) == items
    ensures NewItems(items, [], section, reply, next) == []
    ensures Reported(items, [], reply, true) == Reported(items, [], reply, false) == 0 && Ids([]) == {}
  {
    assert forall i :: 0 <= i < |items| ==> Synced(items, [], section, {}, reply, i) == items[i];
  }

  lemma {:induction false} FindsActive(tasks: seq<Task>)
    ensures forall id :: Find(tasks, id) >= 0 <==> id in Ids(tasks)
  {
    if tasks != [] {
      var init, t := tasks[..|tasks| - 1], tasks[|tasks| - 1];
      FindsActive(init);
      assert tasks == init + [t];
      IdsOneMore(init, t);
    }
  }

  lemma {:induction false} LastWithFinds(items: seq<Item>, id: string)
    ensures LastWith(items, id) >= 0 <==> exists i :: 0 <= i < |items| && StoredId(items[i]) == id
    ensures forall i :: LastWith(items, id) < i < |items| ==> StoredId(items[i]) != id
  {
    hide StoredId;
    if items != [] {
      var init := items[..|items| - 1];
      LastWithFinds(init, id);
      assert forall i :: 0 <= i < |init| ==> init[i] == items[i];
    }
  }

  lemma KnownIdsAreStored(items: seq<Item>, tasks: seq<Task>)
    ensures forall id :: id in StaleIds(items, tasks) <==> Known(items, id) && Find(tasks, id) < 0
  {
    hide StoredId, Find;
    forall id ensures id in StaleIds(items, tasks) <==> Known(items, id) && Find(tasks, id) < 0 {
      LastWithFinds(items, id);
    }
  }
}
