/** The two-way synchronisation command, `cmd_notion_sync` of src/brain/cli.py: first every planner section is written
    to its Notion database, then, if asked for, the whole board to another one, and at last every page without a Todoist
    id is pushed to the section as a new task and linked. */
module NotionTwoWay {
  import opened Options
  import opened NotionTable
  import opened NotionSync
  import opened NotionConvergence

  /** Todoist's answer to the creation of a task: refused, created with the reply lost, or created. */
  datatype Post = Refused | Unheard(id: string, url: string) | Posted(id: string, url: string)

  /** What the network does to the second direction, page by page. */
  datatype Weather = Weather(post: nat -> Post, link: nat -> Reply)

  // ----- reading a page back -----

  function TextOf(item: Item, p: Prop): string {
    if p in item.props && item.props[p].Text? then item.props[p].text else ""
  }

  function Content(item: Item): string { Sanitize(TextOf(item, Name), 2000) }

  function PriorityOf(item: Item): int {
    if Priority !in item.props || !item.props[Priority].Choice? then 1
    else if item.props[Priority].name == PriorityName(4) then 4
    else if item.props[Priority].name == PriorityName(3) then 3
    else if item.props[Priority].name == PriorityName(2) then 2
    else 1
  }

  /** The task Todoist makes of a page's fields; duration and section name do not travel this way. */
  function TaskOf(item: Item, id: string, url: string): Task {
    Task(id, Content(item), TextOf(item, Notes), "", PriorityOf(item),
         if Labels in item.props && item.props[Labels].Names? then item.props[Labels].names else [],
         if DueDate in item.props && item.props[DueDate].Date? then item.props[DueDate].start else "",
         "", false, 0, url)
  }

  // ----- the second direction, page by page -----

  predicate NeedsPush(item: Item) { StoredId(item) == "" && Content(item) != "" }

  /** Is the page linked to the task made of it? */
  predicate Links(item: Item, w: Weather) {
    NeedsPush(item) && w.post(item.page).Posted? && w.post(item.page).id != "" && w.link(item.page).Applied()
  }

  function LinkProps(p: Post): Props
    requires p.Posted?
  {
    map[TodoistId := Text(p.id), TodoistUrl := Link(p.url)]
  }

  function Pushed(item: Item, w: Weather): Item {
    if Links(item, w) then Merge(item, LinkProps(w.post(item.page))) else item
  }

  /** The task made of the page, if any. */
  function NewTask(item: Item, w: Weather): seq<Task> {
    if NeedsPush(item) && !w.post(item.page).Refused?
    then [TaskOf(item, w.post(item.page).id, w.post(item.page).url)] else []
  }

  function PushedAll(items: seq<Item>, w: Weather): (r: seq<Item>)
    ensures |r| == |items|
    ensures forall i :: 0 <= i < |r| ==> r[i] == Pushed(items[i], w) && r[i].page == items[i].page
  {
    seq(|items|, i requires 0 <= i < |items| => Pushed(items[i], w))
  }

  /** The tasks that come into being, in the order of the pages. */
  function PushedTasks(items: seq<Item>, w: Weather): seq<Task> {
    if items == [] then [] else
      PushedTasks(items[..|items| - 1], w) + NewTask(items[|items| - 1], w)
  }

  /** Did pushing the page count as a creation, or as an error? */
  predicate Counts(item: Item, w: Weather) {
    NeedsPush(item) && w.post(item.page).Posted? && (w.post(item.page).id == "" || w.link(item.page) == Done)
  }

  function CountPushed(items: seq<Item>, w: Weather): nat {
    if items == [] then 0
    else CountPushed(items[..|items| - 1], w) + (if Counts(items[|items| - 1], w) then 1 else 0)
  }

  function CountErrors(items: seq<Item>, w: Weather): nat {
    if items == [] then 0
    else CountErrors(items[..|items| - 1], w)
         + (if NeedsPush(items[|items| - 1]) && !Counts(items[|items| - 1], w) then 1 else 0)
  }

  /** A planner section in Todoist and the database it is paired with. */
  class Planner {
    const configured: bool
    const db: NotionDatabase
    var tasks: seq<Task>

    constructor (configured: bool, db: NotionDatabase, tasks: seq<Task>)
      ensures this.configured == configured && this.db == db && this.tasks == tasks
    {
      this.configured := configured;
      this.db := db;
      this.tasks := tasks;
    }
  }

  /** The loop body: a titled page without an id becomes a task and is linked to it, as far as the requests go. */
  method PushItem(planner: Planner, item: Item, w: Weather) returns (created: bool, failed: bool)
    requires planner.db.Valid()
    modifies planner, planner.db`items
    ensures planner.db.Valid()
    ensures planner.db.items
         == if Links(item, w) then MergeAt(old(planner.db.items), item.page, LinkProps(w.post(item.page)))
            else old(planner.db.items)
    ensures planner.tasks == old(planner.tasks) + NewTask(item, w)
    ensures created == Counts(item, w) && failed == (NeedsPush(item) && !Counts(item, w))
  {
    hide NeedsPush, TaskOf, MergeAt, NotionDatabase.Valid, LinkProps;
    created, failed := false, false;
    assert NewTask(item, w) == [] ==> planner.tasks + NewTask(item, w) == planner.tasks;
    if !NeedsPush(item) {
      return;
    }
    var p := w.post(item.page);
    if p.Refused? {
      failed := true;
      return;
    }
    planner.tasks := planner.tasks + [TaskOf(item, p.id, p.url)];
    if p.Unheard? {
      failed := true;
      return;
    }
    if p.id != "" {
      failed := planner.db.UpdatePage(item.page, LinkProps(p), w.link(item.page));
    }
    created := !failed;
  }

  /** `get_notion_only_tasks` and the loop that pushes what it returns. */
  method PushNotionOnly(planner: Planner, w: Weather) returns (created: nat, errors: nat)
    requires planner.db.Valid()
    modifies planner, planner.db`items
    ensures planner.db.Valid()
    ensures planner.db.items == PushedAll(old(planner.db.items), w)
    ensures planner.tasks == old(planner.tasks) + PushedTasks(old(planner.db.items), w)
    ensures created == CountPushed(old(planner.db.items), w) && errors == CountErrors(old(planner.db.items), w)
  {
    ValidMeans(planner.db);
    var allItems := planner.db.items;
    ghost var before := planner.tasks;
    StartsPushing(allItems, before, w);
    hide *;
    created, errors := 0, 0;
    for n := 0 to |allItems|
      invariant planner.db.Valid()
      invariant HalfDone(planner.db.items, planner.tasks, created, errors, allItems, n, before, w)
    {
      PushesOneMore(planner.db.items, planner.tasks, created, errors, allItems, n, before, w);
      var c, e := PushItem(planner, allItems[n], w);
      created, errors := PlusIf(created, c), PlusIf(errors, e);
    }
    AllPushed(planner.db.items, planner.tasks, created, errors, allItems, before, w);
  }

  function PlusIf(n: nat, one: bool): nat { if one then n + 1 else n }

  /** Where the loop stands when the first `n` pages have been dealt with. */
  ghost predicate HalfDone(items: seq<Item>, tasks: seq<Task>, created: nat, errors: nat, all: seq<Item>, n: nat,
                           before: seq<Task>, w: Weather)
  {
    && n <= |all| && DistinctPages(all)
    && items == HalfPushed(all, n, w) && tasks == before + PushedTasks(all[..n], w)
    && created == CountPushed(all[..n], w) && errors == CountErrors(all[..n], w)
  }

  lemma StartsPushing(all: seq<Item>, before: seq<Task>, w: Weather)
    requires DistinctPages(all)
    ensures HalfDone(all, before, 0, 0, all, 0, before, w)
  {
    PushedNothing(all, w);
    assert all[..0] == [] && before + [] == before;
  }

  lemma PushesOneMore(items: seq<Item>, tasks: seq<Task>, created: nat, errors: nat, all: seq<Item>, n: nat,
                      before: seq<Task>, w: Weather)
    requires n < |all| && HalfDone(items, tasks, created, errors, all, n, before, w)
    ensures var item := all[n];
            HalfDone(if Links(item, w) then MergeAt(items, item.page, LinkProps(w.post(item.page))) else items,
                     tasks + NewTask(item, w), PlusIf(created, Counts(item, w)),
                     PlusIf(errors, NeedsPush(item) && !Counts(item, w)), all, n + 1, before, w)
  {
    PushOneMore(all, n, w);
    assert all[..n + 1] == all[..n] + [all[n]];
    hide HalfPushed, PushedTasks, CountPushed, CountErrors, Links, MergeAt, NewTask, Counts, NeedsPush, DistinctPages;
    var pushed, more := PushedTasks(all[..n], w), NewTask(all[n], w);
    assert before + pushed + more == before + (pushed + more);
  }

  lemma AllPushed(items: seq<Item>, tasks: seq<Task>, created: nat, errors: nat, all: seq<Item>, before: seq<Task>,
                  w: Weather)
    requires HalfDone(items, tasks, created, errors, all, |all|, before, w)
    ensures items == PushedAll(all, w) && tasks == before + PushedTasks(all, w)
    ensures created == CountPushed(all, w) && errors == CountErrors(all, w)
  {
    PushedNothing(all, w);
    assert all[..|all|] == all;
  }

  /** The table when the first `n` pages have been dealt with. */
  ghost function HalfPushed(items: seq<Item>, n: nat, w: Weather): seq<Item>
    requires n <= |items|
  {
    PushedAll(items[..n], w) + items[n..]
  }

  lemma PushedNothing(items: seq<Item>, w: Weather)
    ensures HalfPushed(items, 0, w) == items && HalfPushed(items, |items|, w) == PushedAll(items, w)
    ensures PushedTasks([], w) == [] && CountPushed([], w) == CountErrors([], w) == 0
  {
    assert items[..|items|] == items;
  }

  lemma PushOneMore(items: seq<Item>, n: nat, w: Weather)
    requires DistinctPages(items) && n < |items|
    ensures HalfPushed(items, n + 1, w)
         == if Links(items[n], w)
            then MergeAt(HalfPushed(items, n, w), items[n].page, LinkProps(w.post(items[n].page)))
            else HalfPushed(items, n, w)
    ensures PushedTasks(items[..n] + [items[n]], w) == PushedTasks(items[..n], w) + NewTask(items[n], w)
    ensures CountPushed(items[..n] + [items[n]], w)
         == CountPushed(items[..n], w) + (if Counts(items[n], w) then 1 else 0)
    ensures CountErrors(items[..n] + [items[n]], w)
         == CountErrors(items[..n], w) + (if NeedsPush(items[n]) && !Counts(items[n], w) then 1 else 0)
  {
    hide NeedsPush, Links, Merge, NewTask, Counts;
    assert (items[..n] + [items[n]])[..n] == items[..n];
    var before, after := HalfPushed(items, n, w), HalfPushed(items, n + 1, w);
    forall i | 0 <= i < |items| ensures after[i] == if i == n then Pushed(items[n], w) else before[i] {}
    assert before[n] == items[n];
    forall i | 0 <= i < |items| && i != n ensures before[i].page != items[n].page {}
  }

  // ----- the command -----

  /** A snapshot of what one planner sees of the two services, and whether its reads in the two directions succeed. */
  datatype Remote = Remote(configured: bool, items: seq<Item>, next: nat, tasks: seq<Task>, readable: bool,
                           readableAgain: bool)

  /** The page table after the first direction. */
  function Mirrored(r: Remote, reply: string -> Reply): seq<Item> {
    if r.configured && r.readable then Pass(r.items, r.tasks, false, false, reply, r.next) else r.items
  }

  function AfterItems(r: Remote, readOnly: bool, reply: string -> Reply, w: Weather): seq<Item> {
    if r.configured && r.readableAgain && !readOnly then PushedAll(Mirrored(r, reply), w) else Mirrored(r, reply)
  }

  function AfterTasks(r: Remote, readOnly: bool, reply: string -> Reply, w: Weather): seq<Task> {
    if r.configured && r.readableAgain && !readOnly then r.tasks + PushedTasks(Mirrored(r, reply), w) else r.tasks
  }

  /** Totals over the planners: writes the first direction reports, and what the second one counts. */
  function FirstReported(rs: seq<Remote>, reply: nat -> string -> Reply, known: bool): nat {
    if rs == [] then 0 else
      var r := rs[|rs| - 1];
      FirstReported(rs[..|rs| - 1], reply, known)
      + (if r.configured && r.readable then Reported(r.items, r.tasks, reply(|rs| - 1), known) else 0)
  }

  /** The planners whose reads fail in the first direction: each counts as an error, and the others go on. */
  function FirstFailed(rs: seq<Remote>): nat {
    if rs == [] then 0
    else FirstFailed(rs[..|rs| - 1]) + (if rs[|rs| - 1].configured && !rs[|rs| - 1].readable then 1 else 0)
  }

  function SecondCounted(rs: seq<Remote>, reply: nat -> string -> Reply, weather: nat -> Weather, errors: bool): nat {
    if rs == [] then 0 else
      var r, k := rs[|rs| - 1], |rs| - 1;
      SecondCounted(rs[..k], reply, weather, errors)
      + (if !r.configured then 0
         else if !r.readableAgain then if errors then 1 else 0
         else if errors then CountErrors(Mirrored(r, reply(k)), weather(k))
         else CountPushed(Mirrored(r, reply(k)), weather(k)))
  }

  ghost predicate Separate(planners: seq<Planner>) {
    forall i, j :: 0 <= i < j < |planners| ==> planners[i] != planners[j] && planners[i].db != planners[j].db
  }

  /** Planner `p` sees this table and these tasks. */
  ghost predicate Sees(p: Planner, items: seq<Item>, tasks: seq<Task>)
    reads p, p.db
  {
    p.db.Valid() && p.db.items == items && p.tasks == tasks
  }

  lemma OneMoreWritten(rs: seq<Remote>, n: nat, reply: nat -> string -> Reply)
    requires n < |rs|
    ensures forall known :: FirstReported(rs[..n + 1], reply, known) == FirstReported(rs[..n], reply, known)
              + (if rs[n].configured && rs[n].readable then Reported(rs[n].items, rs[n].tasks, reply(n), known) else 0)
    ensures FirstFailed(rs[..n + 1]) == FirstFailed(rs[..n]) + (if rs[n].configured && !rs[n].readable then 1 else 0)
  {
    hide Reported;
    assert rs[..n + 1][..n] == rs[..n];
  }

  lemma OneMorePushed(rs: seq<Remote>, n: nat, reply: nat -> string -> Reply, weather: nat -> Weather)
    requires n < |rs|
    ensures forall errors :: SecondCounted(rs[..n + 1], reply, weather, errors)
              == SecondCounted(rs[..n], reply, weather, errors)
                 + (if !rs[n].configured then 0
                    else if !rs[n].readableAgain then if errors then 1 else 0
                    else if errors then CountErrors(Mirrored(rs[n], reply(n)), weather(n))
                    else CountPushed(Mirrored(rs[n], reply(n)), weather(n)))
  {
    hide CountErrors, CountPushed, Mirrored;
    assert rs[..n + 1][..n] == rs[..n];
  }

  /** The snapshots `rs` are those of the planners, for the given read failures. */
  ghost predicate Describes(rs: seq<Remote>, planners: seq<Planner>, readable: nat -> bool,
                            readableAgain: nat -> bool)
  {
    && |rs| == |planners|
    && forall k :: 0 <= k < |planners| ==>
         && rs[k].configured == planners[k].configured
         && rs[k].readable == readable(k) && rs[k].readableAgain == readableAgain(k)
  }

  lemma NothingReported(reply: nat -> string -> Reply)
    ensures FirstReported([], reply, true) == FirstReported([], reply, false) == FirstFailed([]) == 0
  {}

  lemma SeesMeans(p: Planner, items: seq<Item>, tasks: seq<Task>)
    ensures Sees(p, items, tasks) <==> p.db.Valid() && p.db.items == items && p.tasks == tasks
  {}

  lemma MirroredIs(r: Remote, reply: string -> Reply)
    ensures Mirrored(r, reply)
         == if r.configured && r.readable then Pass(r.items, r.tasks, false, false, reply, r.next) else r.items
  {}

  /** The first loop over the planner map: Todoist to Notion. */
  method WritePlanners(planners: seq<Planner>, readable: nat -> bool, reply: nat -> string -> Reply,
                       ghost readableAgain: nat -> bool, ghost rs: seq<Remote>)
    returns (created: nat, updated: nat, errors: nat)
    requires Separate(planners) && Describes(rs, planners, readable, readableAgain)
    requires forall k :: 0 <= k < |planners| ==>
               && rs[k].next == planners[k].db.nextPage
               && Sees(planners[k], rs[k].items, rs[k].tasks) && DistinctTasks(rs[k].tasks)
    modifies set p | p in planners :: p.db
    ensures forall k :: 0 <= k < |planners| ==> Sees(planners[k], Mirrored(rs[k], reply(k)), rs[k].tasks)
    ensures updated == FirstReported(rs, reply, true) && created == FirstReported(rs, reply, false)
    ensures errors == FirstFailed(rs)
  {
    hide Pass, Reported, DistinctTasks, NotionDatabase.Valid, FirstReported, FirstFailed, Mirrored, Sees;
    NothingReported(reply);
    created, updated, errors := 0, 0, 0;
    assert rs[..0] == [];
    for n := 0 to |planners|
      invariant forall k :: 0 <= k < n ==> Sees(planners[k], Mirrored(rs[k], reply(k)), rs[k].tasks)
      invariant forall k :: n <= k < |planners| ==>
                  Sees(planners[k], rs[k].items, rs[k].tasks) && planners[k].db.nextPage == rs[k].next
      invariant updated == FirstReported(rs[..n], reply, true)
      invariant created == FirstReported(rs[..n], reply, false)
      invariant errors == FirstFailed(rs[..n])
    {
      OneMoreWritten(rs, n, reply);
      var p := planners[n];
      SeesMeans(p, rs[n].items, rs[n].tasks);
      MirroredIs(rs[n], reply(n));
      if p.configured {
        if readable(n) {
          var c, u := SyncTasksToDatabase(p.db, p.tasks, false, false, reply(n));
          created := created + c;
          updated := updated + u;
        } else {
          errors := errors + 1;
        }
      }
      SeesMeans(p, Mirrored(rs[n], reply(n)), rs[n].tasks);
    }
    assert rs[..|planners|] == rs;
  }

  /** The second loop over the planner map: Notion to Todoist. */
  method PushPlanners(planners: seq<Planner>, readableAgain: nat -> bool, weather: nat -> Weather,
                      ghost readable: nat -> bool, ghost reply: nat -> string -> Reply, ghost rs: seq<Remote>)
    returns (created: nat, errors: nat)
    requires Separate(planners) && Describes(rs, planners, readable, readableAgain)
    requires forall k :: 0 <= k < |planners| ==> Sees(planners[k], Mirrored(rs[k], reply(k)), rs[k].tasks)
    modifies (set p | p in planners), (set p | p in planners :: p.db)
    ensures forall k :: 0 <= k < |planners| ==>
              Sees(planners[k], AfterItems(rs[k], false, reply(k), weather(k)),
                   AfterTasks(rs[k], false, reply(k), weather(k)))
    ensures created == SecondCounted(rs, reply, weather, false) && errors == SecondCounted(rs, reply, weather, true)
  {
    hide PushedAll, PushedTasks, Mirrored, CountErrors, CountPushed, NotionDatabase.Valid, SecondCounted, Sees;
    hide AfterItems, AfterTasks;
    NothingCounted(reply, weather);
    created, errors := 0, 0;
    assert rs[..0] == [];
    for n := 0 to |planners|
      invariant forall k :: 0 <= k < n ==>
                  Sees(planners[k], AfterItems(rs[k], false, reply(k), weather(k)),
                       AfterTasks(rs[k], false, reply(k), weather(k)))
      invariant forall k :: n <= k < |planners| ==> Sees(planners[k], Mirrored(rs[k], reply(k)), rs[k].tasks)
      invariant created == SecondCounted(rs[..n], reply, weather, false)
      invariant errors == SecondCounted(rs[..n], reply, weather, true)
    {
      OneMorePushed(rs, n, reply, weather);
      var p := planners[n];
      SeesMeans(p, Mirrored(rs[n], reply(n)), rs[n].tasks);
      AfterIs(rs[n], reply(n), weather(n));
      if p.configured {
        if readableAgain(n) {
          var c, e := PushNotionOnly(p, weather(n));
          created := created + c;
          errors := errors + e;
        } else {
          errors := errors + 1;
        }
      }
      SeesMeans(p, AfterItems(rs[n], false, reply(n), weather(n)), AfterTasks(rs[n], false, reply(n), weather(n)));
    }
    assert rs[..|planners|] == rs;
  }

  lemma NothingCounted(reply: nat -> string -> Reply, weather: nat -> Weather)
    ensures SecondCounted([], reply, weather, true) == SecondCounted([], reply, weather, false) == 0
  {}

  lemma AfterIs(r: Remote, reply: string -> Reply, w: Weather)
    ensures AfterItems(r, false, reply, w)
         == if r.configured && r.readableAgain then PushedAll(Mirrored(r, reply), w) else Mirrored(r, reply)
    ensures AfterTasks(r, false, reply, w)
         == if r.configured && r.readableAgain then r.tasks + PushedTasks(Mirrored(r, reply), w) else r.tasks
  {}

  /** The full-board pass: the board's database, all tasks of the board, whether reading succeeds, and the replies. */
  datatype Board = Board(db: NotionDatabase, tasks: seq<Task>, readable: bool, reply: string -> Reply)

  /** The board's table after the pass: each page gets its section, and those of tasks that are gone are marked. */
  function BoardItems(b: Board, items: seq<Item>, next: nat): seq<Item> {
    if b.readable then Pass(items, b.tasks, true, true, b.reply, next) else items
  }

  function BoardReported(b: Board, items: seq<Item>, known: bool): nat {
    if b.readable then Reported(items, b.tasks, b.reply, known) else 0
  }

  /** `sync_board_to_database` within the command. */
  method SyncBoard(b: Board) returns (created: nat, updated: nat, errors: nat)
    requires b.db.Valid() && DistinctTasks(b.tasks)
    modifies b.db
    ensures b.db.Valid() && b.db.items == BoardItems(b, old(b.db.items), old(b.db.nextPage))
    ensures created == BoardReported(b, old(b.db.items), false) && updated == BoardReported(b, old(b.db.items), true)
    ensures errors == if b.readable then 0 else 1
  {
    hide Pass, Reported, DistinctTasks, NotionDatabase.Valid;
    created, updated, errors := 0, 0, 0;
    if b.readable {
      created, updated := SyncTasksToDatabase(b.db, b.tasks, true, true, b.reply);
    } else {
      errors := 1;
    }
  }

  /** The command; reads, replies and weather may differ from planner to planner.  `full` is the board, if the full pass
      is asked for and configured. */
  method CmdNotionSync(planners: seq<Planner>, full: Option<Board>, readOnly: bool, readable: nat -> bool,
                       reply: nat -> string -> Reply, readableAgain: nat -> bool, weather: nat -> Weather,
                       ghost rs: seq<Remote>)
    returns (created: nat, updated: nat, errors: nat)
    requires Separate(planners) && Describes(rs, planners, readable, readableAgain)
    requires forall k :: 0 <= k < |planners| ==>
               && rs[k].next == planners[k].db.nextPage
               && Sees(planners[k], rs[k].items, rs[k].tasks) && DistinctTasks(rs[k].tasks)
    requires full.Some? ==>
               && full.value.db.Valid() && DistinctTasks(full.value.tasks)
               && forall k :: 0 <= k < |planners| ==> planners[k].db != full.value.db
    modifies (set p | p in planners), (set p | p in planners :: p.db)
    modifies if full.Some? then {full.value.db} else {}
    ensures forall k :: 0 <= k < |planners| ==>
              Sees(planners[k], AfterItems(rs[k], readOnly, reply(k), weather(k)),
                   AfterTasks(rs[k], readOnly, reply(k), weather(k)))
    ensures full.Some? ==>
              full.value.db.items == BoardItems(full.value, old(full.value.db.items), old(full.value.db.nextPage))
    ensures updated
         == FirstReported(rs, reply, true)
            + if full.Some? then BoardReported(full.value, old(full.value.db.items), true) else 0
    ensures created
         == FirstReported(rs, reply, false)
            + (if full.Some? then BoardReported(full.value, old(full.value.db.items), false) else 0)
            + if readOnly then 0 else SecondCounted(rs, reply, weather, false)
    ensures errors
         == FirstFailed(rs) + (if full.Some? && !full.value.readable then 1 else 0)
            + if readOnly then 0 else SecondCounted(rs, reply, weather, true)
  {
    hide FirstReported, FirstFailed, SecondCounted, Mirrored, PushedAll, PushedTasks, Describes;
    hide BoardItems, BoardReported, DistinctTasks, NotionDatabase.Valid, Sees;
    created, updated, errors := WritePlanners(planners, readable, reply, readableAgain, rs);
    if full.Some? {
      var c, u, e := SyncBoard(full.value);
      created := created + c;
      updated := updated + u;
      errors := errors + e;
    }
    if !readOnly {
      var c, e := PushPlanners(planners, readableAgain, weather, readable, reply, rs);
      created := created + c;
      errors := errors + e;
    }
  }

  // ----- two clean runs -----

  /** No request fails, and Todoist gives the tasks it creates new, well-formed, different ids. */
  ghost predicate Fair(items: seq<Item>, tasks: seq<Task>, w: Weather) {
    && (forall i :: 0 <= i < |items| && NeedsPush(items[i]) ==>
          && w.post(items[i].page).Posted? && w.link(items[i].page) == Done
          && NewId(items, tasks, w.post(items[i].page).id))
    && (forall i, j :: 0 <= i < j < |items| && NeedsPush(items[i]) && NeedsPush(items[j]) ==>
          w.post(items[i].page).id != w.post(items[j].page).id)
  }

  ghost predicate NewId(items: seq<Item>, tasks: seq<Task>, id: string) {
    && GoodId(id)
    && (forall i :: 0 <= i < |items| ==> StoredId(items[i]) != id)
    && (forall k :: 0 <= k < |tasks| ==> tasks[k].id != id)
  }

  /** Section and database agree: tasks with good ids, one page per id, every task on a page, every titled page
      linked to an id. */
  ghost predicate Agreed(items: seq<Item>, tasks: seq<Task>) {
    && GoodTasks(tasks) && UniqueIds(items)
    && (forall k :: 0 <= k < |tasks| ==> Known(items, tasks[k].id))
    && (forall i :: 0 <= i < |items| ==> !NeedsPush(items[i]))
  }

  /** The id a page holds once it has been dealt with. */
  function PushedId(item: Item, w: Weather): string {
    if NeedsPush(item) && w.post(item.page).Posted? then w.post(item.page).id else StoredId(item)
  }

  lemma PushedHasId(items: seq<Item>, tasks: seq<Task>, w: Weather, i: nat)
    requires i < |items| && Fair(items, tasks, w)
    ensures StoredId(Pushed(items[i], w)) == PushedId(items[i], w) && !NeedsPush(Pushed(items[i], w))
    ensures NeedsPush(items[i]) ==> NewId(items, tasks, PushedId(items[i], w))
  {
    hide Content, Clean;
  }

  lemma PushedIdsUnique(items: seq<Item>, tasks: seq<Task>, w: Weather)
    requires UniqueIds(items) && Fair(items, tasks, w)
    ensures UniqueIds(PushedAll(items, w))
  {
    hide Content, StoredId, Pushed, GoodId;
    var after := PushedAll(items, w);
    forall i | 0 <= i < |items|
      ensures StoredId(after[i]) == PushedId(items[i], w)
      ensures NeedsPush(items[i]) ==> NewId(items, tasks, PushedId(items[i], w))
    {
      PushedHasId(items, tasks, w, i);
    }
  }

  /** The id is that of the task made of one of the first `n` pages. */
  ghost predicate ComesFrom(id: string, items: seq<Item>, w: Weather, n: nat)
    requires n <= |items|
  {
    exists i :: 0 <= i < n && NeedsPush(items[i]) && PushedId(items[i], w) == id
  }

  lemma GoodTasksAppend(tasks: seq<Task>, ts: seq<Task>, more: seq<Task>)
    requires GoodTasks(tasks + ts)
    requires more == [] || (|more| == 1 && GoodId(more[0].id)
                            && (forall k :: 0 <= k < |tasks| ==> tasks[k].id != more[0].id)
                            && (forall k :: 0 <= k < |ts| ==> ts[k].id != more[0].id))
    ensures GoodTasks(tasks + (ts + more))
  {
    hide GoodId;
    assert tasks + (ts + more) == (tasks + ts) + more;
  }

  ghost predicate AllComeFrom(ts: seq<Task>, items: seq<Item>, w: Weather, n: nat)
    requires n <= |items|
  {
    forall k :: 0 <= k < |ts| ==> ComesFrom(ts[k].id, items, w, n)
  }

  /** One more page adds at most one task, whose id no earlier one has. */
  lemma OneMoreComesFrom(ts: seq<Task>, more: seq<Task>, items: seq<Item>, tasks: seq<Task>, w: Weather, n: nat)
    requires n < |items| && Fair(items, tasks, w) && AllComeFrom(ts, items, w, n)
    requires more == [] || (|more| == 1 && NeedsPush(items[n]) && more[0].id == PushedId(items[n], w))
    ensures AllComeFrom(ts + more, items, w, n + 1)
    ensures more != [] ==> NewId(items, tasks, more[0].id) && forall k :: 0 <= k < |ts| ==> ts[k].id != more[0].id
  {
    hide NeedsPush, NewId;
    forall k | 0 <= k < |ts| ensures ComesFrom(ts[k].id, items, w, n + 1) && (more != [] ==> ts[k].id != more[0].id) {
      assert ComesFrom(ts[k].id, items, w, n);
      var i :| 0 <= i < n && NeedsPush(items[i]) && PushedId(items[i], w) == ts[k].id;
    }
  }

  lemma {:induction false} PushedTasksGood(items: seq<Item>, tasks: seq<Task>, w: Weather, n: nat)
    requires GoodTasks(tasks) && Fair(items, tasks, w) && n <= |items|
    ensures GoodTasks(tasks + PushedTasks(items[..n], w))
    ensures AllComeFrom(PushedTasks(items[..n], w), items, w, n)
  {
    hide *;
    if n == 0 {
      NothingComesFrom(items, tasks, w);
    } else {
      PushedTasksGood(items, tasks, w, n - 1);
      OneMoreGood(items, tasks, w, n - 1, PushedTasks(items[..n - 1], w));
      PushedTasksStep(items, w, n);
    }
  }

  lemma NothingComesFrom(items: seq<Item>, tasks: seq<Task>, w: Weather)
    ensures AllComeFrom(PushedTasks(items[..0], w), items, w, 0)
    ensures GoodTasks(tasks) ==> GoodTasks(tasks + PushedTasks(items[..0], w))
  {
    assert PushedTasks(items[..0], w) == [];
    hide PushedTasks, GoodTasks;
    assert tasks + [] == tasks;
  }

  lemma OneMoreGood(items: seq<Item>, tasks: seq<Task>, w: Weather, n: nat, earlier: seq<Task>)
    requires Fair(items, tasks, w) && n < |items|
    requires GoodTasks(tasks + earlier) && AllComeFrom(earlier, items, w, n)
    ensures GoodTasks(tasks + (earlier + NewTask(items[n], w)))
    ensures AllComeFrom(earlier + NewTask(items[n], w), items, w, n + 1)
  {
    hide *;
    NewTaskHasId(items, tasks, w, n);
    var more := NewTask(items[n], w);
    OneMoreComesFrom(earlier, more, items, tasks, w, n);
    NewIdMeans(items, tasks, if more == [] then "" else more[0].id);
    GoodTasksAppend(tasks, earlier, more);
  }

  lemma NewIdMeans(items: seq<Item>, tasks: seq<Task>, id: string)
    ensures NewId(items, tasks, id) ==> GoodId(id) && forall k :: 0 <= k < |tasks| ==> tasks[k].id != id
  {}

  lemma PushedTasksStep(items: seq<Item>, w: Weather, n: nat)
    requires 0 < n <= |items|
    ensures PushedTasks(items[..n], w) == PushedTasks(items[..n - 1], w) + NewTask(items[n - 1], w)
  {
    assert items[..n][..n - 1] == items[..n - 1];
  }

  lemma NewTaskHasId(items: seq<Item>, tasks: seq<Task>, w: Weather, i: nat)
    requires i < |items| && Fair(items, tasks, w)
    ensures var more := NewTask(items[i], w);
            more == [] || (|more| == 1 && NeedsPush(items[i]) && more[0].id == PushedId(items[i], w))
  {}

  /** Every task, old or new, has its page. */
  lemma IdHasPage(items: seq<Item>, tasks: seq<Task>, w: Weather, id: string) returns (i: nat)
    requires Fair(items, tasks, w)
    requires Known(items, id) || ComesFrom(id, items, w, |items|)
    ensures i < |items| && StoredId(PushedAll(items, w)[i]) == id
  {
    if Known(items, id) {
      i := LastWith(items, id);
    } else {
      i :| 0 <= i < |items| && NeedsPush(items[i]) && PushedId(items[i], w) == id;
    }
    PushedHasId(items, tasks, w, i);
  }

  /** Pushing everything under fair weather, from a table that knows its tasks, makes the two sides agree. */
  lemma PushAgrees(items: seq<Item>, tasks: seq<Task>, w: Weather)
    requires UniqueIds(items) && GoodTasks(tasks) && Fair(items, tasks, w)
    requires forall k :: 0 <= k < |tasks| ==> Known(items, tasks[k].id)
    ensures Agreed(PushedAll(items, w), tasks + PushedTasks(items, w))
  {
    var after, all := PushedAll(items, w), tasks + PushedTasks(items, w);
    PushedIdsUnique(items, tasks, w);
    PushedTasksGood(items, tasks, w, |items|);
    assert items[..|items|] == items;
    hide Fair, PushedTasks, NeedsPush, Known, StoredId, ComesFrom, Pushed;
    forall i | 0 <= i < |after| ensures !NeedsPush(after[i]) {
      PushedHasId(items, tasks, w, i);
    }
    forall k | 0 <= k < |all| ensures Known(after, all[k].id) {
      var i := IdHasPage(items, tasks, w, all[k].id);
      assert GoodId(all[k].id);
      StoredIsKnown(after, i);
    }
  }

  /** From agreement on no run creates anything in either direction, whatever fails, and the sides stay agreed. */
  lemma AgreementIsFinal(r: Remote, reply: string -> Reply, w: Weather)
    requires Agreed(r.items, r.tasks)
    ensures Reported(r.items, r.tasks, reply, false) == 0
    ensures CountPushed(Mirrored(r, reply), w) == CountErrors(Mirrored(r, reply), w) == 0
    ensures AfterTasks(r, false, reply, w) == r.tasks && |AfterItems(r, false, reply, w)| == |r.items|
    ensures Agreed(AfterItems(r, false, reply, w), r.tasks)
  {
    hide Clean, Content, StoredId, Known, UniqueIds, Synced, Merge, TaskToProperties;
    AllKnown(r.items, r.tasks, false, reply, r.next);
    PassKeepsIdsUnique(r.items, r.tasks, false, false, reply, r.next);
    var after := Mirrored(r, reply);
    forall i | 0 <= i < |after| ensures StoredId(after[i]) == StoredId(r.items[i]) && !NeedsPush(after[i]) {
      SyncedKeepsId(r.items, r.tasks, false, {}, reply, i);
      assert !NeedsPush(r.items[i]);
    }
    forall k | 0 <= k < |r.tasks| ensures Known(after, r.tasks[k].id) {
      SameIdsKnown(r.items, after, r.tasks[k].id);
    }
    NothingToPush(after, w);
    assert PushedAll(after, w) == after;
  }

  /** So from agreement of all planners on the command reports nothing as created, and in the second direction no errors
      but reads that fail, whatever else does. */
  lemma {:induction false} AgreementIsSilent(rs: seq<Remote>, reply: nat -> string -> Reply, weather: nat -> Weather)
    requires forall k :: 0 <= k < |rs| && rs[k].configured ==> Agreed(rs[k].items, rs[k].tasks)
    ensures FirstReported(rs, reply, false) == SecondCounted(rs, reply, weather, false) == 0
    ensures SecondCounted(rs, reply, weather, true) == FailedAgain(rs)
  {
    if rs != [] {
      var n := |rs| - 1;
      assert forall k :: 0 <= k < n ==> rs[..n][k] == rs[k];
      hide Agreed, Mirrored, CountPushed, CountErrors, Reported;
      AgreementIsSilent(rs[..n], reply, weather);
      if rs[n].configured {
        NothingCreated(rs[n], reply(n), weather(n));
      }
    }
  }

  /** The planners whose reads fail in the second direction. */
  function FailedAgain(rs: seq<Remote>): nat {
    if rs == [] then 0
    else FailedAgain(rs[..|rs| - 1]) + (if rs[|rs| - 1].configured && !rs[|rs| - 1].readableAgain then 1 else 0)
  }

  lemma NothingCreated(r: Remote, reply: string -> Reply, w: Weather)
    requires Agreed(r.items, r.tasks)
    ensures Reported(r.items, r.tasks, reply, false) == 0
    ensures CountPushed(Mirrored(r, reply), w) == CountErrors(Mirrored(r, reply), w) == 0
  {
    hide *;
    AgreementIsFinal(r, reply, w);
  }

  lemma SameIdsKnown(items: seq<Item>, after: seq<Item>, id: string)
    requires |after| == |items| && forall i :: 0 <= i < |items| ==> StoredId(after[i]) == StoredId(items[i])
    ensures Known(items, id) ==> Known(after, id)
  {
    hide StoredId;
    LastWithFinds(items, id);
    LastWithFinds(after, id);
  }

  lemma {:induction false} NothingToPush(items: seq<Item>, w: Weather)
    requires forall i :: 0 <= i < |items| ==> !NeedsPush(items[i])
    ensures PushedTasks(items, w) == [] && CountPushed(items, w) == CountErrors(items, w) == 0
  {
    hide NeedsPush;
    if items != [] {
      NothingToPush(items[..|items| - 1], w);
    }
  }

  /** One run without failures, from a table with at most one page per id, brings the two sides to agreement: every
      titled page has an id and every task a page.  With `AgreementIsFinal`, a second run creates nothing. */
  lemma OneCleanRunAgrees(r: Remote, w: Weather)
    requires r.configured && r.readable && r.readableAgain && UniqueIds(r.items) && GoodTasks(r.tasks)
    requires Fair(Mirrored(r, ALL_DONE), r.tasks, w)
    ensures Agreed(AfterItems(r, false, ALL_DONE, w), AfterTasks(r, false, ALL_DONE, w))
  {
    var first := Mirrored(r, ALL_DONE);
    PassKeepsIdsUnique(r.items, r.tasks, false, false, ALL_DONE, r.next);
    CleanPassMirrors(r.items, r.tasks, false, false, r.next);
    hide *;
    MirrorsKnows(first, r.tasks);
    PushAgrees(first, r.tasks, w);
  }

  /** What one planner needs for that. */
  ghost predicate RunsClean(r: Remote, w: Weather) {
    && r.readable && r.readableAgain && UniqueIds(r.items) && GoodTasks(r.tasks)
    && Fair(Mirrored(r, ALL_DONE), r.tasks, w)
  }

  /** So after one run without failures the next one, `again` being what it finds, reports nothing as created, whatever
      fails then. */
  lemma SecondRunIsSilent(rs: seq<Remote>, weather: nat -> Weather, again: seq<Remote>, reply: nat -> string -> Reply,
                          weather2: nat -> Weather)
    requires |again| == |rs|
    requires forall k :: 0 <= k < |rs| && again[k].configured ==>
               && rs[k].configured && RunsClean(rs[k], weather(k))
               && again[k].items == AfterItems(rs[k], false, ALL_DONE, weather(k))
               && again[k].tasks == AfterTasks(rs[k], false, ALL_DONE, weather(k))
    ensures FirstReported(again, reply, false) == SecondCounted(again, reply, weather2, false) == 0
  {
    hide Agreed, AfterItems, AfterTasks, FirstReported, SecondCounted, UniqueIds, GoodTasks, Fair, Mirrored;
    forall k | 0 <= k < |again| && again[k].configured ensures Agreed(again[k].items, again[k].tasks) {
      OneCleanRunAgrees(rs[k], weather(k));
    }
    AgreementIsSilent(again, reply, weather2);
  }

  lemma MirrorsKnows(items: seq<Item>, tasks: seq<Task>)
    ensures Mirrors(items, tasks, false, false) ==> forall k :: 0 <= k < |tasks| ==> Known(items, tasks[k].id)
  {
    hide Known, Holds;
  }

  // ----- what a lost link costs -----

  /** A page that was pushed is pushed again by the next run if and only if it was not linked. */
  lemma PushedAgainIffNotLinked(item: Item, w: Weather)
    requires NeedsPush(item)
    ensures NeedsPush(Pushed(item, w)) <==> !Links(item, w)
  {
    hide Content;
  }

  /** The pages left to push again: titled pages without an id that the run does not link. */
  predicate Unlinked(item: Item, w: Weather) { NeedsPush(item) && !Links(item, w) }

  function CountUnlinked(items: seq<Item>, w: Weather): nat {
    if items == [] then 0
    else CountUnlinked(items[..|items| - 1], w) + (if Unlinked(items[|items| - 1], w) then 1 else 0)
  }

  /** `again` is what the planner sees when the next run starts. */
  ghost predicate NextRun(r: Remote, reply: string -> Reply, w: Weather, again: Remote) {
    && again.configured && again.readableAgain
    && again.items == AfterItems(r, false, reply, w) && again.tasks == AfterTasks(r, false, reply, w)
  }

  /** What the second direction of the next run finds, after its own write pass: exactly the unlinked pages of the first
      run still have to be pushed. */
  lemma SecondRunFinds(r: Remote, reply: string -> Reply, w: Weather, again: Remote, reply2: string -> Reply, i: nat)
    requires r.configured && r.readableAgain && NextRun(r, reply, w, again) && GoodTasks(again.tasks)
    requires i < |Mirrored(again, reply2)|
    ensures |Mirrored(r, reply)| <= |Mirrored(again, reply2)|
    ensures var first, second := Mirrored(r, reply), Mirrored(again, reply2);
            if i < |first| then
              && (NeedsPush(second[i]) <==> Unlinked(first[i], w))
              && (NeedsPush(second[i]) ==> second[i] == first[i])
            else !NeedsPush(second[i])
  {
    hide Content, TaskToProperties, Clean;
    var first, second := Mirrored(r, reply), Mirrored(again, reply2);
    if i < |first| {
      if NeedsPush(first[i]) {
        PushedAgainIffNotLinked(first[i], w);
      }
      SyncedKeepsId(again.items, again.tasks, false, {}, reply2, i);
      assert again.items[i] == Pushed(first[i], w);
    } else {
      NewPageHasId(again.items, again.tasks, reply2, again.next, i - |again.items|);
    }
  }

  lemma NewPageHasId(items: seq<Item>, tasks: seq<Task>, reply: string -> Reply, next: nat, j: nat)
    requires GoodTasks(tasks) && j < |NewItems(items, tasks, false, reply, next)|
    ensures StoredId(NewItems(items, tasks, false, reply, next)[j]) != ""
  {
    NewIds(items, tasks, false, reply, next);
  }

  /** So the next run creates exactly one task for every page the first one did not link, provided Todoist accepts the
      requests; every other titled page is left in peace. */
  lemma SecondRunRepeats(r: Remote, reply: string -> Reply, w: Weather, again: Remote, reply2: string -> Reply,
                         w2: Weather)
    requires r.configured && r.readableAgain && NextRun(r, reply, w, again) && GoodTasks(again.tasks)
    requires forall page :: !w2.post(page).Refused?
    ensures |PushedTasks(Mirrored(again, reply2), w2)| == CountUnlinked(Mirrored(r, reply), w)
    ensures |AfterTasks(again, false, reply2, w2)| == |again.tasks| + CountUnlinked(Mirrored(r, reply), w)
  {
    var first, second := Mirrored(r, reply), Mirrored(again, reply2);
    forall i | 0 <= i < |second|
      ensures NeedsPush(second[i]) <==> i < |first| && Unlinked(first[i], w)
    {
      SecondRunFinds(r, reply, w, again, reply2, i);
    }
    SecondHasFirst(r, reply, w, again, reply2);
    assert AfterTasks(again, false, reply2, w2) == again.tasks + PushedTasks(second, w2);
    hide *;
    PushesMatch(first, second, w, w2);
  }

  lemma {:induction false} PushesMatch(first: seq<Item>, second: seq<Item>, w: Weather, w2: Weather)
    requires |first| <= |second| && forall page :: !w2.post(page).Refused?
    requires forall i :: 0 <= i < |second| ==> (NeedsPush(second[i]) <==> i < |first| && Unlinked(first[i], w))
    ensures |PushedTasks(second, w2)| == CountUnlinked(first, w)
  {
    hide NeedsPush, Unlinked;
    if second != [] {
      var n := |second| - 1;
      if |first| == |second| {
        assert forall i :: 0 <= i < n ==> first[..n][i] == first[i] && second[..n][i] == second[i];
        PushesMatch(first[..n], second[..n], w, w2);
      } else {
        assert forall i :: 0 <= i < n ==> second[..n][i] == second[i];
        PushesMatch(first, second[..n], w, w2);
      }
    }
  }

  lemma {:induction false} TaskOfPageIsThere(items: seq<Item>, w: Weather, i: nat) returns (k: nat)
    requires i < |items| && NeedsPush(items[i]) && !w.post(items[i].page).Refused?
    ensures k < |PushedTasks(items, w)| && PushedTasks(items, w)[k].content == Content(items[i])
  {
    hide Content, NeedsPush;
    var n := |items| - 1;
    if i < n {
      k := TaskOfPageIsThere(items[..n], w, i);
    } else {
      k := |PushedTasks(items[..n], w)|;
    }
  }

  /** One failed link is enough for two tasks with the same content: the run in which it fails and the next one create
      one each. */
  lemma FailedLinkDuplicates(r: Remote, reply: string -> Reply, w: Weather, again: Remote, reply2: string -> Reply,
                             w2: Weather, i: nat) returns (k: nat, l: nat)
    requires r.configured && r.readableAgain && NextRun(r, reply, w, again) && GoodTasks(again.tasks)
    requires i < |Mirrored(r, reply)| && Unlinked(Mirrored(r, reply)[i], w)
    requires !w.post(Mirrored(r, reply)[i].page).Refused? && !w2.post(Mirrored(r, reply)[i].page).Refused?
    ensures var tasks := AfterTasks(again, false, reply2, w2);
            && |r.tasks| <= k < |again.tasks| <= l < |tasks|
            && tasks[k].content == tasks[l].content == Content(Mirrored(r, reply)[i])
  {
    hide Content, NeedsPush, Links, Mirrored, PushedTasks;
    SecondHasFirst(r, reply, w, again, reply2);
    SecondRunFinds(r, reply, w, again, reply2, i);
    k := TaskOfPageIsThere(Mirrored(r, reply), w, i);
    l := TaskOfPageIsThere(Mirrored(again, reply2), w2, i);
    k, l := |r.tasks| + k, |again.tasks| + l;
  }

  lemma SecondHasFirst(r: Remote, reply: string -> Reply, w: Weather, again: Remote, reply2: string -> Reply)
    requires r.configured && r.readableAgain && NextRun(r, reply, w, again)
    ensures |Mirrored(r, reply)| <= |Mirrored(again, reply2)|
  {}
}
