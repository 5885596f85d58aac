/** What a Notion task database looks like to the synchroniser of src/brain/notion.py: pages with properties, one of
    which may hold the id of the Todoist task the page mirrors. */
module NotionTable {

  datatype Prop = Name | Priority | Status | TodoistId | TodoistUrl | DueDate | Labels | Duration | Notes | Section

  datatype Value =
    | Text(text: string)
    | Choice(name: string)
    | Link(url: string)       // "" stands for no URL
    | Date(start: string)
    | Names(names: seq<string>)
    | Number(number: int)

  type Props = map<Prop, Value>

  datatype Item = Item(page: nat, props: Props)

  /** The fields of a Todoist task the synchroniser reads; "" and 0 stand for absent. */
  datatype Task = Task(id: string, content: string, description: string, sectionName: string, priority: int,
                       labels: seq<string>, dueDate: string, dueDatetime: string, dueHasTime: bool,
                       durationMinutes: int, url: string)

  // ----- sanitising -----

  /** C0 and C1 control characters except tab, newline and carriage return. */
  predicate IsControl(c: char) {
    var n := c as int;
    n <= 0x08 || n == 0x0b || n == 0x0c || 0x0e <= n <= 0x1f || 0x7f <= n <= 0x9f
  }

  function DropControl(text: string): string {
    if text == "" then ""
    else (if IsControl(text[0]) then "" else [text[0]]) + DropControl(text[1..])
  }

  function Sanitize(text: string, maxLen: nat): string {
    var kept := DropControl(text);
    if |kept| <= maxLen then kept else kept[..maxLen]
  }

  /** A text that sanitising leaves alone. */
  ghost predicate Clean(text: string, maxLen: nat) {
    |text| <= maxLen && forall i :: 0 <= i < |text| ==> !IsControl(text[i])
  }

  lemma {:induction false} DropControlDrops(text: string)
    ensures |DropControl(text)| <= |text|
    ensures forall i :: 0 <= i < |DropControl(text)| ==> !IsControl(DropControl(text)[i])
    ensures (forall i :: 0 <= i < |text| ==> !IsControl(text[i])) ==> DropControl(text) == text
  {
    if text != "" {
      DropControlDrops(text[1..]);
    }
  }

  /** Sanitised texts are clean, and exactly the clean ones are left alone. */
  lemma SanitizeCleans(text: string, maxLen: nat)
    ensures Clean(Sanitize(text, maxLen), maxLen)
    ensures Sanitize(text, maxLen) == text <==> Clean(text, maxLen)
  {
    DropControlDrops(text);
  }

  // ----- properties -----

  const ID_LENGTH: nat := 100
  const TODO := Choice("\U{1F4CB} Todo")
  const DONE := Choice("\U{2705} Done")

  function PriorityName(priority: int): string {
    if priority == 4 then "\U{1F534} P1 Urgent"
    else if priority == 3 then "\U{1F7E0} P2 High"
    else if priority == 2 then "\U{1F7E1} P3 Normal"
    else "\U{26AA} P4 Low"
  }

  function SanitizeAll(texts: seq<string>, maxLen: nat): seq<string> {
    seq(|texts|, i requires 0 <= i < |texts| => Sanitize(texts[i], maxLen))
  }

  /** The properties written for a task.  Optional ones are left out when the task does not have them. */
  function TaskToProperties(task: Task, includeSection: bool): Props {
    var base: Props := map[
      Name := Text(Sanitize(task.content, 2000)),
      Priority := Choice(PriorityName(task.priority)),
      Status := TODO,
      TodoistId := Text(Sanitize(task.id, ID_LENGTH)),
      TodoistUrl := Link(task.url)];
    base
    + (if task.dueDate == "" then map[]
       else if task.dueDatetime != "" && task.dueHasTime then map[DueDate := Date(task.dueDatetime)]
       else map[DueDate := Date(task.dueDate)])
    + (if task.labels == [] then map[] else map[Labels := Names(SanitizeAll(task.labels, 100))])
    + (if task.durationMinutes == 0 then map[] else map[Duration := Number(task.durationMinutes)])
    + (if task.description == "" then map[] else map[Notes := Text(Sanitize(task.description, 2000))])
    + (if !includeSection then map[]
       else map[Section := Choice(Sanitize(if task.sectionName == "" then "No Section" else task.sectionName, 100))])
  }

  /** The Todoist id a page holds, "" for none. */
  function StoredId(item: Item): string {
    if TodoistId in item.props && item.props[TodoistId].Text? then item.props[TodoistId].text else ""
  }

  lemma EmittedId(task: Task, includeSection: bool, page: nat)
    ensures TodoistId in TaskToProperties(task, includeSection)
    ensures StoredId(Item(page, TaskToProperties(task, includeSection))) == Sanitize(task.id, ID_LENGTH)
    ensures Status in TaskToProperties(task, includeSection)
  {}

  /** The effect of an update request on a page: the properties sent replace the old ones, others stay. */
  function Merge(item: Item, props: Props): Item {
    item.(props := item.props + props)
  }

  ghost predicate DistinctPages(items: seq<Item>) {
    forall i, j :: 0 <= i < j < |items| ==> items[i].page != items[j].page
  }

  /** At most one page per Todoist id. */
  ghost predicate UniqueIds(items: seq<Item>) {
    forall i, j :: 0 <= i < j < |items| && StoredId(items[i]) != "" ==> StoredId(items[i]) != StoredId(items[j])
  }

  ghost predicate DistinctTasks(tasks: seq<Task>) {
    forall i, j :: 0 <= i < j < |tasks| ==> tasks[i].id != tasks[j].id
  }

  /** What became of a request: it was done; it failed and had no effect; or it had its effect but the reply was lost,
      so that the caller saw a failure. */
  datatype Reply = Done | Failed | Lost {
    predicate Applied() { this != Failed }
  }

  class NotionDatabase {
    var items: seq<Item>
    var nextPage: nat

    ghost predicate Valid()
      reads this
    {
      DistinctPages(items) && forall i :: 0 <= i < |items| ==> items[i].page < nextPage
    }

    constructor (items: seq<Item>, nextPage: nat)
      requires DistinctPages(items) && forall i :: 0 <= i < |items| ==> items[i].page < nextPage
      ensures Valid() && this.items == items && this.nextPage == nextPage
    {
      this.items := items;
      this.nextPage := nextPage;
    }

    method UpdatePage(page: nat, props: Props, reply: Reply) returns (raised: bool)
      requires Valid()
      modifies this`items
      ensures Valid() && raised == (reply != Done)
      ensures items == if reply.Applied() then MergeAt(old(items), page, props) else old(items)
    {
      if reply.Applied() {
        items := MergeAt(items, page, props);
      }
      raised := reply != Done;
    }

    method CreatePage(props: Props, reply: Reply) returns (raised: bool)
      requires Valid()
      modifies this
      ensures Valid() && raised == (reply != Done)
      ensures items == if reply.Applied() then old(items) + [Item(old(nextPage), props)] else old(items)
      ensures nextPage == if reply.Applied() then old(nextPage) + 1 else old(nextPage)
    {
      if reply.Applied() {
        items := items + [Item(nextPage, props)];
        nextPage := nextPage + 1;
      }
      raised := reply != Done;
    }
  }

  function MergeAt(items: seq<Item>, page: nat, props: Props): (r: seq<Item>)
    ensures |r| == |items|
    ensures forall i :: 0 <= i < |r| ==> r[i].page == items[i].page
  {
    seq(|items|, i requires 0 <= i < |items| =>
      if items[i].page == page then Merge(items[i], props) else items[i])
  }
}
