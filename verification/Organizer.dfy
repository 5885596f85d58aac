/** The board reorganiser of src/brain/organizer.py: moving tasks to the sections their attributes call for and
    labelling unlabelled ones, through API calls any of which may fail.

    Days are day numbers; `lower` is `str.lower` and `keywords` the table of words that call for a label. */
module Organizer {
  import opened Options
  import opened Texts

  /** A task as the board stores it; its section's name is looked up when it is read. */
  datatype Task = Task(id: string, content: string, description: string, section: string, priority: int,
                       labels: seq<string>, due: Option<int>, recurring: bool)

  datatype Section = Section(id: string, name: string)

  /** The labels that can be inferred, in the order of the table. */
  const LABELS: seq<string> := ["Manutenção", "Tecnologia", "Finanças", "Burocracia", "Saúde", "Lojas",
                                "Entretenimento", "decoração", "Família"]

  datatype Rules = Rules(lower: string -> string, keywords: string -> seq<string>)

  // ----- labels -----

  predicate Mentions(text: string, words: seq<string>) {
    exists i | 0 <= i < |words| :: Contains(text, words[i])
  }

  function TextOf(t: Task, rules: Rules): string { rules.lower(t.content + " " + t.description) }

  /** The labels among `labels` one of whose words occurs in the text. */
  function Mentioned(labels: seq<string>, text: string, rules: Rules): seq<string> {
    if labels == [] then [] else
      var n := |labels| - 1;
      Mentioned(labels[..n], text, rules) + (if Mentions(text, rules.keywords(labels[n])) then [labels[n]] else [])
  }

  method InferLabels(t: Task, rules: Rules) returns (suggested: seq<string>)
    ensures suggested == Mentioned(LABELS, TextOf(t, rules), rules)
  {
    hide TextOf, Contains;
    var text := TextOf(t, rules);
    suggested := [];
    for n := 0 to |LABELS|
      invariant suggested == Mentioned(LABELS[..n], text, rules)
    {
      assert LABELS[..n + 1][..n] == LABELS[..n];
      var tag := LABELS[n];
      var words := rules.keywords(tag);
      ghost var before := suggested;
      for k := 0 to |words|
        invariant suggested == before
        invariant forall i :: 0 <= i < k ==> !Contains(text, words[i])
      {
        if Contains(text, words[k]) {
          suggested := suggested + [tag];
          break;
        }
      }
    }
    assert LABELS[..|LABELS|] == LABELS;
  }

  /** A label is suggested if and only if it is in the table and one of its words occurs. */
  lemma {:induction false} MentionedIff(labels: seq<string>, text: string, rules: Rules, tag: string)
    ensures tag in Mentioned(labels, text, rules) <==> tag in labels && Mentions(text, rules.keywords(tag))
  {
    hide Mentions;
    if labels != [] {
      var n := |labels| - 1;
      MentionedIff(labels[..n], text, rules, tag);
      assert labels == labels[..n] + [labels[n]];
    }
  }

  // ----- sections -----

  predicate Distinct(sections: seq<Section>) {
    forall i, j :: 0 <= i < j < |sections| ==> sections[i].id != sections[j].id
  }

  /** The name of a section id, "" if there is none. */
  function NameOf(sections: seq<Section>, id: string): string {
    if sections == [] || id == "" then ""
    else if sections[0].id == id then sections[0].name
    else NameOf(sections[1..], id)
  }

  /** The first section of that name, "" if there is none. */
  function FirstNamed(sections: seq<Section>, name: string): string {
    if sections == [] then ""
    else if sections[0].name == name then sections[0].id
    else FirstNamed(sections[1..], name)
  }

  lemma {:induction false} FirstNamedHasName(sections: seq<Section>, name: string)
    requires Distinct(sections)
    ensures FirstNamed(sections, name) != "" ==>
              (exists i :: 0 <= i < |sections| && sections[i].id == FirstNamed(sections, name))
              && NameOf(sections, FirstNamed(sections, name)) == name
  {
    if sections != [] && sections[0].name != name {
      FirstNamedHasName(sections[1..], name);
      var id := FirstNamed(sections[1..], name);
      if id != "" {
        var i :| 0 <= i < |sections[1..]| && sections[1..][i].id == id;
        assert sections[i + 1].id == id;
      }
    }
  }

  const URGENT := "To Do - Urgent/Today"

  predicate IsPlanner(name: string) {
    name == "Daily Planner" || name == "Weekly Planner" || name == "Weekend Planner"
  }

  /** `_ideal_section_name`, given the name of the section the task is in. */
  function Ideal(t: Task, current: string, today: int): Option<string> {
    if "blocked" in t.labels then Some("Blocked")
    else if t.recurring then Some("Ongoing recurring")
    else if IsPlanner(current) then None
    else if t.due.Some? && t.due.value <= today then Some(URGENT)
    else if t.due.Some? && t.due.value - today <= 2 && t.priority >= 3 then Some(URGENT)
    else if t.priority == 4 then Some(URGENT)
    else if t.priority == 3 then Some("To Do - High")
    else if t.priority == 2 then Some("To Do - Normal")
    else if t.priority == 1 then if t.due.Some? then Some("To Do - Low") else Some("Backlog")
    else None
  }

  /** Time passing and rising priority never take a task out of the urgent section. */
  lemma UrgencyOnlyGrows(t: Task, current: string, today: int, later: int, priority: int)
    requires today <= later && t.priority <= priority <= 4
    requires Ideal(t, current, today) == Some(URGENT)
    ensures Ideal(t.(priority := priority), current, later) == Some(URGENT)
  {}

  /** A task has no ideal section if and only if it is neither blocked nor recurring, and is in a planner section or has
      an unknown priority and no urgent due day. */
  lemma NoIdealIff(t: Task, current: string, today: int)
    ensures Ideal(t, current, today) == None
       <==> && "blocked" !in t.labels && !t.recurring
            && (|| IsPlanner(current)
                || (!(1 <= t.priority <= 4)
                    && (t.due.Some? ==> t.due.value > today && (t.priority >= 3 ==> t.due.value > today + 2))))
  {}

  /** `suggest_section`: "" stands for no suggestion. */
  function Suggest(t: Task, sections: seq<Section>, today: int): string {
    var current := NameOf(sections, t.section);
    match Ideal(t, current, today)
    case None => ""
    case Some(name) => if name == current then "" else FirstNamed(sections, name)
  }

  // ----- a run -----

  /** What becomes of an API call: it succeeds, is applied although it raises (a lost reply), or is refused. */
  datatype Reply = Ok | LostReply | Refused {
    predicate Applied() { Ok? || LostReply? }
  }

  datatype Move = Move(id: string, from: string, to: string)
  datatype Labelling = Labelling(id: string, labels: seq<string>)
  datatype Failure = NoProject | MoveFailed(id: string) | LabelFailed(id: string)

  datatype Report = Report(moved: nat, labelled: nat, errors: seq<Failure>, moves: seq<Move>,
                           labellings: seq<Labelling>)

  /** The settings of a run. */
  datatype Run = Run(sections: seq<Section>, rules: Rules, today: int, moveTasks: bool, autoLabel: bool,
                     moveReply: string -> Reply, labelReply: string -> Reply)
  {
    /** The section the task is to be moved to, "" for none. */
    function Target(t: Task): string {
      var id := Suggest(t, sections, today);
      if moveTasks && id != "" && id != t.section then id else ""
    }

    /** The labels the task is to be given, none for none. */
    function NewLabels(t: Task): seq<string> {
      if autoLabel && t.labels == [] then Mentioned(LABELS, TextOf(t, rules), rules) else []
    }

    /** The task after the run's API calls. */
    function After(t: Task): Task {
      t.(section := if Target(t) != "" && moveReply(t.id).Applied() then Target(t) else t.section,
         labels := if NewLabels(t) != [] && labelReply(t.id).Applied() then NewLabels(t) else t.labels)
    }

    function AfterAll(tasks: seq<Task>): seq<Task> {
      seq(|tasks|, i requires 0 <= i < |tasks| => After(tasks[i]))
    }

    function MovesOf(t: Task): seq<Move> {
      if Target(t) != "" then [Move(t.id, NameOf(sections, t.section), Target(t))] else []
    }

    function LabellingsOf(t: Task): seq<Labelling> {
      if NewLabels(t) != [] then [Labelling(t.id, NewLabels(t))] else []
    }

    function Moves(tasks: seq<Task>): seq<Move> {
      if tasks == [] then [] else Moves(tasks[..|tasks| - 1]) + MovesOf(tasks[|tasks| - 1])
    }

    function Labellings(tasks: seq<Task>): seq<Labelling> {
      if tasks == [] then [] else Labellings(tasks[..|tasks| - 1]) + LabellingsOf(tasks[|tasks| - 1])
    }

    /** The failed calls, in the order they are made. */
    function Failures(tasks: seq<Task>): seq<Failure> {
      if tasks == [] then [] else
        var t := tasks[|tasks| - 1];
        Failures(tasks[..|tasks| - 1])
        + (if Target(t) != "" && !moveReply(t.id).Ok? then [MoveFailed(t.id)] else [])
        + (if NewLabels(t) != [] && !labelReply(t.id).Ok? then [LabelFailed(t.id)] else [])
    }

    function MovesDone(tasks: seq<Task>): nat {
      if tasks == [] then 0 else
        var t := tasks[|tasks| - 1];
        MovesDone(tasks[..|tasks| - 1]) + (if Target(t) != "" && moveReply(t.id).Ok? then 1 else 0)
    }

    function LabellingsDone(tasks: seq<Task>): nat {
      if tasks == [] then 0 else
        var t := tasks[|tasks| - 1];
        LabellingsDone(tasks[..|tasks| - 1]) + (if NewLabels(t) != [] && labelReply(t.id).Ok? then 1 else 0)
    }

    /** The report of an applied run. */
    function Applied(tasks: seq<Task>): Report {
      Report(MovesDone(tasks), LabellingsDone(tasks), Failures(tasks), Moves(tasks), Labellings(tasks))
    }

    /** The report on the tasks dealt with so far. */
    function Progress(tasks: seq<Task>, dryRun: bool): Report {
      if dryRun then Report(0, 0, [], Moves(tasks), Labellings(tasks)) else Applied(tasks)
    }

    /** What dealing with one task's section adds to a report. */
    function MoveStep(r: Report, t: Task, dryRun: bool): Report {
      if Target(t) == "" then r
      else if dryRun then r.(moves := r.moves + MovesOf(t))
      else if moveReply(t.id).Ok? then r.(moves := r.moves + MovesOf(t), moved := r.moved + 1)
      else r.(moves := r.moves + MovesOf(t), errors := r.errors + [MoveFailed(t.id)])
    }

    function LabelStep(r: Report, t: Task, dryRun: bool): Report {
      if NewLabels(t) == [] then r
      else if dryRun then r.(labellings := r.labellings + LabellingsOf(t))
      else if labelReply(t.id).Ok? then r.(labellings := r.labellings + LabellingsOf(t), labelled := r.labelled + 1)
      else r.(labellings := r.labellings + LabellingsOf(t), errors := r.errors + [LabelFailed(t.id)])
    }

    /** The report of a dry run. */
    function Dry(tasks: seq<Task>): Report {
      Report(|Moves(tasks)|, |Labellings(tasks)|, [], Moves(tasks), Labellings(tasks))
    }
  }

  predicate DistinctIds(tasks: seq<Task>) {
    forall i, j :: 0 <= i < j < |tasks| ==> tasks[i].id != tasks[j].id
  }

  /** The tasks after a call that gives task `id` another section. */
  function WithSection(tasks: seq<Task>, id: string, section: string): seq<Task> {
    seq(|tasks|, i requires 0 <= i < |tasks| => if tasks[i].id == id then tasks[i].(section := section) else tasks[i])
  }

  function WithLabels(tasks: seq<Task>, id: string, labels: seq<string>): seq<Task> {
    seq(|tasks|, i requires 0 <= i < |tasks| => if tasks[i].id == id then tasks[i].(labels := labels) else tasks[i])
  }

  /** The first `n` tasks after the run, the others before it. */
  ghost predicate DoneUpTo(now: seq<Task>, tasks: seq<Task>, run: Run, n: nat) {
    && |now| == |tasks| && n <= |tasks|
    && (forall i :: 0 <= i < n ==> now[i] == run.After(tasks[i]))
    && (forall i :: n <= i < |tasks| ==> now[i] == tasks[i])
  }

  lemma DoneOneMore(now: seq<Task>, after: seq<Task>, tasks: seq<Task>, run: Run, n: nat)
    requires DistinctIds(tasks) && DoneUpTo(now, tasks, run, n) && n < |tasks|
    requires var t := tasks[n];
             var moved := if run.Target(t) != "" && run.moveReply(t.id).Applied()
                          then WithSection(now, t.id, run.Target(t)) else now;
             after == if run.NewLabels(t) != [] && run.labelReply(t.id).Applied()
                      then WithLabels(moved, t.id, run.NewLabels(t)) else moved
    ensures DoneUpTo(after, tasks, run, n + 1)
  {
    assert forall i :: 0 <= i < |now| ==> now[i].id == tasks[i].id;
    assert forall i :: 0 <= i < |now| && i != n ==> tasks[i].id != tasks[n].id;
  }

  lemma ReportsGrow(tasks: seq<Task>, run: Run, dryRun: bool, n: nat)
    requires n < |tasks|
    ensures run.Progress(tasks[..n + 1], dryRun)
         == run.LabelStep(run.MoveStep(run.Progress(tasks[..n], dryRun), tasks[n], dryRun), tasks[n], dryRun)
  {
    assert tasks[..n + 1][..n] == tasks[..n];
    hide NameOf, Suggest, Mentioned, TextOf;
  }

  lemma RunStarts(tasks: seq<Task>, run: Run, dryRun: bool)
    ensures run.Progress(tasks[..0], dryRun) == Report(0, 0, [], [], []) && DoneUpTo(tasks, tasks, run, 0)
  {}

  lemma RunEnds(now: seq<Task>, tasks: seq<Task>, run: Run)
    ensures DoneUpTo(now, tasks, run, |tasks|) ==> now == run.AfterAll(tasks)
    ensures run.Progress(tasks, false) == run.Applied(tasks)
    ensures var planned := run.Progress(tasks, true);
            planned.(moved := |planned.moves|, labelled := |planned.labellings|) == run.Dry(tasks)
  {}

  /** The remote board. */
  class Board {
    var tasks: seq<Task>

    constructor (tasks: seq<Task>)
      ensures this.tasks == tasks
    {
      this.tasks := tasks;
    }

    method MoveTask(id: string, section: string, reply: Reply) returns (ok: bool)
      modifies this
      ensures ok == reply.Ok?
      ensures tasks == if reply.Applied() then WithSection(old(tasks), id, section) else old(tasks)
    {
      if reply.Applied() {
        tasks := WithSection(tasks, id, section);
      }
      ok := reply.Ok?;
    }

    method UpdateLabels(id: string, labels: seq<string>, reply: Reply) returns (ok: bool)
      modifies this
      ensures ok == reply.Ok?
      ensures tasks == if reply.Applied() then WithLabels(old(tasks), id, labels) else old(tasks)
    {
      if reply.Applied() {
        tasks := WithLabels(tasks, id, labels);
      }
      ok := reply.Ok?;
    }

    /** Moves the task if it is not where it should be. */
    method PlaceTask(task: Task, run: Run, dryRun: bool, report: Report) returns (next: Report)
      modifies this
      ensures next == run.MoveStep(report, task, dryRun)
      ensures tasks == if !dryRun && run.Target(task) != "" && run.moveReply(task.id).Applied()
                       then WithSection(old(tasks), task.id, run.Target(task)) else old(tasks)
    {
      hide Suggest, NameOf, WithSection;
      next := report;
      if run.moveTasks {
        var ideal := Suggest(task, run.sections, run.today);
        if ideal != "" && ideal != task.section {
          next := next.(moves := next.moves + [Move(task.id, NameOf(run.sections, task.section), ideal)]);
          if !dryRun {
            var ok := MoveTask(task.id, ideal, run.moveReply(task.id));
            next := if ok then next.(moved := next.moved + 1) else next.(errors := next.errors + [MoveFailed(task.id)]);
          }
        }
      }
    }

    /** Labels the task if it has no labels. */
    method LabelTask(task: Task, run: Run, dryRun: bool, report: Report) returns (next: Report)
      modifies this
      ensures next == run.LabelStep(report, task, dryRun)
      ensures tasks == if !dryRun && run.NewLabels(task) != [] && run.labelReply(task.id).Applied()
                       then WithLabels(old(tasks), task.id, run.NewLabels(task)) else old(tasks)
    {
      hide Mentioned, TextOf, WithLabels;
      next := report;
      if run.autoLabel && task.labels == [] {
        var suggestions := InferLabels(task, run.rules);
        if suggestions != [] {
          next := next.(labellings := next.labellings + [Labelling(task.id, suggestions)]);
          if !dryRun {
            var ok := UpdateLabels(task.id, suggestions, run.labelReply(task.id));
            next := if ok then next.(labelled := next.labelled + 1)
                    else next.(errors := next.errors + [LabelFailed(task.id)]);
          }
        }
      }
    }

    /** `reorganize_board`: the tasks are read once, then moved and labelled one by one. */
    method Reorganize(project: string, run: Run, dryRun: bool) returns (report: Report)
      requires DistinctIds(tasks)
      modifies this
      ensures project == "" ==> report == Report(0, 0, [NoProject], [], []) && tasks == old(tasks)
      ensures project != "" && dryRun ==> report == run.Dry(old(tasks)) && tasks == old(tasks)
      ensures project != "" && !dryRun ==> report == run.Applied(old(tasks)) && tasks == run.AfterAll(old(tasks))
    {
      if project == "" {
        return Report(0, 0, [NoProject], [], []);
      }
      var read := tasks;
      RunStarts(read, run, dryRun);
      hide *;
      report := Report(0, 0, [], [], []);
      for n := 0 to |read|
        invariant report == run.Progress(read[..n], dryRun)
        invariant if dryRun then tasks == read else DoneUpTo(tasks, read, run, n)
      {
        ReportsGrow(read, run, dryRun, n);
        ghost var before := tasks;
        report := PlaceTask(read[n], run, dryRun, report);
        report := LabelTask(read[n], run, dryRun, report);
        if !dryRun {
          DoneOneMore(before, tasks, read, run, n);
        }
      }
      assert read[..|read|] == read;
      RunEnds(tasks, read, run);
      if dryRun {
        report := report.(moved := |report.moves|, labelled := |report.labellings|);
      }
    }
  }

  // ----- what a run achieves -----

  /** Two runs with the same settings on the same day, whatever the API replies. */
  ghost predicate Alike(a: Run, b: Run) {
    a.sections == b.sections && a.rules == b.rules && a.today == b.today && a.moveTasks == b.moveTasks
    && a.autoLabel == b.autoLabel
  }

  /** A task that was moved is where it should be, also after it was labelled. */
  lemma IdealIsReached(t: Task, run: Run)
    requires Distinct(run.sections)
    ensures run.Target(t) != "" ==>
              var there := run.After(t).(section := run.Target(t));
              Suggest(there, run.sections, run.today) == ""
  {
    if run.Target(t) != "" {
      var current := NameOf(run.sections, t.section);
      var name := Ideal(t, current, run.today).value;
      FirstNamedHasName(run.sections, name);
      LabelsDoNotBlock(t, run);
      hide NameOf, FirstNamed, Mentioned, TextOf;
      assert !IsPlanner(name);
    }
  }

  /** No label that can be inferred is the one that calls for the section of blocked tasks. */
  lemma LabelsDoNotBlock(t: Task, run: Run)
    ensures "blocked" in run.After(t).labels <==> "blocked" in t.labels
  {
    if run.NewLabels(t) != [] {
      MentionedIff(LABELS, TextOf(t, run.rules), run.rules, "blocked");
      hide Mentioned, TextOf;
      assert forall i :: 0 <= i < |LABELS| ==> LABELS[i][0] != 'b';
    }
  }

  lemma SameSuggestion(t: Task, run: Run)
    ensures run.After(t).section == t.section ==>
              Suggest(run.After(t), run.sections, run.today) == Suggest(t, run.sections, run.today)
  {
    LabelsDoNotBlock(t, run);
    hide NameOf, FirstNamed, Mentioned, TextOf;
  }

  /** What a run leaves to do: a second run proposes a move or labels for a task if and only if the first did and its
      call was not applied. */
  lemma SecondProposesIff(t: Task, run: Run, again: Run)
    requires Distinct(run.sections) && Alike(run, again)
    ensures again.Target(run.After(t)) == if run.moveReply(t.id).Applied() then "" else run.Target(t)
    ensures again.NewLabels(run.After(t)) == if run.labelReply(t.id).Applied() then [] else run.NewLabels(t)
  {
    IdealIsReached(t, run);
    SameSuggestion(t, run);
    assert TextOf(run.After(t), run.rules) == TextOf(t, run.rules);
    hide Suggest, Mentioned, TextOf;
  }

  ghost predicate NoFailures(run: Run) {
    (forall id :: run.moveReply(id).Ok?) && (forall id :: run.labelReply(id).Ok?)
  }

  /** A run in which every call succeeds reaches a fixpoint: a further run proposes nothing and changes nothing. */
  lemma {:induction false} OneRunSettles(tasks: seq<Task>, run: Run, again: Run)
    requires Distinct(run.sections) && Alike(run, again) && NoFailures(run)
    ensures again.Applied(run.AfterAll(tasks)) == Report(0, 0, [], [], [])
    ensures again.AfterAll(run.AfterAll(tasks)) == run.AfterAll(tasks)
  {
    var after := run.AfterAll(tasks);
    forall i | 0 <= i < |tasks| ensures again.After(after[i]) == after[i] {
      SecondProposesIff(tasks[i], run, again);
    }
    assert again.AfterAll(after) == after;
    if tasks != [] {
      var n := |tasks| - 1;
      OneRunSettles(tasks[..n], run, again);
      assert run.AfterAll(tasks[..n]) == after[..n];
      SecondProposesIff(tasks[n], run, again);
      assert after[n] == run.After(tasks[n]);
    }
  }

  /** A dry run reports what a run in which every call succeeds does. */
  lemma {:induction false} DryRunForetells(tasks: seq<Task>, run: Run)
    requires NoFailures(run)
    ensures run.Dry(tasks) == run.Applied(tasks)
  {
    if tasks != [] {
      DryRunForetells(tasks[..|tasks| - 1], run);
    }
  }

  /** Whatever fails, no task is lost or changed but for its section and labels, and every proposal either succeeded or
      is among the errors. */
  lemma {:induction false} NothingIsLost(tasks: seq<Task>, run: Run)
    ensures |run.AfterAll(tasks)| == |tasks|
    ensures forall i :: 0 <= i < |tasks| ==>
              run.AfterAll(tasks)[i].(section := tasks[i].section, labels := tasks[i].labels) == tasks[i]
    ensures var report := run.Applied(tasks);
            report.moved + report.labelled + |report.errors| == |report.moves| + |report.labellings|
  {
    if tasks != [] {
      NothingIsLost(tasks[..|tasks| - 1], run);
    }
  }
}
