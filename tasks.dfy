/** The task manager (src/components/TodoApp.tsx): the pure list transformations behind
    its handlers, the filtered view and the statistics, and the component state they
    replace. Ids and clock readings are parameters; ids are not assumed unique. */
module Tasks {
  import opened Optional
  import opened Seqs
  import opened Text

  datatype Priority = Low | Medium | High

  /** The `priority` string a task carries and the priority filter compares against. */
  function PriorityName(p: Priority): string {
    match p
    case Low => "low"
    case Medium => "medium"
    case High => "high"
  }

  /** A stored task. Times are milliseconds since the epoch. */
  datatype Task = Task(
    id: string,
    title: string,
    description: string,
    category: string,
    priority: Priority,
    completed: bool,
    createdAt: int,
    dueDate: Option<int>)

  /** The new-task form (`newTask`); a due date left blank is `None`. */
  datatype Draft = Draft(
    title: string,
    description: string,
    category: string,
    priority: Priority,
    dueDate: Option<int>)

  /** The form as the component initialises it and resets it after a successful add. */
  const EmptyDraft := Draft("", "", "personal", Medium, None)

  /** `Partial<Task>`: each field present (`Some`) or absent (`None`). A present
      `dueDate` may itself be `undefined`, hence the nested option. */
  datatype TaskPatch = TaskPatch(
    id: Option<string>,
    title: Option<string>,
    description: Option<string>,
    category: Option<string>,
    priority: Option<Priority>,
    completed: Option<bool>,
    createdAt: Option<int>,
    dueDate: Option<Option<int>>)

  const NoChanges := TaskPatch(None, None, None, None, None, None, None, None)

  /** The search box, the two selects and the show-completed toggle. */
  datatype TaskFilter = TaskFilter(
    searchTerm: string,
    category: string,
    priority: string,
    showCompleted: bool)

  const InitialFilter := TaskFilter("", "all", "all", true)

  // ---------------------------------------------------------------------------
  // addTask
  // ---------------------------------------------------------------------------

  /** `!title.trim()`: the validation that rejects a task. */
  predicate IsBlank(title: string) {
    Trim(title) == ""
  }

  /** The task `addTask` builds from the form. */
  function NewTask(d: Draft, id: string, now: int): Task {
    Task(id, d.title, d.description, d.category, d.priority, false, now, d.dueDate)
  }

  /** The task list after `addTask`: unchanged when the title is blank, otherwise the
      new task in front of the old list. */
  function Added(tasks: seq<Task>, d: Draft, id: string, now: int): seq<Task> {
    if IsBlank(d.title) then tasks else [NewTask(d, id, now)] + tasks
  }

  lemma AddedSpec(tasks: seq<Task>, d: Draft, id: string, now: int)
    ensures var r := Added(tasks, d, id, now);
      && (AllWhitespace(d.title) ==> r == tasks)
      && (!AllWhitespace(d.title) ==>
            && |r| == |tasks| + 1
            && r[1..] == tasks
            && r[0].id == id && r[0].title == d.title && r[0].description == d.description
            && r[0].category == d.category && r[0].priority == d.priority
            && !r[0].completed && r[0].createdAt == now && r[0].dueDate == d.dueDate)
  {
    TrimEmptyIff(d.title);
  }

  // ---------------------------------------------------------------------------
  // toggleTask, deleteTask, updateTask
  // ---------------------------------------------------------------------------

  /** `toggleTask`: every task with the id gets the opposite completion flag; all
      other tasks are kept as they are. */
  function Toggled(tasks: seq<Task>, id: string): (r: seq<Task>)
    ensures |r| == |tasks|
    ensures forall i :: 0 <= i < |tasks| ==>
      && r[i].completed == (tasks[i].completed != (tasks[i].id == id))
      && r[i].(completed := tasks[i].completed) == tasks[i]
  {
    if tasks == [] then []
    else
      var t := tasks[0];
      [if t.id == id then t.(completed := !t.completed) else t] + Toggled(tasks[1..], id)
  }

  /** Toggling the same id twice restores the list. */
  lemma ToggledTwice(tasks: seq<Task>, id: string)
    ensures Toggled(Toggled(tasks, id), id) == tasks
  {
    var r := Toggled(Toggled(tasks, id), id);
    assert forall i :: 0 <= i < |tasks| ==> r[i] == tasks[i];
  }

  /** Toggling an id no task has changes nothing. */
  lemma ToggledAbsent(tasks: seq<Task>, id: string)
    requires forall i :: 0 <= i < |tasks| ==> tasks[i].id != id
    ensures Toggled(tasks, id) == tasks
  {
    var r := Toggled(tasks, id);
    assert forall i :: 0 <= i < |tasks| ==> r[i] == tasks[i];
  }

  function HasOtherId(id: string): Task -> bool {
    (t: Task) => t.id != id
  }

  /** `deleteTask`: the tasks whose id differs, in list order. */
  function Deleted(tasks: seq<Task>, id: string): seq<Task> {
    Filter(tasks, HasOtherId(id))
  }

  /** Deleting removes exactly the tasks with that id and keeps the others, in order;
      an absent id is a no-op. */
  lemma DeletedSpec(tasks: seq<Task>, id: string)
    ensures var r := Deleted(tasks, id);
      && (forall t :: t in r ==> t.id != id)
      && IsSubsequence(r, tasks)
      && (forall t: Task :: t.id != id ==> multiset(r)[t] == multiset(tasks)[t])
      && ((forall i :: 0 <= i < |tasks| ==> tasks[i].id != id) ==> r == tasks)
  {
    FilterIsSubsequence(tasks, HasOtherId(id));
    forall t: Task | t.id != id ensures multiset(Deleted(tasks, id))[t] == multiset(tasks)[t] {
      FilterCount(tasks, HasOtherId(id), t);
    }
    if forall i :: 0 <= i < |tasks| ==> tasks[i].id != id {
      FilterKeepsAll(tasks, HasOtherId(id));
    }
  }

  /** An object spread of the patch over the task: every field the patch has overrides
      the task's, the others are kept. */
  function Patched(t: Task, u: TaskPatch): Task {
    Task(
      u.id.GetOr(t.id),
      u.title.GetOr(t.title),
      u.description.GetOr(t.description),
      u.category.GetOr(t.category),
      u.priority.GetOr(t.priority),
      u.completed.GetOr(t.completed),
      u.createdAt.GetOr(t.createdAt),
      u.dueDate.GetOr(t.dueDate))
  }

  /** Applying a patch a second time changes nothing, and a patch without fields
      changes nothing at all. */
  lemma PatchedSpec(t: Task, u: TaskPatch)
    ensures Patched(Patched(t, u), u) == Patched(t, u)
    ensures Patched(t, NoChanges) == t
  {
  }

  /** `updateTask`: every task with the id gets the patch spread over it; all other
      tasks are kept as they are. */
  function Updated(tasks: seq<Task>, id: string, u: TaskPatch): (r: seq<Task>)
    ensures |r| == |tasks|
    ensures forall i :: 0 <= i < |tasks| ==>
      r[i] == if tasks[i].id == id then Patched(tasks[i], u) else tasks[i]
  {
    if tasks == [] then []
    else
      var t := tasks[0];
      [if t.id == id then Patched(t, u) else t] + Updated(tasks[1..], id, u)
  }

  /** Updating with the same patch twice is updating once; updating an absent id or
      with an empty patch changes nothing. */
  lemma UpdatedSpec(tasks: seq<Task>, id: string, u: TaskPatch)
    ensures Updated(Updated(tasks, id, u), id, u) == Updated(tasks, id, u)
    ensures (forall i :: 0 <= i < |tasks| ==> tasks[i].id != id) ==> Updated(tasks, id, u) == tasks
    ensures Updated(tasks, id, NoChanges) == tasks
  {
    var once := Updated(tasks, id, u);
    var twice := Updated(once, id, u);
    forall i | 0 <= i < |tasks| ensures twice[i] == once[i] {
      PatchedSpec(tasks[i], u);
    }
    var none := Updated(tasks, id, NoChanges);
    forall i | 0 <= i < |tasks| ensures none[i] == tasks[i] {
      PatchedSpec(tasks[i], u);
    }
  }

  // ---------------------------------------------------------------------------
  // filteredTasks and stats
  // ---------------------------------------------------------------------------

  predicate TaskMatches(t: Task, f: TaskFilter) {
    var term := Lower(f.searchTerm);
    (Includes(Lower(t.title), term) || Includes(Lower(t.description), term)) &&
    (f.category == "all" || t.category == f.category) &&
    (f.priority == "all" || PriorityName(t.priority) == f.priority) &&
    (f.showCompleted || !t.completed)
  }

  /** `filteredTasks`: the tasks shown in the list. */
  function Visible(tasks: seq<Task>, f: TaskFilter): seq<Task> {
    Filter(tasks, t => TaskMatches(t, f))
  }

  /** The shown tasks are exactly the matching ones, in list order; with
      show-completed off none of them is completed; the initial filter shows all. */
  lemma VisibleSpec(tasks: seq<Task>, f: TaskFilter)
    ensures var r := Visible(tasks, f);
      && IsSubsequence(r, tasks)
      && (forall t :: t in r ==> TaskMatches(t, f))
      && (forall t :: multiset(r)[t] == if TaskMatches(t, f) then multiset(tasks)[t] else 0)
      && (!f.showCompleted ==> forall t :: t in r ==> !t.completed)
      && Visible(tasks, InitialFilter) == tasks
  {
    FilterIsSubsequence(tasks, t => TaskMatches(t, f));
    forall t ensures multiset(Visible(tasks, f))[t] ==
                     if TaskMatches(t, f) then multiset(tasks)[t] else 0 {
      FilterCount(tasks, t => TaskMatches(t, f), t);
    }
    forall i | 0 <= i < |tasks| ensures TaskMatches(tasks[i], InitialFilter) {
      EmptyIncluded(Lower(tasks[i].title));
    }
    FilterKeepsAll(tasks, t => TaskMatches(t, InitialFilter));
  }

  // ---------------------------------------------------------------------------
  // The stored-title invariant
  // ---------------------------------------------------------------------------

  /** Every stored task has a title that is not blank: the guarantee the validation in
      `addTask` exists for. */
  predicate TitlesPresent(tasks: seq<Task>) {
    forall i :: 0 <= i < |tasks| ==> !IsBlank(tasks[i].title)
  }

  /** `addTask` stores only a task whose title passed the validation. */
  lemma AddedKeepsTitles(tasks: seq<Task>, d: Draft, id: string, now: int)
    requires TitlesPresent(tasks)
    ensures TitlesPresent(Added(tasks, d, id, now))
  {
    var r := Added(tasks, d, id, now);
    if !IsBlank(d.title) {
      forall i | 0 <= i < |r| ensures !IsBlank(r[i].title) {
        if i > 0 {
          assert r[i] == tasks[i - 1];
        }
      }
    }
  }

  /** Toggling touches only `completed`, never a title. */
  lemma ToggledKeepsTitles(tasks: seq<Task>, id: string)
    requires TitlesPresent(tasks)
    ensures TitlesPresent(Toggled(tasks, id))
  {
    var r := Toggled(tasks, id);
    forall i | 0 <= i < |r| ensures !IsBlank(r[i].title) {
      assert r[i].title == r[i].(completed := tasks[i].completed).title;
    }
  }

  /** Deleting keeps only tasks that were stored already. */
  lemma DeletedKeepsTitles(tasks: seq<Task>, id: string)
    requires TitlesPresent(tasks)
    ensures TitlesPresent(Deleted(tasks, id))
  {
    FilterPreserves(tasks, HasOtherId(id), (t: Task) => !IsBlank(t.title));
  }

  /** An update keeps the invariant when its patch leaves the title alone or brings a
      title that is not blank. */
  lemma UpdatedKeepsTitles(tasks: seq<Task>, id: string, u: TaskPatch)
    requires TitlesPresent(tasks)
    requires u.title.None? || !IsBlank(u.title.value)
    ensures TitlesPresent(Updated(tasks, id, u))
  {
  }

  /** `updateTask` performs no validation: a patch with a blank title stores a task
      whose title is blank. */
  lemma UpdatedCanBlankTitle()
    ensures var tasks := [Task("1", "x", "", "personal", Medium, false, 0, None)];
      && TitlesPresent(tasks)
      && !TitlesPresent(Updated(tasks, "1", NoChanges.(title := Some(""))))
  {
    var tasks := [Task("1", "x", "", "personal", Medium, false, 0, None)];
    assert !IsWhitespace('x');
    assert Trim("x") == "x";
    assert Trim("") == "";
    var r := Updated(tasks, "1", NoChanges.(title := Some("")));
    assert r[0].title == "";
  }

  /** Not completed, with a due date strictly before `now`. */
  predicate IsOverdue(t: Task, now: int) {
    !t.completed && t.dueDate.Some? && t.dueDate.value < now
  }

  datatype TaskStats = TaskStats(total: nat, completed: nat, pending: nat, overdue: nat)

  /** `stats`: the four counters shown above the list. */
  function Stats(tasks: seq<Task>, now: int): TaskStats {
    TaskStats(
      |tasks|,
      |Filter(tasks, (t: Task) => t.completed)|,
      |Filter(tasks, (t: Task) => !t.completed)|,
      |Filter(tasks, (t: Task) => IsOverdue(t, now))|)
  }

  /** Every task is completed or pending, and only pending tasks are overdue. */
  lemma StatsSpec(tasks: seq<Task>, now: int)
    ensures var s := Stats(tasks, now);
      s.total == s.completed + s.pending && s.overdue <= s.pending
  {
    FilterSplits(tasks, (t: Task) => t.completed, (t: Task) => !t.completed);
    FilterStrongerKeepsFewer(tasks, (t: Task) => !t.completed, (t: Task) => IsOverdue(t, now));
  }

  /** A successful add counts one more task, one more pending task and the same
      number of completed tasks. */
  lemma StatsAfterAdd(tasks: seq<Task>, d: Draft, id: string, now: int, clock: int)
    requires !AllWhitespace(d.title)
    ensures var before := Stats(tasks, clock);
      var after := Stats(Added(tasks, d, id, now), clock);
      && after.total == before.total + 1
      && after.completed == before.completed
      && after.pending == before.pending + 1
  {
    TrimEmptyIff(d.title);
    var r := Added(tasks, d, id, now);
    assert r[1..] == tasks;
    FilterCons(r, (t: Task) => t.completed);
    FilterCons(r, (t: Task) => !t.completed);
  }

  // ---------------------------------------------------------------------------
  // Component state
  // ---------------------------------------------------------------------------

  /** The task manager's state slots; each handler replaces `tasks` (and `draft`) with
      a value computed by the functions above. */
  class TaskBoard {
    var tasks: seq<Task>
    var draft: Draft
    var filter: TaskFilter

    /** The stored-title invariant over the component's list. */
    ghost predicate Valid()
      reads this
    {
      TitlesPresent(tasks)
    }

    /** On mount, before any stored tasks are loaded. */
    constructor ()
      ensures tasks == [] && draft == EmptyDraft && filter == InitialFilter
      ensures Valid()
    {
      tasks := [];
      draft := EmptyDraft;
      filter := InitialFilter;
    }

    /** Typing into the new-task form. */
    method EditDraft(d: Draft)
      modifies this
      ensures draft == d && tasks == old(tasks) && filter == old(filter)
      ensures old(Valid()) ==> Valid()
    {
      draft := d;
    }

    /** Typing into the search box or choosing a filter. */
    method SetFilter(f: TaskFilter)
      modifies this
      ensures filter == f && tasks == old(tasks) && draft == old(draft)
      ensures old(Valid()) ==> Valid()
    {
      filter := f;
    }

    /** `addTask`, with `Date.now()` as `id` and `new Date()` as `now`. A blank title
        is rejected and nothing changes; otherwise the task is prepended and the form
        is reset. */
    method AddTask(id: string, now: int) returns (added: bool)
      modifies this
      ensures added <==> !AllWhitespace(old(draft).title)
      ensures tasks == Added(old(tasks), old(draft), id, now)
      ensures draft == if added then EmptyDraft else old(draft)
      ensures filter == old(filter)
      ensures old(Valid()) ==> Valid()
    {
      TrimEmptyIff(draft.title);
      if Valid() {
        AddedKeepsTitles(tasks, draft, id, now);
      }
      if IsBlank(draft.title) {
        return false;
      }
      tasks := [NewTask(draft, id, now)] + tasks;
      draft := EmptyDraft;
      added := true;
    }

    method ToggleTask(id: string)
      modifies this
      ensures tasks == Toggled(old(tasks), id)
      ensures draft == old(draft) && filter == old(filter)
      ensures old(Valid()) ==> Valid()
    {
      if Valid() {
        ToggledKeepsTitles(tasks, id);
      }
      tasks := Toggled(tasks, id);
    }

    method DeleteTask(id: string)
      modifies this
      ensures tasks == Deleted(old(tasks), id)
      ensures draft == old(draft) && filter == old(filter)
      ensures old(Valid()) ==> Valid()
    {
      if Valid() {
        DeletedKeepsTitles(tasks, id);
      }
      tasks := Deleted(tasks, id);
    }

    method UpdateTask(id: string, u: TaskPatch)
      modifies this
      ensures tasks == Updated(old(tasks), id, u)
      ensures draft == old(draft) && filter == old(filter)
      ensures old(Valid()) && (u.title.None? || !IsBlank(u.title.value)) ==> Valid()
    {
      if Valid() && (u.title.None? || !IsBlank(u.title.value)) {
        UpdatedKeepsTitles(tasks, id, u);
      }
      tasks := Updated(tasks, id, u);
    }

    /** The list as shown: the current tasks that pass the current filter. */
    function FilteredTasks(): (r: seq<Task>)
      reads this
      ensures IsSubsequence(r, tasks)
      ensures forall t :: multiset(r)[t] == if TaskMatches(t, filter) then multiset(tasks)[t] else 0
      ensures !filter.showCompleted ==> forall t :: t in r ==> !t.completed
    {
      VisibleSpec(tasks, filter);
      Visible(tasks, filter)
    }

    /** The counters over the current tasks at time `now`. */
    function CurrentStats(now: int): (r: TaskStats)
      reads this
      ensures r.total == |tasks|
      ensures r.total == r.completed + r.pending && r.overdue <= r.pending
    {
      StatsSpec(tasks, now);
      Stats(tasks, now)
    }
  }
}
