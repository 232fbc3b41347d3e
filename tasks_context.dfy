/**
 * The pure half of the task state container: the status stamping rule, the
 * reducer folded over the tagged actions, the sanitisers of user input, the
 * construction of a new task and the derived active/completed lists, with
 * the properties they keep.
 *
 * The reducer reads the clock once per action; here that reading is the
 * `timestamp` parameter.
 */
module TasksContext {
  import opened Wrappers
  import opened Strings
  import opened Seqs
  import opened TaskTypes

  datatype TasksState = TasksState(tasks: seq<Task>, isHydrated: bool, isLoading: bool)

  /** Before hydration: no tasks, not hydrated, loading. */
  const InitialState := TasksState([], false, true)

  datatype TasksAction =
    | Hydrate(payload: seq<Task>)
    | Add(task: Task)
    | Update(id: string, updates: TaskUpdate)
    | Delete(id: string)
    | Toggle(id: string)
    | ClearCompleted

  /** The fields no status change touches. */
  predicate SameContent(a: Task, b: Task)
  {
    a.id == b.id && a.title == b.title && a.description == b.description && a.createdAt == b.createdAt
  }

  /**
   * Sets the status and stamps the timestamps: completing sets both
   * `updatedAt` and `completedAt` to `timestamp`; reopening refreshes
   * `updatedAt` and sets `completedAt` to `null`.
   */
  function ApplyStatusMutation(task: Task, status: TaskStatus, timestamp: string): (r: Task)
    ensures SameContent(r, task)
    ensures r.status == status && r.updatedAt == Some(timestamp)
    ensures r.completedAt == if status == Completed then At(timestamp) else Null
    ensures CompletionConsistent(r)
  {
    if status == Completed then
      task.(status := status, updatedAt := Some(timestamp), completedAt := At(timestamp))
    else
      task.(status := status, updatedAt := Some(timestamp), completedAt := Null)
  }

  /**
   * The UPDATE action on one matching task: refresh `updatedAt`, stamp a
   * status change, then copy a title and a description that are not
   * `undefined`. The update's own `updatedAt` and `completedAt` are never read.
   */
  function ApplyUpdate(task: Task, updates: TaskUpdate, timestamp: string): (r: Task)
    ensures r.id == task.id && r.createdAt == task.createdAt
    ensures r.updatedAt == Some(timestamp)
    ensures r.title == if updates.title.Defined? then updates.title.value else task.title
    ensures r.description == if updates.description.Defined? then Some(updates.description.value) else task.description
    ensures r.status == if updates.status.Defined? then updates.status.value else task.status
    ensures r.status == task.status ==> r.completedAt == task.completedAt
    ensures r.status != task.status ==> r.completedAt == if r.status == Completed then At(timestamp) else Null
    ensures CompletionConsistent(task) ==> CompletionConsistent(r)
  {
    var stamped := task.(updatedAt := Some(timestamp));
    var withStatus :=
      if updates.status.Defined? && updates.status.value != task.status
      then ApplyStatusMutation(stamped, updates.status.value, timestamp)
      else stamped;
    var withTitle :=
      if updates.title.Defined? then withStatus.(title := updates.title.value) else withStatus;
    if updates.description.Defined? then withTitle.(description := Some(updates.description.value)) else withTitle
  }

  /**
   * An update has no `id` or `createdAt` property, so no update changes
   * them, whatever else it holds.
   */
  lemma UpdateKeepsFixedFields(task: Task, updates: TaskUpdate, timestamp: string)
    ensures ApplyUpdate(task, updates, timestamp).id == task.id
    ensures ApplyUpdate(task, updates, timestamp).createdAt == task.createdAt
  {
  }

  /** TOGGLE on one matching task: stamp the other status. */
  function ToggleOne(task: Task, timestamp: string): (r: Task)
    ensures r.status != task.status && SameContent(r, task) && CompletionConsistent(r)
    ensures r.updatedAt == Some(timestamp)
    ensures r.completedAt == if r.status == Completed then At(timestamp) else Null
  {
    ApplyStatusMutation(task, Flip(task.status), timestamp)
  }

  /** The test of DELETE: the task keeps a different id. */
  function HasOtherId(id: string): Task -> bool
  {
    (t: Task) => t.id != id
  }

  /** The test of CLEAR_COMPLETED. */
  predicate IsNotCompleted(t: Task)
  {
    t.status != Completed
  }

  predicate IsActive(t: Task)
  {
    t.status == Active
  }

  predicate IsCompleted(t: Task)
  {
    t.status == Completed
  }

  /** `tasksReducer`: one action applied to the state. */
  function Step(state: TasksState, action: TasksAction, timestamp: string): (r: TasksState)
    ensures action.Hydrate? ==> r == TasksState(action.payload, true, false)
    ensures !action.Hydrate? ==> r.isHydrated == state.isHydrated && r.isLoading == state.isLoading
    ensures action.Add? ==> r.tasks == [action.task] + state.tasks
  {
    match action
    case Hydrate(payload) => TasksState(payload, true, false)
    case Add(task) => state.(tasks := [task] + state.tasks)
    case Update(id, updates) =>
      state.(tasks := Map(state.tasks, (t: Task) => if t.id == id then ApplyUpdate(t, updates, timestamp) else t))
    case Delete(id) => state.(tasks := Filter(state.tasks, HasOtherId(id)))
    case Toggle(id) =>
      state.(tasks := Map(state.tasks, (t: Task) => if t.id == id then ToggleOne(t, timestamp) else t))
    case ClearCompleted => state.(tasks := Filter(state.tasks, IsNotCompleted))
  }

  /**
   * `sanitizeDraft`: rejects a blank title; otherwise trims the title and
   * keeps the description only when it is not blank, trimmed.
   */
  function SanitizeDraft(draft: TaskDraft): (r: Option<TaskDraft>)
    ensures r.None? <==> IsBlank(draft.title)
    ensures r.Some? ==> r.value.title == Trim(draft.title) && r.value.title != [] && IsTrimmed(r.value.title)
    ensures r.Some? ==> (r.value.description.Some? <==> draft.description.Some? && !IsBlank(draft.description.value))
    ensures r.Some? && r.value.description.Some? ==>
      r.value.description.value == Trim(draft.description.value) && r.value.description.value != []
  {
    var title := Trim(draft.title);
    if title == [] then None
    else
      var description := if draft.description.Some? then Some(Trim(draft.description.value)) else None;
      Some(TaskDraft(title, if description.Some? && description.value != [] then description else None))
  }

  /**
   * The text invariant the sanitisers keep: the title is not blank and has
   * no white space at either end; a description, when present, is non-empty
   * and has no white space at either end.
   */
  predicate WellFormedText(t: Task)
  {
    && !IsBlank(t.title) && IsTrimmed(t.title)
    && (t.description.Some? ==> t.description.value != [] && IsTrimmed(t.description.value))
  }

  /** Every task of the collection keeps the text invariant. */
  ghost predicate AllWellFormed(tasks: seq<Task>)
  {
    forall i :: 0 <= i < |tasks| ==> WellFormedText(tasks[i])
  }

  /** An update as `sanitizeUpdates` leaves it: any title or description it sets is non-empty and trimmed. */
  predicate SanitizedText(u: TaskUpdate)
  {
    && (u.title.Defined? ==> u.title.value != [] && IsTrimmed(u.title.value))
    && (u.description.Defined? ==> u.description.value != [] && IsTrimmed(u.description.value))
  }

  /**
   * What `sanitizeUpdates` returns. Only a title, a description and a status
   * can pass; a blank title is dropped, but a given description always
   * leaves its key, holding `undefined` when the description is blank.
   */
  function SanitizedUpdate(updates: TaskUpdate): (r: TaskUpdate)
    ensures !r.updatedAt.HasKey() && !r.completedAt.HasKey()
    ensures r.title.HasKey() <==> updates.title.Defined? && !IsBlank(updates.title.value)
    ensures r.title.HasKey() ==> r.title == Defined(Trim(updates.title.value))
    ensures r.description.HasKey() <==> updates.description.Defined?
    ensures r.description.Undefined? <==> updates.description.Defined? && IsBlank(updates.description.value)
    ensures r.description.Defined? ==>
      r.description.value == Trim(updates.description.value) && r.description.value != []
    ensures r.status.HasKey() <==> updates.status.Defined?
    ensures r.status.HasKey() ==> r.status == updates.status
    ensures r.HasNoKeys() <==>
      (updates.title.Defined? ==> IsBlank(updates.title.value))
      && !updates.description.Defined? && !updates.status.Defined?
    ensures SanitizedText(r)
  {
    var title := if updates.title.Defined? then Trim(updates.title.value) else [];
    var description := if updates.description.Defined? then Trim(updates.description.value) else [];
    TaskUpdate(
      if updates.title.Defined? && |title| > 0 then Defined(title) else Absent,
      if !updates.description.Defined? then Absent
      else if |description| > 0 then Defined(description) else Undefined,
      if updates.status.Defined? then updates.status else Absent,
      Absent,
      Absent)
  }

  /**
   * `sanitizeUpdates`, which fills an empty object one key at a time.
   */
  method SanitizeUpdates(updates: TaskUpdate) returns (sanitized: TaskUpdate)
    ensures sanitized == SanitizedUpdate(updates)
  {
    sanitized := EmptyUpdate;
    if updates.title.Defined? {
      var nextTitle := Trim(updates.title.value);
      if |nextTitle| > 0 {
        sanitized := sanitized.(title := Defined(nextTitle));
      }
    }
    if updates.description.Defined? {
      var nextDescription := Trim(updates.description.value);
      sanitized := sanitized.(description := if |nextDescription| > 0 then Defined(nextDescription) else Undefined);
    }
    if updates.status.Defined? {
      sanitized := sanitized.(status := updates.status);
    }
  }

  /**
   * The task `addTask` creates from a draft, a fresh id and the current
   * time, or `None` when the draft's title is blank.
   */
  function NewTask(draft: TaskDraft, id: string, timestamp: string): (r: Option<Task>)
    ensures r.None? <==> IsBlank(draft.title)
    ensures r.Some? ==> r.value.id == id && r.value.title == Trim(draft.title)
    ensures r.Some? ==> r.value.description == SanitizeDraft(draft).value.description
    ensures r.Some? ==>
      && r.value.status == Active && r.value.completedAt == Null
      && r.value.createdAt == timestamp && r.value.updatedAt == Some(r.value.createdAt)
    ensures r.Some? ==> CompletionConsistent(r.value)
    ensures r.Some? ==> WellFormedText(r.value)
  {
    match SanitizeDraft(draft)
    case None => None
    case Some(d) =>
      TrimmedNonEmptyNotBlank(d.title);
      Some(Task(id, d.title, d.description, Active, timestamp, Some(timestamp), Null))
  }

  /** `activeTasks`. */
  function ActiveTasks(tasks: seq<Task>): (r: seq<Task>)
    ensures forall t :: t in r <==> t in tasks && t.status == Active
  {
    var r := Filter(tasks, IsActive);
    forall t | t in tasks && t.status == Active
      ensures t in r
    {
      FilterCount(tasks, IsActive, t);
      assert t in multiset(r);
    }
    r
  }

  /** `completedTasks`. */
  function CompletedTasks(tasks: seq<Task>): (r: seq<Task>)
    ensures forall t :: t in r <==> t in tasks && t.status == Completed
  {
    var r := Filter(tasks, IsCompleted);
    forall t | t in tasks && t.status == Completed
      ensures t in r
    {
      FilterCount(tasks, IsCompleted, t);
      assert t in multiset(r);
    }
    r
  }

  // ---------------------------------------------------------------------
  // Properties of the reducer

  /**
   * UPDATE touches only the tasks with the given id: length, order, every
   * id and every `createdAt` are kept, and an unknown id changes nothing.
   */
  lemma UpdateIsLocal(state: TasksState, id: string, updates: TaskUpdate, timestamp: string)
    ensures var r := Step(state, Update(id, updates), timestamp).tasks;
      && |r| == |state.tasks|
      && (forall i :: 0 <= i < |r| ==> r[i].id == state.tasks[i].id && r[i].createdAt == state.tasks[i].createdAt)
      && (forall i :: 0 <= i < |r| && state.tasks[i].id != id ==> r[i] == state.tasks[i])
      && (forall i :: 0 <= i < |r| && state.tasks[i].id == id ==> r[i] == ApplyUpdate(state.tasks[i], updates, timestamp))
      && (id !in Ids(state.tasks) ==> r == state.tasks)
  {
    var r := Step(state, Update(id, updates), timestamp).tasks;
    if id !in Ids(state.tasks) {
      forall i | 0 <= i < |r|
        ensures r[i] == state.tasks[i]
      {
        assert state.tasks[i].id in Ids(state.tasks);
      }
    }
  }

  /**
   * TOGGLE touches only the tasks with the given id, flipping their status;
   * an unknown id changes nothing.
   */
  lemma ToggleIsLocal(state: TasksState, id: string, timestamp: string)
    ensures var r := Step(state, Toggle(id), timestamp).tasks;
      && |r| == |state.tasks|
      && (forall i :: 0 <= i < |r| ==> SameContent(r[i], state.tasks[i]))
      && (forall i :: 0 <= i < |r| && state.tasks[i].id != id ==> r[i] == state.tasks[i])
      && (forall i :: 0 <= i < |r| && state.tasks[i].id == id ==> r[i].status == Flip(state.tasks[i].status))
      && (forall i :: 0 <= i < |r| && state.tasks[i].id == id ==> r[i] == ToggleOne(state.tasks[i], timestamp))
      && (forall i :: 0 <= i < |r| && state.tasks[i].id == id ==>
            r[i].updatedAt == Some(timestamp) && r[i].completedAt == if r[i].status == Completed then At(timestamp) else Null)
      && (id !in Ids(state.tasks) ==> r == state.tasks)
  {
    var r := Step(state, Toggle(id), timestamp).tasks;
    if id !in Ids(state.tasks) {
      forall i | 0 <= i < |r|
        ensures r[i] == state.tasks[i]
      {
        assert state.tasks[i].id in Ids(state.tasks);
      }
    }
  }

  /**
   * Toggling twice gives every matching task its original status back,
   * stamped with the second timestamp; the other tasks are untouched.
   */
  lemma ToggleTwice(state: TasksState, id: string, first: string, second: string)
    ensures var r := Step(Step(state, Toggle(id), first), Toggle(id), second).tasks;
      && |r| == |state.tasks|
      && forall i :: 0 <= i < |r| ==>
           r[i] == if state.tasks[i].id == id
                   then ApplyStatusMutation(state.tasks[i], state.tasks[i].status, second)
                   else state.tasks[i]
  {
    var once := Step(state, Toggle(id), first).tasks;
    var r := Step(Step(state, Toggle(id), first), Toggle(id), second).tasks;
    forall i | 0 <= i < |r| && state.tasks[i].id == id
      ensures r[i] == ApplyStatusMutation(state.tasks[i], state.tasks[i].status, second)
    {
      assert once[i] == ToggleOne(state.tasks[i], first);
      assert Flip(Flip(state.tasks[i].status)) == state.tasks[i].status;
    }
  }

  /**
   * An UPDATE whose status equals the task's current status only refreshes
   * `updatedAt` as far as status and `completedAt` go.
   */
  lemma SameStatusUpdateOnlyRefreshes(task: Task, updates: TaskUpdate, timestamp: string)
    requires updates.status == Defined(task.status)
    requires !updates.title.Defined? && !updates.description.Defined?
    ensures ApplyUpdate(task, updates, timestamp) == task.(updatedAt := Some(timestamp))
  {
  }

  /** The ids of a non-empty collection: those of its head and of its tail. */
  lemma IdsOfCons(tasks: seq<Task>)
    requires tasks != []
    ensures Ids(tasks) == {tasks[0].id} + Ids(tasks[1..])
    ensures UniqueIds(tasks) <==> UniqueIds(tasks[1..]) && tasks[0].id !in Ids(tasks[1..])
  {
    var rest := tasks[1..];
    forall x | x in Ids(tasks) ensures x in {tasks[0].id} + Ids(rest) {
      var i :| 0 <= i < |tasks| && tasks[i].id == x;
      if i > 0 { assert rest[i - 1].id == x; }
    }
    forall x | x in Ids(rest) ensures x in Ids(tasks) {
      var i :| 0 <= i < |rest| && rest[i].id == x;
      assert tasks[i + 1].id == x;
    }
    if UniqueIds(tasks) {
      forall i | 0 <= i < |rest| ensures rest[i].id != tasks[0].id {
        assert rest[i] == tasks[i + 1];
      }
    }
    if UniqueIds(rest) && tasks[0].id !in Ids(rest) {
      forall i, j | 0 <= i < j < |tasks| ensures tasks[i].id != tasks[j].id {
        assert tasks[j] == rest[j - 1];
        if i == 0 {
          assert rest[j - 1].id in Ids(rest);
        } else {
          assert tasks[i] == rest[i - 1];
        }
      }
    }
  }

  /** A filter keeps ids unique, and uses no id that was not there. */
  lemma {:induction false} FilterKeepsUniqueIds(tasks: seq<Task>, keep: Task -> bool)
    requires UniqueIds(tasks)
    ensures UniqueIds(Filter(tasks, keep))
    ensures Ids(Filter(tasks, keep)) <= Ids(tasks)
  {
    if tasks != [] {
      IdsOfCons(tasks);
      FilterKeepsUniqueIds(tasks[1..], keep);
      var r := Filter(tasks, keep);
      if keep(tasks[0]) {
        assert r[1..] == Filter(tasks[1..], keep);
        IdsOfCons(r);
      } else {
        assert r == Filter(tasks[1..], keep);
      }
    }
  }

  /** The ids after a per-id map are the ids before it. */
  lemma MapKeepsIds(tasks: seq<Task>, r: seq<Task>)
    requires |r| == |tasks|
    requires forall i :: 0 <= i < |r| ==> r[i].id == tasks[i].id
    ensures Ids(r) == Ids(tasks)
    ensures UniqueIds(tasks) ==> UniqueIds(r)
  {
    forall x | x in Ids(r) ensures x in Ids(tasks) {
      var i :| 0 <= i < |r| && r[i].id == x;
    }
    forall x | x in Ids(tasks) ensures x in Ids(r) {
      var i :| 0 <= i < |tasks| && tasks[i].id == x;
    }
  }

  /**
   * Every action but HYDRATE keeps ids unique, as long as an added task
   * brings an id that is not in use.
   */
  lemma StepPreservesUniqueIds(state: TasksState, action: TasksAction, timestamp: string)
    requires UniqueIds(state.tasks)
    requires !action.Hydrate?
    requires action.Add? ==> action.task.id !in Ids(state.tasks)
    ensures UniqueIds(Step(state, action, timestamp).tasks)
  {
    var r := Step(state, action, timestamp).tasks;
    match action
    case Add(task) =>
      forall i, j | 0 <= i < j < |r| ensures r[i].id != r[j].id {
        if i == 0 {
          assert r[j] == state.tasks[j - 1];
          assert state.tasks[j - 1].id in Ids(state.tasks);
        } else {
          assert r[i] == state.tasks[i - 1] && r[j] == state.tasks[j - 1];
        }
      }
    case Update(id, updates) =>
      UpdateIsLocal(state, id, updates, timestamp);
      MapKeepsIds(state.tasks, r);
    case Toggle(id) =>
      ToggleIsLocal(state, id, timestamp);
      MapKeepsIds(state.tasks, r);
    case Delete(id) =>
      FilterKeepsUniqueIds(state.tasks, HasOtherId(id));
    case ClearCompleted =>
      FilterKeepsUniqueIds(state.tasks, IsNotCompleted);
  }

  /** A filter keeps the stamping invariant. */
  lemma FilterKeepsConsistency(tasks: seq<Task>, keep: Task -> bool)
    requires AllConsistent(tasks)
    ensures AllConsistent(Filter(tasks, keep))
  {
    var r := Filter(tasks, keep);
    forall i | 0 <= i < |r| ensures CompletionConsistent(r[i]) {
      assert r[i] in tasks;
    }
  }

  /**
   * ADD (of a consistent task), UPDATE, TOGGLE, DELETE and CLEAR_COMPLETED
   * keep "`completedAt` holds a timestamp exactly when completed".
   */
  lemma StepPreservesConsistency(state: TasksState, action: TasksAction, timestamp: string)
    requires AllConsistent(state.tasks)
    requires !action.Hydrate?
    requires action.Add? ==> CompletionConsistent(action.task)
    ensures AllConsistent(Step(state, action, timestamp).tasks)
  {
    var r := Step(state, action, timestamp).tasks;
    match action
    case Add(task) =>
      forall i | 0 <= i < |r| ensures CompletionConsistent(r[i]) {
        if i > 0 { assert r[i] == state.tasks[i - 1]; }
      }
    case Update(id, updates) =>
    case Toggle(id) =>
    case Delete(id) =>
      FilterKeepsConsistency(state.tasks, HasOtherId(id));
    case ClearCompleted =>
      FilterKeepsConsistency(state.tasks, IsNotCompleted);
  }

  /**
   * ADD (of a well-formed task), UPDATE (with a sanitised update), TOGGLE,
   * DELETE and CLEAR_COMPLETED keep every title non-blank and trimmed and
   * every description non-empty and trimmed.
   */
  lemma StepPreservesWellFormedText(state: TasksState, action: TasksAction, timestamp: string)
    requires AllWellFormed(state.tasks)
    requires !action.Hydrate?
    requires action.Add? ==> WellFormedText(action.task)
    requires action.Update? ==> SanitizedText(action.updates)
    ensures AllWellFormed(Step(state, action, timestamp).tasks)
  {
    var r := Step(state, action, timestamp).tasks;
    match action
    case Add(task) =>
      forall i | 0 <= i < |r| ensures WellFormedText(r[i]) {
        if i > 0 { assert r[i] == state.tasks[i - 1]; }
      }
    case Update(id, updates) =>
      UpdateIsLocal(state, id, updates, timestamp);
      if updates.title.Defined? {
        TrimmedNonEmptyNotBlank(updates.title.value);
      }
    case Toggle(id) =>
      ToggleIsLocal(state, id, timestamp);
    case Delete(id) =>
      forall i | 0 <= i < |r| ensures WellFormedText(r[i]) {
        assert r[i] in state.tasks;
      }
    case ClearCompleted =>
      forall i | 0 <= i < |r| ensures WellFormedText(r[i]) {
        assert r[i] in state.tasks;
      }
  }

  /**
   * HYDRATE takes its payload as it is: a consistent state can become
   * inconsistent.
   */
  lemma HydrateMayBreakConsistency(state: TasksState, task: Task, timestamp: string)
    requires task.status == Completed && task.completedAt == Null
    ensures !AllConsistent(Step(state, Hydrate([task]), timestamp).tasks)
  {
    assert !CompletionConsistent(Step(state, Hydrate([task]), timestamp).tasks[0]);
  }

  /**
   * DELETE removes every task with the id and keeps all others, in order;
   * an unknown id changes nothing.
   */
  lemma DeleteRemovesExactlyId(state: TasksState, id: string, timestamp: string)
    ensures var r := Step(state, Delete(id), timestamp).tasks;
      && id !in Ids(r)
      && IsSubsequence(r, state.tasks)
      && (forall t: Task :: t.id != id ==> multiset(r)[t] == multiset(state.tasks)[t])
      && (id !in Ids(state.tasks) ==> r == state.tasks)
  {
    var r := Step(state, Delete(id), timestamp).tasks;
    FilterIsSubsequence(state.tasks, HasOtherId(id));
    forall t: Task | t.id != id ensures multiset(r)[t] == multiset(state.tasks)[t] {
      FilterCount(state.tasks, HasOtherId(id), t);
    }
    forall i | 0 <= i < |r| ensures r[i].id != id {
      assert r[i] in r;
    }
    if id !in Ids(state.tasks) {
      forall i | 0 <= i < |state.tasks| ensures HasOtherId(id)(state.tasks[i]) {
        assert state.tasks[i].id in Ids(state.tasks);
      }
      FilterKeepsAll(state.tasks, HasOtherId(id));
    }
  }

  /**
   * CLEAR_COMPLETED leaves exactly the tasks that are not completed, in
   * order; with none completed it changes nothing.
   */
  lemma ClearCompletedKeepsOpenTasks(state: TasksState, timestamp: string)
    ensures var r := Step(state, ClearCompleted, timestamp).tasks;
      && (forall i :: 0 <= i < |r| ==> r[i].status == Active)
      && IsSubsequence(r, state.tasks)
      && (forall t: Task :: t.status == Active ==> multiset(r)[t] == multiset(state.tasks)[t])
      && ((forall i :: 0 <= i < |state.tasks| ==> state.tasks[i].status == Active) ==> r == state.tasks)
  {
    var r := Step(state, ClearCompleted, timestamp).tasks;
    FilterIsSubsequence(state.tasks, IsNotCompleted);
    forall t: Task | t.status == Active ensures multiset(r)[t] == multiset(state.tasks)[t] {
      FilterCount(state.tasks, IsNotCompleted, t);
    }
    forall i | 0 <= i < |r| ensures r[i].status == Active {
      assert r[i] in r;
    }
    if forall i :: 0 <= i < |state.tasks| ==> state.tasks[i].status == Active {
      FilterKeepsAll(state.tasks, IsNotCompleted);
    }
  }

  /** Clearing the completed tasks twice is clearing them once. */
  lemma ClearCompletedIdempotent(state: TasksState, first: string, second: string)
    ensures Step(Step(state, ClearCompleted, first), ClearCompleted, second) == Step(state, ClearCompleted, first)
  {
    FilterIdempotent(state.tasks, IsNotCompleted);
  }

  /**
   * `activeTasks` and `completedTasks` split the collection: each keeps the
   * order, holds only its own status, and together they hold every task.
   */
  lemma DerivedListsPartition(tasks: seq<Task>)
    ensures forall i :: 0 <= i < |ActiveTasks(tasks)| ==> ActiveTasks(tasks)[i].status == Active
    ensures forall i :: 0 <= i < |CompletedTasks(tasks)| ==> CompletedTasks(tasks)[i].status == Completed
    ensures IsSubsequence(ActiveTasks(tasks), tasks) && IsSubsequence(CompletedTasks(tasks), tasks)
    ensures multiset(ActiveTasks(tasks)) + multiset(CompletedTasks(tasks)) == multiset(tasks)
    ensures |ActiveTasks(tasks)| + |CompletedTasks(tasks)| == |tasks|
  {
    var a, c := ActiveTasks(tasks), CompletedTasks(tasks);
    forall i | 0 <= i < |a| ensures a[i].status == Active { assert a[i] in a; }
    forall i | 0 <= i < |c| ensures c[i].status == Completed { assert c[i] in c; }
    FilterIsSubsequence(tasks, IsActive);
    FilterIsSubsequence(tasks, IsCompleted);
    FilterPartition(tasks, IsActive, IsCompleted);
  }

  // ---------------------------------------------------------------------
  // Properties of the sanitised operations

  /**
   * A blank title alone sanitises to an update with no keys, so it is
   * rejected before it reaches the reducer.
   */
  lemma BlankTitleIsRejected(title: string)
    requires IsBlank(title)
    ensures SanitizedUpdate(TaskUpdate(Defined(title), Absent, Absent, Absent, Absent)).HasNoKeys()
  {
  }

  /**
   * A blank description alone is accepted (its key survives, holding
   * `undefined`), but the reducer skips `undefined`: every stored
   * description stays as it was and the matching tasks only get a new
   * `updatedAt`.
   */
  lemma BlankDescriptionKeepsDescription(state: TasksState, id: string, description: string, timestamp: string)
    requires IsBlank(description)
    ensures var u := SanitizedUpdate(TaskUpdate(Absent, Defined(description), Absent, Absent, Absent));
      && !u.HasNoKeys()
      && var r := Step(state, Update(id, u), timestamp).tasks;
      && |r| == |state.tasks|
      && forall i :: 0 <= i < |r| ==>
           r[i] == if state.tasks[i].id == id then state.tasks[i].(updatedAt := Some(timestamp)) else state.tasks[i]
  {
  }
}
