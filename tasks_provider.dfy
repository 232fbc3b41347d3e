/**
 * The stateful half of the task state container: the provider that holds
 * `{tasks, isHydrated, isLoading}` and changes it only by applying the
 * reducer. Ids and timestamps are parameters; the provider's callers
 * (the UI) get back a task or `None`, a boolean, or nothing.
 */
module Provider {
  import opened Wrappers
  import opened Strings
  import opened TaskTypes
  import opened TasksContext

  class TasksProvider {
    var tasks: seq<Task>
    var isHydrated: bool
    var isLoading: bool

    /** The reducer's view of the provider. */
    function State(): TasksState
      reads this
    {
      TasksState(tasks, isHydrated, isLoading)
    }

    /** A fresh provider starts empty, not hydrated and loading. */
    constructor ()
      ensures State() == InitialState
    {
      tasks, isHydrated, isLoading := [], false, true;
    }

    /** Applies one action through the reducer. */
    method Dispatch(action: TasksAction, timestamp: string)
      modifies this
      ensures State() == Step(old(State()), action, timestamp)
    {
      var next := Step(State(), action, timestamp);
      tasks, isHydrated, isLoading := next.tasks, next.isHydrated, next.isLoading;
    }

    /** The HYDRATE dispatched once loading from storage has finished. */
    method Hydrate(loaded: seq<Task>)
      modifies this
      ensures tasks == loaded && isHydrated && !isLoading
    {
      Dispatch(TasksAction.Hydrate(loaded), "");
    }

    /**
     * `addTask`: `None` and no change for a blank title; otherwise the new
     * active task, prepended. A fresh id keeps ids unique.
     */
    method AddTask(draft: TaskDraft, id: string, timestamp: string) returns (created: Option<Task>)
      requires id !in Ids(tasks)
      modifies this
      ensures created.None? <==> IsBlank(draft.title)
      ensures created.None? ==> State() == old(State())
      ensures created.Some? ==> created == NewTask(draft, id, timestamp)
      ensures created.Some? ==> tasks == [created.value] + old(tasks)
      ensures isHydrated == old(isHydrated) && isLoading == old(isLoading)
      ensures UniqueIds(old(tasks)) ==> UniqueIds(tasks)
      ensures AllConsistent(old(tasks)) ==> AllConsistent(tasks)
      ensures AllWellFormed(old(tasks)) ==> AllWellFormed(tasks)
    {
      created := NewTask(draft, id, timestamp);
      if created.Some? {
        if UniqueIds(tasks) {
          StepPreservesUniqueIds(State(), Add(created.value), timestamp);
        }
        if AllConsistent(tasks) {
          StepPreservesConsistency(State(), Add(created.value), timestamp);
        }
        if AllWellFormed(tasks) {
          StepPreservesWellFormedText(State(), Add(created.value), timestamp);
        }
        Dispatch(Add(created.value), timestamp);
      }
    }

    /**
     * `updateTask`: `false` and no change when the sanitised update has no
     * keys; otherwise the sanitised update is applied to the tasks with
     * this id and the result is `true`, whether or not such a task exists.
     */
    method UpdateTask(id: string, updates: TaskUpdate, timestamp: string) returns (accepted: bool)
      modifies this
      ensures accepted == !SanitizedUpdate(updates).HasNoKeys()
      ensures !accepted ==> State() == old(State())
      ensures accepted ==> State() == Step(old(State()), Update(id, SanitizedUpdate(updates)), timestamp)
      ensures UniqueIds(old(tasks)) ==> UniqueIds(tasks)
      ensures AllConsistent(old(tasks)) ==> AllConsistent(tasks)
      ensures AllWellFormed(old(tasks)) ==> AllWellFormed(tasks)
    {
      var sanitized := SanitizeUpdates(updates);
      if sanitized.HasNoKeys() {
        return false;
      }
      if UniqueIds(tasks) {
        StepPreservesUniqueIds(State(), Update(id, sanitized), timestamp);
      }
      if AllConsistent(tasks) {
        StepPreservesConsistency(State(), Update(id, sanitized), timestamp);
      }
      if AllWellFormed(tasks) {
        StepPreservesWellFormedText(State(), Update(id, sanitized), timestamp);
      }
      Dispatch(Update(id, sanitized), timestamp);
      accepted := true;
    }

    /** `toggleTask`: flips the status of the tasks with this id. */
    method ToggleTask(id: string, timestamp: string)
      modifies this
      ensures State() == Step(old(State()), Toggle(id), timestamp)
      ensures UniqueIds(old(tasks)) ==> UniqueIds(tasks)
      ensures AllConsistent(old(tasks)) ==> AllConsistent(tasks)
      ensures AllWellFormed(old(tasks)) ==> AllWellFormed(tasks)
    {
      if UniqueIds(tasks) {
        StepPreservesUniqueIds(State(), Toggle(id), timestamp);
      }
      if AllConsistent(tasks) {
        StepPreservesConsistency(State(), Toggle(id), timestamp);
      }
      if AllWellFormed(tasks) {
        StepPreservesWellFormedText(State(), Toggle(id), timestamp);
      }
      Dispatch(Toggle(id), timestamp);
    }

    /** `deleteTask`: removes the tasks with this id. */
    method DeleteTask(id: string)
      modifies this
      ensures State() == Step(old(State()), Delete(id), "")
      ensures id !in Ids(tasks)
      ensures UniqueIds(old(tasks)) ==> UniqueIds(tasks)
      ensures AllConsistent(old(tasks)) ==> AllConsistent(tasks)
      ensures AllWellFormed(old(tasks)) ==> AllWellFormed(tasks)
    {
      DeleteRemovesExactlyId(State(), id, "");
      if UniqueIds(tasks) {
        StepPreservesUniqueIds(State(), Delete(id), "");
      }
      if AllConsistent(tasks) {
        StepPreservesConsistency(State(), Delete(id), "");
      }
      if AllWellFormed(tasks) {
        StepPreservesWellFormedText(State(), Delete(id), "");
      }
      Dispatch(Delete(id), "");
    }

    /** `clearCompleted`: removes every completed task at once. */
    method ClearCompleted()
      modifies this
      ensures State() == Step(old(State()), TasksAction.ClearCompleted, "")
      ensures forall i :: 0 <= i < |tasks| ==> tasks[i].status == Active
      ensures UniqueIds(old(tasks)) ==> UniqueIds(tasks)
      ensures AllConsistent(old(tasks)) ==> AllConsistent(tasks)
      ensures AllWellFormed(old(tasks)) ==> AllWellFormed(tasks)
    {
      ClearCompletedKeepsOpenTasks(State(), "");
      if UniqueIds(tasks) {
        StepPreservesUniqueIds(State(), TasksAction.ClearCompleted, "");
      }
      if AllConsistent(tasks) {
        StepPreservesConsistency(State(), TasksAction.ClearCompleted, "");
      }
      if AllWellFormed(tasks) {
        StepPreservesWellFormedText(State(), TasksAction.ClearCompleted, "");
      }
      Dispatch(TasksAction.ClearCompleted, "");
    }
  }

  /**
   * The scenario of a new task toggled twice: created active with no
   * completion time, then completed at the first toggle, then active again
   * with `completedAt` back to `null` and `updatedAt` from the second toggle.
   */
  method AddThenToggleTwice(id: string, created: string, first: string, second: string)
  {
    var p := new TasksProvider();
    p.Hydrate([]);
    var t := p.AddTask(TaskDraft("Buy milk", None), id, created);
    assert !IsBlank("Buy milk") by { assert !IsWhitespace("Buy milk"[0]); }
    assert t.Some? && t.value.status == Active && t.value.completedAt == Null;
    assert t.value.updatedAt == Some(t.value.createdAt);
    ghost var before := p.State();
    p.ToggleTask(id, first);
    ToggleIsLocal(before, id, first);
    assert p.tasks[0].status == Completed && p.tasks[0].completedAt == At(first);
    before := p.State();
    p.ToggleTask(id, second);
    ToggleIsLocal(before, id, second);
    assert p.tasks[0].status == Active && p.tasks[0].completedAt == Null;
    assert p.tasks[0].updatedAt == Some(second);
    assert |p.tasks| == 1;
  }
}
