/**
 * The task data model: `TaskStatus`, `Task`, `TaskDraft` and `TaskUpdate`.
 *
 * Strings are `seq<char>`; timestamps are opaque ISO-8601 strings that the
 * model never compares.
 */
module TaskTypes {
  import opened Wrappers

  /** A task is either open or done. */
  datatype TaskStatus = Active | Completed

  /**
   * `completedAt?: string | null` has three states a reader can tell apart:
   * the key is missing (`Unset`), it holds `null`, or it holds a timestamp.
   */
  datatype CompletedAt = Unset | Null | At(time: string)

  /**
   * A property of an object literal whose keys are counted
   * (`Object.keys`): the key is missing, the key is present but holds
   * `undefined`, or it holds a value.
   */
  datatype Field<T> = Absent | Undefined | Defined(value: T)
  {
    /** The key is one of `Object.keys` of the object. */
    predicate HasKey()
    {
      !Absent?
    }
  }

  /**
   * A stored task. `description` and `updatedAt` are optional; a key that
   * holds `undefined` is read by every consumer exactly like a missing key,
   * so both are `None`.
   */
  datatype Task = Task(
    id: string,
    title: string,
    description: Option<string>,
    status: TaskStatus,
    createdAt: string,
    updatedAt: Option<string>,
    completedAt: CompletedAt)

  /** User input for a new task: a title and maybe a description. */
  datatype TaskDraft = TaskDraft(title: string, description: Option<string>)

  /**
   * `Partial<Omit<Task, "id" | "createdAt">>`: every field of a task except
   * the two that are fixed at creation, each of which may be missing, present
   * but `undefined`, or given. `completedAt` holds `None` for `null`.
   */
  datatype TaskUpdate = TaskUpdate(
    title: Field<string>,
    description: Field<string>,
    status: Field<TaskStatus>,
    updatedAt: Field<string>,
    completedAt: Field<Option<string>>)
  {
    /** `Object.keys(update).length === 0`. */
    predicate HasNoKeys()
    {
      !title.HasKey() && !description.HasKey() && !status.HasKey()
      && !updatedAt.HasKey() && !completedAt.HasKey()
    }
  }

  /** The empty object literal `{}`. */
  const EmptyUpdate := TaskUpdate(Absent, Absent, Absent, Absent, Absent)

  /** The other status: what a toggle switches to. */
  function Flip(status: TaskStatus): (r: TaskStatus)
    ensures r != status
  {
    if status == Completed then Active else Completed
  }

  /** The stamping invariant: `completedAt` holds a timestamp exactly when the task is completed. */
  predicate CompletionConsistent(t: Task)
  {
    t.completedAt.At? <==> t.status == Completed
  }

  /** Every task of the collection keeps the stamping invariant. */
  ghost predicate AllConsistent(tasks: seq<Task>)
  {
    forall i :: 0 <= i < |tasks| ==> CompletionConsistent(tasks[i])
  }

  /** The ids used in the collection. */
  function Ids(tasks: seq<Task>): set<string>
  {
    set i | 0 <= i < |tasks| :: tasks[i].id
  }

  /** No two tasks of the collection share an id. */
  ghost predicate UniqueIds(tasks: seq<Task>)
  {
    forall i, j :: 0 <= i < j < |tasks| ==> tasks[i].id != tasks[j].id
  }
}
