# Task state container and persisted-record validator

A Dafny model of the core of a personal task-tracking app: the task data
model, the state container that folds tagged actions (HYDRATE, ADD, UPDATE,
DELETE, TOGGLE, CLEAR_COMPLETED) through a pure reducer, the sanitisers that
normalise user input before it reaches the reducer, and the storage adapter
that validates stored records on load and normalises tasks on save.

Files and modules:

- `task_types.dfy` (`TaskTypes`): the datatypes `TaskStatus`
  (types/task.ts:1), `Task` (types/task.ts:3-11), `TaskDraft`
  (types/task.ts:13-16) and `TaskUpdate` (types/task.ts:18), the stamping invariant ("`completedAt` holds a timestamp
  exactly when the task is completed") and id uniqueness. `completedAt` has
  three states (`Unset`, `Null`, `At(time)`). The properties of an update are
  `Field<T>` values (`Absent`, `Undefined`, `Defined(v)`), so that "key
  present, value `undefined`" is kept apart from "key missing", as
  `Object.keys` does.
- `tasks_context.dfy` (`TasksContext`): `applyStatusMutation`, the reducer
  (`Step`), `sanitizeDraft`, `sanitizeUpdates` (a specification function
  and the method that fills the object key by key), the task built by
  `addTask`, the derived active and completed lists, and the lemmas about
  them.
- `tasks_provider.dfy` (`Provider`): the provider as a class holding
  `tasks`, `isHydrated` and `isLoading`; each operation applies `Step`.
- `tasks_storage.dfy` (`TasksStorage`): a JSON value datatype, `isRecord`,
  `coerceTask`, the `loadTasks` loop, the `saveTasks` normalisation and the
  save/load round trip.
- `strings.dfy` (`Strings`): `String.prototype.trim` over ECMAScript's
  white space and line terminators.
- `seqs.dfy` (`Seqs`), `wrappers.dfy` (`Wrappers`): `filter`, `map`, the
  keep-the-successes loop, and `Option`.

Timestamps and new ids are parameters; `AddTask` requires the new id not to
be in use. Timestamps are opaque strings and are never compared.

Behaviour of the code that a reader may not expect, which the model keeps:

- A blank description in an update does not clear the stored description.
  `sanitizeUpdates` keeps the `description` key with the value `undefined`
  (context/tasks-context.tsx:170-171). `updateTask` therefore returns true
  (line 224). The reducer then skips the key, because it tests `!== undefined`
  (line 93). So only `updatedAt` changes (`BlankDescriptionKeepsDescription`).
  As a result, the edit dialog cannot remove a description.
- DELETE removes every task with the given id, not just one.
- HYDRATE accepts whatever the loader returns. The loader accepts an empty
  title, a completed task whose `completedAt` is `null`, and repeated ids
  (`LoadedTaskMayBeInconsistent`, `HydrateMayBreakConsistency`).

## Model

| member | source | states |
|---|---|---|
| `Strings.Trim` | context/tasks-context.tsx:162 | `trim` gives the infix of the input between a blank prefix and a blank suffix; the result starts and ends with non-white space, and it is empty exactly when the input is blank |
| `TaskTypes.Flip` | context/tasks-context.tsx:115-116 | a toggle always switches to the other status |
| `TasksContext.ApplyStatusMutation` | context/tasks-context.tsx:34-54 | completing sets `updatedAt` and `completedAt` to the timestamp; reopening refreshes `updatedAt` and sets `completedAt` to null; id, title, description and `createdAt` are kept; the result always satisfies the stamping invariant |
| `TasksContext.ApplyUpdate` | context/tasks-context.tsx:73-101 | an update keeps id and `createdAt` and refreshes `updatedAt`; a status change is stamped, and an unchanged status leaves `completedAt` alone; only title and description values other than `undefined` are copied; the update's own `updatedAt` and `completedAt` are never read; the stamping invariant is preserved |
| `TasksContext.UpdateKeepsFixedFields` | types/task.ts:18 | an update type without `id` and `createdAt` cannot change them: any update, applied to a task, keeps its id and creation time |
| `TasksContext.ToggleOne` | context/tasks-context.tsx:113-118 | a toggled task has the other status and the same content; `updatedAt` becomes the toggle's timestamp, and `completedAt` becomes that timestamp when completed and null when reopened |
| `TasksContext.Step` | context/tasks-context.tsx:56-129 | HYDRATE replaces the tasks and sets hydrated, not loading; every other action keeps both flags; ADD prepends |
| `TasksContext.SanitizeDraft` | context/tasks-context.tsx:146-156 | a draft is rejected exactly when its title is blank; otherwise the title is trimmed and non-empty, and the description is present exactly when the input's is not blank, and then it is trimmed and non-empty |
| `TasksContext.SanitizedUpdate` | context/tasks-context.tsx:158-179 | only title, description and status can pass, never `updatedAt` or `completedAt`; the title passes, trimmed, only when not blank; a given description always keeps its key, holding `undefined` when blank; the result has no keys exactly when no non-blank title, no description and no status was given; any title or description it sets is non-empty and trimmed |
| `TasksContext.SanitizeUpdates` | context/tasks-context.tsx:158-179 | the key-by-key construction yields exactly `SanitizedUpdate` |
| `TasksContext.NewTask` | context/tasks-context.tsx:203-216 | `addTask` builds no task for a blank title; otherwise it builds a task with the given id and the trimmed title, status active, `completedAt` null and `createdAt == updatedAt == now`; the task satisfies the stamping invariant and the text invariant (non-blank trimmed title, non-empty trimmed description when present) |
| `TasksContext.UpdateIsLocal` | context/tasks-context.tsx:69-103 | UPDATE keeps length, order, every id and every `createdAt`; it changes only tasks with the given id; an unknown id changes nothing |
| `TasksContext.ToggleIsLocal` | context/tasks-context.tsx:109-120 | TOGGLE replaces each matching task by its toggled form, stamped with the action's timestamp; it keeps the content and leaves every other task unchanged; an unknown id changes nothing |
| `TasksContext.ToggleTwice` | context/tasks-context.tsx:109-120 | toggling twice restores each matching task's status, stamped with the second timestamp |
| `TasksContext.SameStatusUpdateOnlyRefreshes` | context/tasks-context.tsx:77-84 | an update whose status equals the current status only refreshes `updatedAt` |
| `TasksContext.StepPreservesUniqueIds` | context/tasks-context.tsx:64-125 | every action except HYDRATE keeps ids unique, provided ADD brings an unused id |
| `TasksContext.StepPreservesWellFormedText` | context/tasks-context.tsx:64-179 | ADD of a well-formed task, UPDATE with a sanitised update, TOGGLE, DELETE and CLEAR_COMPLETED keep every title non-blank and trimmed and every present description non-empty and trimmed |
| `TasksContext.StepPreservesConsistency` | context/tasks-context.tsx:34-125 | ADD of a consistent task, UPDATE, TOGGLE, DELETE and CLEAR_COMPLETED preserve "`completedAt` holds a timestamp exactly when completed" |
| `TasksContext.HydrateMayBreakConsistency` | context/tasks-context.tsx:58-63 | HYDRATE does not preserve the stamping invariant |
| `TasksContext.DeleteRemovesExactlyId` | context/tasks-context.tsx:104-108 | DELETE leaves no task with the id; it keeps every other task, as often as it occurred and in order; an unknown id changes nothing |
| `TasksContext.ClearCompletedKeepsOpenTasks` | context/tasks-context.tsx:121-125 | CLEAR_COMPLETED leaves only active tasks; it keeps every active task, as often as it occurred and in order; with nothing completed it changes nothing |
| `TasksContext.ClearCompletedIdempotent` | context/tasks-context.tsx:121-125 | clearing completed tasks twice gives the same result as clearing once |
| `TasksContext.ActiveTasks` | context/tasks-context.tsx:245 | `activeTasks` holds a task exactly when the collection holds it and it is active |
| `TasksContext.CompletedTasks` | context/tasks-context.tsx:246-248 | `completedTasks` holds a task exactly when the collection holds it and it is completed |
| `TasksContext.DerivedListsPartition` | context/tasks-context.tsx:245-248 | `activeTasks` and `completedTasks` keep the order and hold only their own status; together they hold every task, and their lengths sum to the number of tasks |
| `TasksContext.BlankTitleIsRejected` | context/tasks-context.tsx:161-166 | an update with only a blank title sanitises to an object with no keys, so `updateTask` returns false |
| `TasksContext.BlankDescriptionKeepsDescription` | context/tasks-context.tsx:168-172 | an update with only a blank description keeps its key, so it is accepted; through the reducer's `!== undefined` test (line 93) every description stays as it was, and matching tasks only get a new `updatedAt` |
| `Provider.TasksProvider.constructor` | context/tasks-context.tsx:28-32 | the container starts with no tasks, not hydrated and loading |
| `Provider.TasksProvider.Dispatch` | context/tasks-context.tsx:182 | dispatching replaces the state by the reducer's result |
| `Provider.TasksProvider.Hydrate` | context/tasks-context.tsx:187-190 | after loading, the tasks are the loaded ones, hydrated and not loading |
| `Provider.TasksProvider.AddTask` | context/tasks-context.tsx:203-220 | a blank title returns none and changes nothing; otherwise the new task is returned and prepended; the flags, id uniqueness, the stamping invariant and the text invariant are preserved |
| `Provider.TasksProvider.UpdateTask` | context/tasks-context.tsx:222-230 | returns false and changes nothing exactly when the sanitised update has no keys; otherwise applies UPDATE with the sanitised update; id uniqueness, the stamping invariant and the text invariant are preserved |
| `Provider.TasksProvider.ToggleTask` | context/tasks-context.tsx:232-234 | applies TOGGLE; id uniqueness, the stamping invariant and the text invariant are preserved |
| `Provider.TasksProvider.DeleteTask` | context/tasks-context.tsx:236-238 | applies DELETE; afterwards no task has the id; id uniqueness, the stamping invariant and the text invariant are preserved |
| `Provider.TasksProvider.ClearCompleted` | context/tasks-context.tsx:240-242 | applies CLEAR_COMPLETED; afterwards every task is active; id uniqueness, the stamping invariant and the text invariant are preserved |
| `TasksStorage.StatusOf` | storage/tasks-storage.ts:24-26 | a stored status is accepted exactly when it is the string "active" or "completed" |
| `TasksStorage.CoerceTask` | storage/tasks-storage.ts:12-40 | a record is accepted exactly when it is an object with string `id`, `title` and `createdAt` and a known status (an empty title is accepted); arrays and other non-objects are rejected; the description is kept only when it is a non-empty string; `updatedAt` is kept only when it is a string; `completedAt` is a string timestamp when stored as a string, and null otherwise |
| `TasksStorage.ArraysAreRecordsButNoTasks` | storage/tasks-storage.ts:9-10 | `isRecord` accepts arrays but not null or the other scalars; neither an array nor a scalar validates as a task |
| `TasksStorage.LoadTasks` | storage/tasks-storage.ts:42-63 | a failed read, a missing or empty record, a parse failure or a non-array yields no tasks; an array yields, in order, the tasks of the elements that validate |
| `TasksStorage.NormalizeForSave` | storage/tasks-storage.ts:67-72 | save normalisation turns a missing `completedAt` into null and changes no other field; a task whose `completedAt` is present is left exactly as it is |
| `TasksStorage.ToRecord` | storage/tasks-storage.ts:67-74 | the stored object always has `id`, `title`, `status` (spelt "active" or "completed") and `createdAt`; it has `description` and `updatedAt` exactly when they are defined; `completedAt` is stored as null or as the timestamp, and omitted when missing; no other key is written |
| `TasksStorage.SavePayload` | storage/tasks-storage.ts:65-74 | the saved value is an array whose i-th item is the stored object of the i-th task, normalised |
| `TasksStorage.RecordRoundTrip` | storage/tasks-storage.ts:32-38 | a saved task reads back as its normalised self exactly when its description is not the empty string |
| `TasksStorage.LoadAfterSave` | storage/tasks-storage.ts:50-58 | loading what was saved gives back every task, normalised and in order, when no description is empty |
| `TasksStorage.RecordWithoutIdIsDropped` | storage/tasks-storage.ts:16-22 | an array holding a well-formed task and a record without an id loads as that task alone |
| `TasksStorage.LoadedTaskMayBeInconsistent` | storage/tasks-storage.ts:24-38 | a completed record without `completedAt`, or with an empty title, is accepted; the loaded task then breaks the stamping invariant |
| `Seqs.FilterMapAppend` | storage/tasks-storage.ts:51-56 | the load loop handles each element on its own: loading a concatenation gives the concatenation of the loads |
| `Seqs.FilterMapDropsFailure` | storage/tasks-storage.ts:51-56 | an invalid element is dropped without affecting the others |

## Left out

- `sanitizeUpdates` copies any truthy status (context/tasks-context.tsx:174) without checking that it is "active" or "completed". The model's status type has only those two values, so an unknown status cannot be expressed.
- React plumbing is not modelled: `createContext`, the `useReducer` dispatch mechanics, `useMemo`, `useCallback`, and the throw in `useTasksContext`. The class applies the reducer directly.
- The mount effect and its `isMounted` cancellation are not modelled (context/tasks-context.tsx:184-196). They depend on React's effect scheduling; `Hydrate` is the transition the effect dispatches.
- The save effect is not modelled (context/tasks-context.tsx:198-201). It depends on effect scheduling and array identity. It also fires right after HYDRATE, which the model does not track.
- AsyncStorage, `JSON.parse`, `JSON.stringify` and `console.warn` are not modelled. The storage read is a `StoredItem`. Parsing is a parameter that returns `None` when it throws. A save is the JSON value that would be written. The race between overlapping saves is concurrency and is left out.
- `clearTasks` and the write and catch of `saveTasks` are left out: each is a storage call whose error is swallowed.
- `nanoid()` and `new Date().toISOString()` are parameters. No ordering between timestamps, such as `createdAt <= updatedAt`, is modelled.
- `Provider.TasksProvider.AddTask`: requires the new id to be unused, which stands for the assumption that `nanoid` does not collide.
- The reducer's `default` branch is left out: the action type is closed, so it cannot be reached.
- A task's `description` or `updatedAt` key holding `undefined` is the same as a missing key (`None`). Nothing in the core tells the two apart, and `JSON.stringify` drops both.
- `TasksStorage.Property`: only the seven task property names are looked up. Arrays are modelled as having none of them, which holds for JavaScript arrays. JSON numbers are integers, since the core never reads one.
- Strings are sequences of Unicode scalar values, not UTF-16 code units. The core only tests whether a string is empty, and both representations agree on that.
- The UI components and the completion meter are presentation only and are not modelled.
