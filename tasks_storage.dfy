/**
 * The persistent store adapter: the structural validation of stored
 * records, the load that keeps the records that validate, and the field
 * normalisation applied before saving, with the round trip between them.
 *
 * The storage itself, `JSON.parse` and `JSON.stringify` are outside the
 * model: the read is a `StoredItem`, parsing is a parameter, and a saved
 * collection is the JSON value that `JSON.stringify` would print.
 */
module TasksStorage {
  import opened Wrappers
  import opened Seqs
  import opened TaskTypes

  /**
   * A JSON value. An object maps each of its keys to a value; JSON has no
   * `undefined`, so a property that would hold it is simply missing.
   * Numbers play no part in the core and are kept as integers.
   */
  datatype Json =
    | JNull
    | JBool(b: bool)
    | JNumber(n: int)
    | JString(str: string)
    | JArray(items: seq<Json>)
    | JObject(fields: map<string, Json>)

  /** `isRecord`: `typeof value === "object" && value !== null`, which arrays pass too. */
  predicate IsRecord(value: Json)
  {
    value.JObject? || value.JArray?
  }

  /**
   * `value[key]` for the seven task property names; `None` is `undefined`.
   * An array has none of these properties.
   */
  function Property(value: Json, key: string): Option<Json>
  {
    if value.JObject? && key in value.fields then Some(value.fields[key]) else None
  }

  /** `value[key]` when `typeof value[key] === "string"`. */
  function StringProperty(value: Json, key: string): Option<string>
  {
    match Property(value, key)
    case Some(JString(s)) => Some(s)
    case _ => None
  }

  /** The stored spelling of a status. */
  function StatusName(status: TaskStatus): string
  {
    if status == Active then "active" else "completed"
  }

  /** The status property, when it is one of the two stored spellings. */
  function StatusOf(value: Json): (r: Option<TaskStatus>)
    ensures r.Some? <==> Property(value, "status") == Some(JString("active")) || Property(value, "status") == Some(JString("completed"))
    ensures r.Some? ==> Property(value, "status") == Some(JString(StatusName(r.value)))
  {
    match StringProperty(value, "status")
    case Some(s) => if s == "active" then Some(Active) else if s == "completed" then Some(Completed) else None
    case None => None
  }

  /**
   * `coerceTask`: a task from a stored record, or `None` when the record is
   * not an object, lacks a string `id`, `title` or `createdAt`, or has a
   * status other than the two known ones. An empty title passes. The
   * description survives only when it is a non-empty string, `updatedAt`
   * only when it is a string, and `completedAt` is a timestamp when it is a
   * string and `null` otherwise.
   */
  function CoerceTask(value: Json): (r: Option<Task>)
    ensures !value.JObject? ==> r.None?
    ensures r.Some? <==>
      && IsRecord(value)
      && StringProperty(value, "id").Some?
      && StringProperty(value, "title").Some?
      && StringProperty(value, "createdAt").Some?
      && StatusOf(value).Some?
    ensures r.Some? ==>
      && Property(value, "id") == Some(JString(r.value.id))
      && Property(value, "title") == Some(JString(r.value.title))
      && Property(value, "createdAt") == Some(JString(r.value.createdAt))
      && Property(value, "status") == Some(JString(StatusName(r.value.status)))
    ensures r.Some? ==>
      (r.value.description.Some? <==> exists d :: Property(value, "description") == Some(JString(d)) && d != [])
    ensures r.Some? && r.value.description.Some? ==>
      Property(value, "description") == Some(JString(r.value.description.value))
    ensures r.Some? ==> r.value.updatedAt == StringProperty(value, "updatedAt")
    ensures r.Some? ==>
              r.value.completedAt == (match StringProperty(value, "completedAt")
                                      case Some(time) => At(time)
                                      case None => Null)
  {
    if !IsRecord(value) then None
    else
      var id, title, createdAt := StringProperty(value, "id"), StringProperty(value, "title"), StringProperty(value, "createdAt");
      if id.None? || title.None? || createdAt.None? then None
      else
        match StatusOf(value)
        case None => None
        case Some(status) =>
          var description := StringProperty(value, "description");
          var completedAt := StringProperty(value, "completedAt");
          Some(Task(
            id.value,
            title.value,
            if description.Some? && |description.value| > 0 then description else None,
            status,
            createdAt.value,
            StringProperty(value, "updatedAt"),
            if completedAt.Some? then At(completedAt.value) else Null))
  }

  /**
   * `isRecord` lets arrays through, but no array is a task: an array has no
   * string `id`, so `coerceTask` rejects it. `null` and the other scalars are
   * not records.
   */
  lemma ArraysAreRecordsButNoTasks(items: seq<Json>, scalar: Json)
    requires scalar.JNull? || scalar.JBool? || scalar.JNumber? || scalar.JString?
    ensures IsRecord(JArray(items)) && CoerceTask(JArray(items)).None?
    ensures !IsRecord(scalar) && CoerceTask(scalar).None?
  {
  }

  /** The outcome of reading the storage key. */
  datatype StoredItem =
    | ReadFailed          // the read rejected
    | NotStored           // no record under the key
    | Stored(raw: string) // the serialised record

  /**
   * `loadTasks`. A failed read, a missing or empty record, a record
   * `parse` rejects (`None`: `JSON.parse` threw) and a record that is not an
   * array all give the empty collection; an array gives, in order, the
   * tasks of the elements that validate.
   */
  method LoadTasks(item: StoredItem, parse: string -> Option<Json>) returns (tasks: seq<Task>)
    ensures !item.Stored? || item.raw == [] ==> tasks == []
    ensures item.Stored? && item.raw != [] ==>
      tasks == match parse(item.raw)
               case Some(JArray(items)) => FilterMap(items, CoerceTask)
               case _ => []
  {
    if !item.Stored? || item.raw == [] {
      return [];
    }
    var parsed := parse(item.raw);
    if !parsed.Some? || !parsed.value.JArray? {
      return [];
    }
    var items := parsed.value.items;
    tasks := [];
    for i := 0 to |items|
      invariant tasks == FilterMap(items[..i], CoerceTask)
    {
      var task := CoerceTask(items[i]);
      FilterMapAppend(items[..i], [items[i]], CoerceTask);
      assert items[..i + 1] == items[..i] + [items[i]];
      if task.Some? {
        tasks := tasks + [task.value];
      }
    }
    assert items[..|items|] == items;
  }

  /**
   * The field normalisation of `saveTasks`: a missing `completedAt`
   * becomes `null`. (`description ?? undefined` and `updatedAt ?? undefined`
   * change nothing here: a missing field and `undefined` are both `None`.)
   */
  function NormalizeForSave(task: Task): (r: Task)
    ensures !r.completedAt.Unset?
    ensures r.completedAt.At? <==> task.completedAt.At?
    ensures r.(completedAt := task.completedAt) == task
    ensures !task.completedAt.Unset? ==> r == task
  {
    task.(completedAt := if task.completedAt.Unset? then Null else task.completedAt)
  }

  /**
   * The stored form of one (normalised) task: `JSON.stringify` leaves out
   * the properties that hold `undefined`.
   */
  function ToRecord(task: Task): (r: Json)
    ensures r.JObject?
    ensures "id" in r.fields && r.fields["id"] == JString(task.id)
    ensures "title" in r.fields && r.fields["title"] == JString(task.title)
    ensures "status" in r.fields && r.fields["status"] == JString(StatusName(task.status))
    ensures "createdAt" in r.fields && r.fields["createdAt"] == JString(task.createdAt)
    ensures "description" in r.fields <==> task.description.Some?
    ensures task.description.Some? ==> r.fields["description"] == JString(task.description.value)
    ensures "updatedAt" in r.fields <==> task.updatedAt.Some?
    ensures task.updatedAt.Some? ==> r.fields["updatedAt"] == JString(task.updatedAt.value)
    ensures "completedAt" in r.fields <==> !task.completedAt.Unset?
    ensures task.completedAt.Null? ==> r.fields["completedAt"] == JNull
    ensures task.completedAt.At? ==> r.fields["completedAt"] == JString(task.completedAt.time)
    ensures r.fields.Keys <= {"id", "title", "status", "createdAt", "description", "updatedAt", "completedAt"}
  {
    var required := map[
      "id" := JString(task.id),
      "title" := JString(task.title),
      "status" := JString(StatusName(task.status)),
      "createdAt" := JString(task.createdAt)];
    var withDescription :=
      if task.description.Some? then required["description" := JString(task.description.value)] else required;
    var withUpdatedAt :=
      if task.updatedAt.Some? then withDescription["updatedAt" := JString(task.updatedAt.value)] else withDescription;
    JObject(
      match task.completedAt
      case Unset => withUpdatedAt
      case Null => withUpdatedAt["completedAt" := JNull]
      case At(time) => withUpdatedAt["completedAt" := JString(time)])
  }

  /** The stored form of one task as `saveTasks` writes it. */
  function Saved(task: Task): Json
  {
    ToRecord(NormalizeForSave(task))
  }

  /** What `saveTasks` writes: the array of the stored forms, in order. */
  function SavePayload(tasks: seq<Task>): (r: Json)
    ensures r.JArray? && |r.items| == |tasks|
    ensures forall i :: 0 <= i < |tasks| ==> r.items[i] == Saved(tasks[i])
  {
    JArray(Map(tasks, Saved))
  }

  /**
   * A saved task reads back as its normalised self exactly when its
   * description is not the empty string (which the reader drops).
   */
  lemma RecordRoundTrip(task: Task)
    ensures CoerceTask(Saved(task)) == Some(NormalizeForSave(task)) <==> task.description != Some([])
  {
    var n := NormalizeForSave(task);
    var r := Saved(task);
    assert StringProperty(r, "id") == Some(task.id);
    assert StringProperty(r, "title") == Some(task.title);
    assert StringProperty(r, "createdAt") == Some(task.createdAt);
    assert StatusOf(r) == Some(task.status);
    assert StringProperty(r, "updatedAt") == task.updatedAt;
    var c := CoerceTask(r);
    assert c.Some?;
    if task.description == Some([]) {
      assert c.value.description == None;
    } else {
      assert c.value.description == task.description;
      assert c.value.completedAt == n.completedAt;
    }
  }

  /**
   * Saving then loading gives back every task, normalised, in order, as
   * long as no description is the empty string.
   */
  lemma LoadAfterSave(tasks: seq<Task>)
    requires forall i :: 0 <= i < |tasks| ==> tasks[i].description != Some([])
    ensures FilterMap(SavePayload(tasks).items, CoerceTask) == Map(tasks, NormalizeForSave)
  {
    var items := SavePayload(tasks).items;
    var back := (j: Json) => if CoerceTask(j).Some? then CoerceTask(j).value else Task([], [], None, Active, [], None, Null);
    forall i | 0 <= i < |items| ensures CoerceTask(items[i]) == Some(back(items[i])) {
      RecordRoundTrip(tasks[i]);
    }
    FilterMapTotal(items, CoerceTask, back);
    forall i | 0 <= i < |tasks| ensures Map(items, back)[i] == NormalizeForSave(tasks[i]) {
      RecordRoundTrip(tasks[i]);
    }
  }

  /**
   * A stored array holding one well-formed task and one record without an
   * id loads as that task alone.
   */
  lemma RecordWithoutIdIsDropped(task: Task, broken: map<string, Json>)
    requires task.description != Some([])
    requires "id" !in broken
    ensures FilterMap([Saved(task), JObject(broken)], CoerceTask) == [NormalizeForSave(task)]
  {
    RecordRoundTrip(task);
    assert CoerceTask(JObject(broken)).None?;
    FilterMapAppend([Saved(task)], [JObject(broken)], CoerceTask);
  }

  /**
   * The reader does not check the stamping invariant, nor that the title is
   * non-empty: a completed record without `completedAt` loads as a
   * completed task whose `completedAt` is `null`.
   */
  lemma LoadedTaskMayBeInconsistent(id: string, createdAt: string)
    ensures var record := JObject(map[
              "id" := JString(id), "title" := JString(""),
              "status" := JString("completed"), "createdAt" := JString(createdAt)]);
      && CoerceTask(record) == Some(Task(id, "", None, Completed, createdAt, None, Null))
      && !CompletionConsistent(CoerceTask(record).value)
  {
  }
}
