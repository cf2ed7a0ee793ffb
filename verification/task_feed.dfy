/**
 * The shared task list of hooks/useTasksWithRealtime.ts: row normalisation,
 * the reducer the realtime change feed drives, the optimistic patch, the
 * write payloads, the 100-row chunking of bulk writes, fetch outcomes and the
 * "live" connection flag. Database calls are not modelled; their outcomes are
 * inputs.
 */
module TaskFeed {
  import opened Common
  import opened JsValue
  import Text

  /** `extra_data`: the imported columns, as string bindings. */
  type Extra = seq<(string, string)>

  datatype Task = Task(
    id: string,
    content: string,
    status: string,
    assignee: Option<string>,
    lastUpdatedBy: Option<string>,
    priority: Option<string>,
    updatedAt: Option<string>,
    projectId: Option<string>,
    dueDate: Option<string>,
    extraData: Option<Extra>)

  // ---------------------------------------------------------------------------
  // Row normalisation (`mapRowToTask`)

  /** The entries of an object (each key once, with its value) that are not
      `null`, stringified. */
  function ExtraFrom(fields: Row, keys: seq<string>): (e: Extra)
    requires forall i :: 0 <= i < |keys| ==> Lookup(fields, keys[i]).Some?
    ensures forall k :: Lookup(e, k).Some? ==> k in keys
    ensures forall k :: k in keys && !Lookup(fields, k).value.Null? ==> Lookup(e, k).Some?
    decreases |keys|
  {
    if |keys| == 0 then []
    else
      var rest := ExtraFrom(fields, keys[..|keys| - 1]);
      var k := keys[|keys| - 1];
      var v := Lookup(fields, k).value;
      if v.Null? then rest else rest + [(k, ToStr(v))]
  }

  /** `mapRowToTask` */
  function MapRow(row: Row): (t: Task)
    ensures IsNullish(Lookup(row, "content")) ==> t.content == ""
    ensures IsNullish(Lookup(row, "status")) ==> t.status == ""
    ensures t.assignee.None? <==> IsNullish(Lookup(row, "assignee"))
    ensures t.lastUpdatedBy.None? <==> IsNullish(Lookup(row, "last_updated_by"))
    ensures t.priority.None? <==> IsNullish(Lookup(row, "priority"))
    ensures t.updatedAt.None? <==> IsNullish(Lookup(row, "updated_at"))
    ensures t.projectId.None? <==> IsNullish(Lookup(row, "project_id"))
    ensures t.dueDate.None? <==> IsNullish(Lookup(row, "due_date"))
    ensures t.extraData.Some? <==> Lookup(row, "extra_data").Some? && Lookup(row, "extra_data").value.Obj?
    ensures ReadsAs(Lookup(row, "id"), t.id) && (Lookup(row, "id").None? ==> t.id == "undefined")
    ensures ReadsAs(Lookup(row, "content"), t.content) && ReadsAs(Lookup(row, "status"), t.status)
    ensures t.assignee.Some? ==> ReadsAs(Lookup(row, "assignee"), t.assignee.value)
    ensures t.lastUpdatedBy.Some? ==> ReadsAs(Lookup(row, "last_updated_by"), t.lastUpdatedBy.value)
    ensures t.priority.Some? ==> ReadsAs(Lookup(row, "priority"), t.priority.value)
    ensures t.updatedAt.Some? ==> ReadsAs(Lookup(row, "updated_at"), t.updatedAt.value)
    ensures t.projectId.Some? ==> ReadsAs(Lookup(row, "project_id"), t.projectId.value)
    ensures t.dueDate.Some? ==> ReadsAs(Lookup(row, "due_date"), t.dueDate.value)
  {
    var extra := Lookup(row, "extra_data");
    Task(
      StrOf(Lookup(row, "id")),
      StrOrEmpty(Lookup(row, "content")),
      StrOrEmpty(Lookup(row, "status")),
      StrOrNull(Lookup(row, "assignee")),
      StrOrNull(Lookup(row, "last_updated_by")),
      StrOrNull(Lookup(row, "priority")),
      StrOrNull(Lookup(row, "updated_at")),
      StrOrNull(Lookup(row, "project_id")),
      StrOrNull(Lookup(row, "due_date")),
      if extra.Some? && extra.value.Obj? then
        var fields := extra.value.fields;
        Some(ExtraFrom(fields, KeysOf(fields)))
      else None)
  }

  /** A string entry of `extra_data` is kept as it is, another non-null entry is
      stringified, and a `null` entry is dropped. */
  lemma {:induction false} ExtraFromEntries(fields: Row, keys: seq<string>, k: string)
    requires forall i :: 0 <= i < |keys| ==> Lookup(fields, keys[i]).Some?
    requires NoDuplicates(keys)
    requires k in keys
    ensures Lookup(fields, k).value.Null? ==> Lookup(ExtraFrom(fields, keys), k).None?
    ensures !Lookup(fields, k).value.Null? ==> Lookup(ExtraFrom(fields, keys), k) == Some(ToStr(Lookup(fields, k).value))
    decreases |keys|
  {
    var init := keys[..|keys| - 1];
    var last := keys[|keys| - 1];
    var rest := ExtraFrom(fields, init);
    if k == last {
      assert k !in init by {
        forall i | 0 <= i < |init| ensures init[i] != k {
          assert init[i] == keys[i];
        }
      }
      if Lookup(fields, k).value.Null? {
        assert Lookup(rest, k).None?;
      } else {
        assert (rest + [(k, ToStr(Lookup(fields, k).value))])[..|rest|] == rest;
      }
    } else {
      var i :| 0 <= i < |keys| && keys[i] == k;
      assert init[i] == k;
      ExtraFromEntries(fields, init, k);
      if !Lookup(fields, last).value.Null? {
        assert (rest + [(last, ToStr(Lookup(fields, last).value))])[..|rest|] == rest;
      }
    }
  }

  /** The `extra_data` of a normalised row holds exactly the non-null entries of
      the stored object, stringified (`String` leaves strings unchanged). */
  lemma MapRowExtra(row: Row, k: string)
    requires Lookup(row, "extra_data").Some? && Lookup(row, "extra_data").value.Obj?
    ensures var fields := Lookup(row, "extra_data").value.fields;
      var e := MapRow(row).extraData.value;
      && (Lookup(fields, k).None? ==> Lookup(e, k).None?)
      && (Lookup(fields, k).Some? && Lookup(fields, k).value.Null? ==> Lookup(e, k).None?)
      && (Lookup(fields, k).Some? && !Lookup(fields, k).value.Null? ==> Lookup(e, k) == Some(ToStr(Lookup(fields, k).value)))
  {
    var fields := Lookup(row, "extra_data").value.fields;
    var keys := KeysOf(fields);
    if Lookup(fields, k).Some? {
      ExtraFromEntries(fields, keys, k);
    }
  }

  /** The row the store delivers for a task: each column as a string or
      `null`, the extra data as an object of strings. */
  function StoredRow(t: Task): Row {
    [("id", Str(t.id)), ("content", Str(t.content)), ("status", Str(t.status)),
     ("assignee", OrNull(t.assignee)), ("last_updated_by", OrNull(t.lastUpdatedBy)),
     ("priority", OrNull(t.priority)), ("updated_at", OrNull(t.updatedAt)),
     ("project_id", OrNull(t.projectId)), ("due_date", OrNull(t.dueDate)),
     ("extra_data", if t.extraData.Some? then Obj(Strings(t.extraData.value)) else Null)]
  }

  function OrNull(s: Option<string>): Value {
    if s.Some? then Str(s.value) else Null
  }

  /** An object of strings. */
  function Strings(e: Extra): (r: Row)
    ensures |r| == |e|
    ensures forall i :: 0 <= i < |e| ==> r[i] == (e[i].0, Str(e[i].1))
  {
    seq(|e|, i requires 0 <= i < |e| => (e[i].0, Str(e[i].1)))
  }

  /** Wrapping every value in `Str` keeps which keys are bound. */
  lemma {:induction false} LookupStrings(e: Extra, k: string)
    ensures Lookup(Strings(e), k).None? <==> Lookup(e, k).None?
    ensures Lookup(e, k).Some? ==> Lookup(Strings(e), k) == Some(Str(Lookup(e, k).value))
    decreases |e|
  {
    if |e| > 0 && e[|e| - 1].0 != k {
      LookupStrings(e[..|e| - 1], k);
      assert Strings(e)[..|e| - 1] == Strings(e[..|e| - 1]);
    }
  }

  /** Each column of a stored row holds the field it was written from. */
  lemma StoredRowLookups(t: Task)
    ensures Lookup(StoredRow(t), "id") == Some(Str(t.id))
    ensures Lookup(StoredRow(t), "content") == Some(Str(t.content))
    ensures Lookup(StoredRow(t), "status") == Some(Str(t.status))
    ensures Lookup(StoredRow(t), "assignee") == Some(OrNull(t.assignee))
    ensures Lookup(StoredRow(t), "last_updated_by") == Some(OrNull(t.lastUpdatedBy))
    ensures Lookup(StoredRow(t), "priority") == Some(OrNull(t.priority))
    ensures Lookup(StoredRow(t), "updated_at") == Some(OrNull(t.updatedAt))
    ensures Lookup(StoredRow(t), "project_id") == Some(OrNull(t.projectId))
    ensures Lookup(StoredRow(t), "due_date") == Some(OrNull(t.dueDate))
    ensures Lookup(StoredRow(t), "extra_data")
      == Some(if t.extraData.Some? then Obj(Strings(t.extraData.value)) else Null)
  {
    var row := StoredRow(t);
    assert DistinctKeys(row);
    LookupIndex(row, 0); LookupIndex(row, 1); LookupIndex(row, 2); LookupIndex(row, 3);
    LookupIndex(row, 4); LookupIndex(row, 5); LookupIndex(row, 6); LookupIndex(row, 7);
    LookupIndex(row, 8); LookupIndex(row, 9);
  }

  /** The extra data of a stored row reads back binding by binding. */
  lemma StoredExtraReadsBack(t: Task)
    ensures MapRow(StoredRow(t)).extraData.Some? <==> t.extraData.Some?
    ensures t.extraData.Some? ==>
      forall k :: Lookup(MapRow(StoredRow(t)).extraData.value, k) == Lookup(t.extraData.value, k)
  {
    var row := StoredRow(t);
    StoredRowLookups(t);
    if t.extraData.Some? {
      var e := t.extraData.value;
      forall k ensures Lookup(MapRow(row).extraData.value, k) == Lookup(e, k) {
        MapRowExtra(row, k);
        LookupStrings(e, k);
      }
    }
  }

  /** A task written out as a row the way the database stores it reads back as
      the same task; its extra data comes back binding by binding. */
  lemma MapRowReadsStored(t: Task)
    ensures var m := MapRow(StoredRow(t));
      && m.(extraData := t.extraData) == t
      && (m.extraData.Some? <==> t.extraData.Some?)
      && (t.extraData.Some? ==> forall k :: Lookup(m.extraData.value, k) == Lookup(t.extraData.value, k))
  {
    var m := MapRow(StoredRow(t));
    StoredRowLookups(t);
    assert m.id == t.id && m.content == t.content && m.status == t.status;
    assert m.assignee == t.assignee && m.lastUpdatedBy == t.lastUpdatedBy && m.priority == t.priority;
    assert m.updatedAt == t.updatedAt && m.projectId == t.projectId && m.dueDate == t.dueDate;
    StoredExtraReadsBack(t);
  }

  /** `String(newRecord.id)` when the id is present, `null` otherwise. */
  function RowId(row: Row): (id: Option<string>)
    ensures id.Some? ==> MapRow(row).id == id.value
  {
    StrOrNull(Lookup(row, "id"))
  }

  // ---------------------------------------------------------------------------
  // The change reducer

  /** A change event: the `new` record of an INSERT or UPDATE, the `old` record
      of a DELETE. */
  datatype Change = Insert(newRow: Row) | Update(newRow: Row) | Delete(oldRow: Row)

  predicate HasId(tasks: seq<Task>, id: string) {
    exists i :: 0 <= i < |tasks| && tasks[i].id == id
  }

  predicate UniqueIds(tasks: seq<Task>) {
    forall i, j :: 0 <= i < j < |tasks| ==> tasks[i].id != tasks[j].id
  }

  /** A JavaScript truthy id: present and not empty. */
  predicate Truthy(id: Option<string>) {
    id.Some? && id.value != ""
  }

  function ReplaceById(tasks: seq<Task>, id: string, t: Task): (r: seq<Task>)
    ensures |r| == |tasks|
    ensures forall i :: 0 <= i < |r| ==> r[i] == if tasks[i].id == id then t else tasks[i]
  {
    seq(|tasks|, i requires 0 <= i < |tasks| => if tasks[i].id == id then t else tasks[i])
  }

  function RemoveId(tasks: seq<Task>, id: string): (r: seq<Task>)
    ensures !HasId(r, id)
    ensures forall t :: t in r <==> t in tasks && t.id != id
    ensures IsSubsequence(r, tasks)
  {
    var r := Filter(tasks, (t: Task) => t.id != id);
    forall t ensures t in r <==> t in tasks && t.id != id {
      FilterMembers(tasks, (t: Task) => t.id != id, t);
    }
    FilterIsSubsequence(tasks, (t: Task) => t.id != id);
    r
  }

  /** The `setTasks((prev) => …)` callback of the change feed. An INSERT adds
      the normalised row at the end unless a task with its id is present; an
      UPDATE replaces every task with its id; a DELETE removes them. */
  function Apply(tasks: seq<Task>, ev: Change): (r: seq<Task>)
    ensures ev.Insert? && RowId(ev.newRow).Some? && HasId(tasks, RowId(ev.newRow).value) ==> r == tasks
    ensures ev.Insert? && !(RowId(ev.newRow).Some? && HasId(tasks, RowId(ev.newRow).value)) ==>
      r == tasks + [MapRow(ev.newRow)]
    ensures ev.Update? && !Truthy(RowId(ev.newRow)) ==> r == tasks
    ensures ev.Update? && Truthy(RowId(ev.newRow)) ==> (|r| == |tasks| &&
      forall i :: 0 <= i < |r| ==>
        if tasks[i].id == RowId(ev.newRow).value then r[i] == MapRow(ev.newRow) else r[i] == tasks[i])
    ensures ev.Delete? && !Truthy(RowId(ev.oldRow)) ==> r == tasks
    ensures ev.Delete? && Truthy(RowId(ev.oldRow)) ==> r == RemoveId(tasks, RowId(ev.oldRow).value)
  {
    match ev
    case Insert(row) =>
      var id := RowId(row);
      if id.Some? && HasId(tasks, id.value) then tasks else tasks + [MapRow(row)]
    case Update(row) =>
      var id := RowId(row);
      if Truthy(id) then ReplaceById(tasks, id.value, MapRow(row)) else tasks
    case Delete(row) =>
      var id := RowId(row);
      if Truthy(id) then RemoveId(tasks, id.value) else tasks
  }

  /** An UPDATE for an id nobody holds changes nothing: it does not insert. */
  lemma UpdateUnknownIsNoOp(tasks: seq<Task>, row: Row)
    requires RowId(row).Some? && !HasId(tasks, RowId(row).value)
    ensures Apply(tasks, Update(row)) == tasks
  {
  }

  /** A DELETE for an id already gone (say, removed locally by `deleteTask`)
      changes nothing. */
  lemma DeleteAbsentIsNoOp(tasks: seq<Task>, row: Row)
    requires RowId(row).Some? && !HasId(tasks, RowId(row).value)
    ensures Apply(tasks, Delete(row)) == tasks
  {
    if Truthy(RowId(row)) {
      FilterKeepsAll(tasks, RowId(row).value);
    }
  }

  lemma {:induction false} FilterKeepsAll(tasks: seq<Task>, id: string)
    requires !HasId(tasks, id)
    ensures Filter(tasks, (t: Task) => t.id != id) == tasks
    decreases |tasks|
  {
    if |tasks| > 0 {
      assert !HasId(tasks[1..], id) by {
        forall i | 0 <= i < |tasks| - 1 ensures tasks[1..][i].id != id {
          assert tasks[1..][i] == tasks[i + 1];
        }
      }
      FilterKeepsAll(tasks[1..], id);
      assert tasks == [tasks[0]] + tasks[1..];
    }
  }

  /** Events that carry an id keep the ids of the list distinct. */
  lemma ApplyKeepsIdsUnique(tasks: seq<Task>, ev: Change)
    requires UniqueIds(tasks)
    requires ev.Insert? ==> RowId(ev.newRow).Some?
    ensures UniqueIds(Apply(tasks, ev))
  {
    match ev
    case Insert(row) => InsertKeepsIdsUnique(tasks, row);
    case Update(row) => UpdateKeepsIdsUnique(tasks, row);
    case Delete(row) => DeleteKeepsIdsUnique(tasks, row);
  }

  lemma InsertKeepsIdsUnique(tasks: seq<Task>, row: Row)
    requires UniqueIds(tasks) && RowId(row).Some?
    ensures UniqueIds(Apply(tasks, Insert(row)))
  {
  }

  lemma UpdateKeepsIdsUnique(tasks: seq<Task>, row: Row)
    requires UniqueIds(tasks)
    ensures UniqueIds(Apply(tasks, Update(row)))
  {
    var r := Apply(tasks, Update(row));
    forall i, j | 0 <= i < j < |r| ensures r[i].id != r[j].id {
      assert r[i].id == tasks[i].id && r[j].id == tasks[j].id;
    }
  }

  lemma DeleteKeepsIdsUnique(tasks: seq<Task>, row: Row)
    requires UniqueIds(tasks)
    ensures UniqueIds(Apply(tasks, Delete(row)))
  {
    if Truthy(RowId(row)) {
      SubsequenceUnique(Apply(tasks, Delete(row)), tasks);
    }
  }

  lemma {:induction false} SubsequenceUnique(r: seq<Task>, tasks: seq<Task>)
    requires IsSubsequence(r, tasks) && UniqueIds(tasks)
    ensures UniqueIds(r)
    decreases |tasks|
  {
    if |r| > 0 && |tasks| > 0 {
      assert UniqueIds(tasks[1..]) by {
        forall i, j | 0 <= i < j < |tasks| - 1 ensures tasks[1..][i].id != tasks[1..][j].id {
          assert tasks[1..][i] == tasks[i + 1] && tasks[1..][j] == tasks[j + 1];
        }
      }
      if r[0] == tasks[0] {
        SubsequenceUnique(r[1..], tasks[1..]);
        forall j | 0 < j < |r| ensures r[0].id != r[j].id {
          SubsequenceMember(r[1..], tasks[1..], j - 1);
          var k :| 0 <= k < |tasks| - 1 && tasks[1..][k] == r[1..][j - 1];
          assert tasks[k + 1] == r[j];
        }
        forall i, j | 0 <= i < j < |r| ensures r[i].id != r[j].id {
          if i > 0 {
            assert r[i] == r[1..][i - 1] && r[j] == r[1..][j - 1];
          }
        }
      } else {
        SubsequenceUnique(r, tasks[1..]);
      }
    }
  }

  lemma {:induction false} SubsequenceMember(r: seq<Task>, s: seq<Task>, j: nat)
    requires IsSubsequence(r, s) && j < |r|
    ensures exists k :: 0 <= k < |s| && s[k] == r[j]
    decreases |s|
  {
    if r[0] == s[0] {
      if j > 0 {
        SubsequenceMember(r[1..], s[1..], j - 1);
        var k :| 0 <= k < |s| - 1 && s[1..][k] == r[1..][j - 1];
        assert s[k + 1] == r[j];
      }
    } else {
      SubsequenceMember(r, s[1..], j);
      var k :| 0 <= k < |s| - 1 && s[1..][k] == r[j];
      assert s[k + 1] == r[j];
    }
  }

  /** Delivering the same event twice has the effect of delivering it once,
      unless it is an INSERT without an id (whose task, with the id
      "undefined" or "null", is appended each time). */
  lemma ApplyTwice(tasks: seq<Task>, ev: Change)
    requires ev.Insert? ==> RowId(ev.newRow).Some?
    ensures Apply(Apply(tasks, ev), ev) == Apply(tasks, ev)
  {
    match ev
    case Insert(row) =>
      var r := Apply(tasks, ev);
      if !HasId(tasks, RowId(row).value) {
        assert r[|r| - 1].id == RowId(row).value;
      }
    case Update(row) =>
      if Truthy(RowId(row)) {
        var t := MapRow(row);
        assert t.id == RowId(row).value;
      }
    case Delete(row) =>
      if Truthy(RowId(row)) {
        var id := RowId(row).value;
        var r := Apply(tasks, ev);
        assert !HasId(r, id);
        FilterKeepsAll(r, id);
      }
  }

  /** An INSERT without an id appends a task each time it arrives. */
  lemma InsertWithoutIdAppends(tasks: seq<Task>, row: Row)
    requires RowId(row).None?
    ensures |Apply(Apply(tasks, Insert(row)), Insert(row))| == |tasks| + 2
  {
  }

  // ---------------------------------------------------------------------------
  // Optimistic patch (`updateTaskOptimistic`)

  /** A `Partial<Task>`: `None` is a key the patch does not have. */
  datatype Patch = Patch(
    id: Option<string>,
    content: Option<string>,
    status: Option<string>,
    assignee: Option<Option<string>>,
    lastUpdatedBy: Option<Option<string>>,
    priority: Option<Option<string>>,
    updatedAt: Option<Option<string>>,
    projectId: Option<Option<string>>,
    dueDate: Option<Option<string>>,
    extraData: Option<Option<Extra>>)

  const EmptyPatch := Patch(None, None, None, None, None, None, None, None, None, None)

  /** `{ ...t, ...patch }` */
  function Merge(t: Task, p: Patch): (r: Task)
    ensures Spread(p.id, t.id, r.id) && Spread(p.content, t.content, r.content)
    ensures Spread(p.status, t.status, r.status) && Spread(p.assignee, t.assignee, r.assignee)
    ensures Spread(p.lastUpdatedBy, t.lastUpdatedBy, r.lastUpdatedBy) && Spread(p.priority, t.priority, r.priority)
    ensures Spread(p.updatedAt, t.updatedAt, r.updatedAt) && Spread(p.projectId, t.projectId, r.projectId)
    ensures Spread(p.dueDate, t.dueDate, r.dueDate) && Spread(p.extraData, t.extraData, r.extraData)
  {
    Task(
      GetOr(p.id, t.id),
      GetOr(p.content, t.content),
      GetOr(p.status, t.status),
      GetOr(p.assignee, t.assignee),
      GetOr(p.lastUpdatedBy, t.lastUpdatedBy),
      GetOr(p.priority, t.priority),
      GetOr(p.updatedAt, t.updatedAt),
      GetOr(p.projectId, t.projectId),
      GetOr(p.dueDate, t.dueDate),
      GetOr(p.extraData, t.extraData))
  }

  lemma MergeEmpty(t: Task)
    ensures Merge(t, EmptyPatch) == t
  {
  }

  /** Applying a patch twice is applying it once. */
  lemma MergeIdempotent(t: Task, p: Patch)
    ensures Merge(Merge(t, p), p) == Merge(t, p)
  {
  }

  /** `updateTaskOptimistic`: the tasks with the id take the patch; the others
      are untouched. */
  function UpdateOptimistic(tasks: seq<Task>, id: string, p: Patch): (r: seq<Task>)
    ensures |r| == |tasks|
    ensures forall i :: 0 <= i < |r| && tasks[i].id != id ==> r[i] == tasks[i]
    ensures forall i :: 0 <= i < |r| && tasks[i].id == id ==> r[i] == Merge(tasks[i], p)
  {
    seq(|tasks|, i requires 0 <= i < |tasks| => if tasks[i].id == id then Merge(tasks[i], p) else tasks[i])
  }

  /** The realtime UPDATE that follows a save replaces the optimistic task
      wholesale: whatever the patch set is gone. */
  lemma UpdateDiscardsOptimistic(tasks: seq<Task>, p: Patch, row: Row)
    requires Truthy(RowId(row)) && p.id.None?
    ensures Apply(UpdateOptimistic(tasks, RowId(row).value, p), Update(row)) == Apply(tasks, Update(row))
  {
  }

  // ---------------------------------------------------------------------------
  // Write payloads

  /** The fields `saveTask` accepts; `None` is a key the patch does not have. */
  datatype SavePatch = SavePatch(
    content: Option<string>,
    status: Option<string>,
    assignee: Option<Option<string>>,
    lastUpdatedBy: Option<Option<string>>,
    priority: Option<Option<string>>,
    projectId: Option<Option<string>>,
    dueDate: Option<Option<string>>,
    extraData: Option<Option<Extra>>)

  /** The update `saveTask` sends. There is no priority field: the column is
      never written. */
  datatype SavePayload = SavePayload(
    content: Option<string>,
    status: Option<string>,
    assignee: Option<Option<string>>,
    lastUpdatedBy: string,
    projectId: Option<Option<string>>,
    dueDate: Option<Option<string>>,
    extraData: Option<Option<Extra>>)

  function SavePayloadOf(p: SavePatch): (r: SavePayload)
    ensures p.lastUpdatedBy.Some? && p.lastUpdatedBy.value.Some? ==> r.lastUpdatedBy == p.lastUpdatedBy.value.value
    ensures !(p.lastUpdatedBy.Some? && p.lastUpdatedBy.value.Some?) ==> r.lastUpdatedBy == "anon"
    ensures r.content == p.content && r.status == p.status && r.assignee == p.assignee
    ensures r.projectId == p.projectId && r.dueDate == p.dueDate && r.extraData == p.extraData
  {
    var writer := if p.lastUpdatedBy.Some? && p.lastUpdatedBy.value.Some? then p.lastUpdatedBy.value.value else "anon";
    SavePayload(p.content, p.status, p.assignee, writer, p.projectId, p.dueDate, p.extraData)
  }

  /** Two patches that differ only in priority send the same update. */
  lemma SaveIgnoresPriority(p: SavePatch, q: Option<Option<string>>)
    ensures SavePayloadOf(p.(priority := q)) == SavePayloadOf(p)
  {
  }

  /** What `createTask` and `createTasksBulk` are given. */
  datatype TaskInsert = TaskInsert(
    content: string,
    status: string,
    assignee: Option<string>,
    priority: Option<string>,
    projectId: Option<string>,
    dueDate: Option<string>,
    extraData: Option<Extra>)

  /** The row inserted; `None` fields are left out of it. */
  datatype InsertRow = InsertRow(
    content: string,
    status: string,
    assignee: Option<string>,
    lastUpdatedBy: string,
    projectId: Option<string>,
    dueDate: Option<string>,
    priority: Option<string>,
    extraData: Option<Extra>)

  const DefaultStatus := "Yapılacak"

  /** The optional fields both insert paths share: a project id when given, a
      due date and priority when not blank, extra data when it has a key. */
  function OptionalFields(t: TaskInsert): (r: (Option<string>, Option<string>, Option<string>, Option<Extra>))
    ensures r.0 == t.projectId
    ensures r.1.Some? <==> t.dueDate.Some? && !Text.IsBlank(t.dueDate.value)
    ensures r.2.Some? <==> t.priority.Some? && !Text.IsBlank(t.priority.value)
    ensures r.3.Some? <==> t.extraData.Some? && |KeysOf(t.extraData.value)| > 0
    ensures r.1.Some? ==> r.1 == t.dueDate
    ensures r.2.Some? ==> r.2 == t.priority
    ensures r.3.Some? ==> r.3 == t.extraData
  {
    (t.projectId,
     if t.dueDate.Some? && !Text.IsBlank(t.dueDate.value) then t.dueDate else None,
     if t.priority.Some? && !Text.IsBlank(t.priority.value) then t.priority else None,
     if t.extraData.Some? && |KeysOf(t.extraData.value)| > 0 then t.extraData else None)
  }

  /** `createTask`'s row: an empty status becomes "Yapılacak", an empty
      assignee becomes null, the writer is "anon". */
  function CreateRow(t: TaskInsert): (r: InsertRow)
    ensures r.content == t.content && r.lastUpdatedBy == "anon"
    ensures r.status == if t.status == "" then DefaultStatus else t.status
    ensures r.assignee.None? <==> t.assignee.None? || t.assignee.value == ""
    ensures r.assignee.Some? ==> r.assignee == t.assignee
    ensures (r.projectId, r.dueDate, r.priority, r.extraData) == OptionalFields(t)
  {
    var o := OptionalFields(t);
    InsertRow(t.content,
      if t.status == "" then DefaultStatus else t.status,
      if t.assignee.Some? && t.assignee.value != "" then t.assignee else None,
      "anon", o.0, o.1, o.2, o.3)
  }

  /** `createTasksBulk`'s row: content, status and assignee trimmed; a blank
      status becomes "Yapılacak" and a blank assignee null. */
  function BulkRow(t: TaskInsert): (r: InsertRow)
    ensures Text.IsTrimmed(r.content) && r.lastUpdatedBy == "anon"
    ensures r.status != "" && Text.IsTrimmed(r.status)
    ensures r.assignee.Some? ==> r.assignee.value != "" && Text.IsTrimmed(r.assignee.value)
    ensures r.assignee.None? <==> t.assignee.None? || Text.IsBlank(t.assignee.value)
    ensures r.content == Text.Trim(t.content)
    ensures r.status == if Text.Trim(t.status) == "" then DefaultStatus else Text.Trim(t.status)
    ensures r.assignee.Some? ==> r.assignee.value == Text.Trim(t.assignee.value)
    ensures (r.projectId, r.dueDate, r.priority, r.extraData) == OptionalFields(t)
  {
    var o := OptionalFields(t);
    var status := Text.Trim(t.status);
    InsertRow(Text.Trim(t.content),
      if status == "" then DefaultStatus else status,
      if t.assignee.Some? && !Text.IsBlank(t.assignee.value) then Some(Text.Trim(t.assignee.value)) else None,
      "anon", o.0, o.1, o.2, o.3)
  }

  /** On input that is already trimmed, the bulk path and the single-insert
      path write the same row. */
  lemma BulkRowAgreesWithCreateRow(t: TaskInsert)
    requires Text.IsTrimmed(t.content) && Text.IsTrimmed(t.status)
    requires t.assignee.Some? ==> Text.IsTrimmed(t.assignee.value)
    ensures BulkRow(t) == CreateRow(t)
  {
    Text.TrimOfTrimmed(t.content);
    Text.TrimOfTrimmed(t.status);
    if t.assignee.Some? {
      Text.TrimOfTrimmed(t.assignee.value);
    }
  }

  // ---------------------------------------------------------------------------
  // Chunked bulk writes

  /** Rows per insert or delete call in `createTasksBulk` and `deleteTasks`. */
  const ChunkSize := 100

  /** Where the slice of call `k` ends: `rows.slice(i, i + 100)` stops at the
      end of the rows. */
  function ChunkEnd(k: nat, n: nat): (e: nat)
    ensures e <= n && (ChunkSize * k < n ==> ChunkSize * k < e <= ChunkSize * k + ChunkSize)
  {
    if ChunkSize * k + ChunkSize < n then ChunkSize * k + ChunkSize else n
  }

  /** The calls the loop issues for `rows`: ceil(n/100) of them, call `k`
      being the slice that starts at `100 * k`. */
  predicate ChunksOf<T(==)>(calls: seq<seq<T>>, rows: seq<T>) {
    && |calls| == (|rows| + ChunkSize - 1) / ChunkSize
    && forall k :: 0 <= k < |calls| ==>
         ChunkSize * k < |rows| && calls[k] == rows[ChunkSize * k..ChunkEnd(k, |rows|)]
  }

  /** The calls the `for (i = 0; i < n; i += 100)` loop issues: one per slice
      `rows.slice(i, i + 100)`. */
  method Chunks<T(==)>(rows: seq<T>) returns (calls: seq<seq<T>>)
    ensures ChunksOf(calls, rows)
    ensures forall k :: 0 <= k < |calls| ==> 0 < |calls[k]| <= ChunkSize
    ensures Flatten(calls) == rows
  {
    calls := [];
    var i := 0;
    while i < |rows|
      invariant i == (if ChunkSize * |calls| < |rows| then ChunkSize * |calls| else |rows|)
      invariant |calls| == (i + ChunkSize - 1) / ChunkSize
      invariant forall k :: 0 <= k < |calls| ==>
        ChunkSize * k < |rows| && calls[k] == rows[ChunkSize * k..ChunkEnd(k, |rows|)]
      invariant Flatten(calls) == rows[..i]
    {
      var j := ChunkEnd(|calls|, |rows|);
      FlattenSnoc(calls, rows[i..j]);
      assert rows[..i] + rows[i..j] == rows[..j];
      calls := calls + [rows[i..j]];
      i := j;
    }
    assert rows[..i] == rows;
  }

  /** The rows a bulk insert has committed when its `k`-th call fails: the
      earlier calls are not undone. */
  function CommittedBefore<T>(calls: seq<seq<T>>, k: nat): (r: seq<T>)
    requires k <= |calls|
    ensures |r| <= |Flatten(calls)|
  {
    FlattenPrefix(calls, k);
    Flatten(calls[..k])
  }

  lemma {:induction false} FlattenPrefix<T>(calls: seq<seq<T>>, k: nat)
    requires k <= |calls|
    ensures Flatten(calls) == Flatten(calls[..k]) + Flatten(calls[k..])
    decreases |calls|
  {
    if k > 0 {
      FlattenPrefix(calls[1..], k - 1);
      assert calls[1..][..k - 1] == calls[..k][1..];
      assert calls[1..][k - 1..] == calls[k..];
    } else {
      assert calls[..0] == [];
      assert calls[0..] == calls;
    }
  }

  /** A failure at call `k` of the loop's calls leaves exactly the first
      `100 * k` rows committed, and once every call succeeded all rows are. */
  lemma {:induction false} CommittedBeforeCount<T>(calls: seq<seq<T>>, rows: seq<T>, k: nat)
    requires ChunksOf(calls, rows) && k <= |calls|
    ensures k < |calls| ==> ChunkSize * k < |rows| && CommittedBefore(calls, k) == rows[..ChunkSize * k]
    ensures k == |calls| ==> CommittedBefore(calls, k) == rows
    decreases k
  {
    if k == 0 {
      assert calls[..0] == [];
    } else {
      CommittedBeforeCount(calls, rows, k - 1);
      assert calls[..k] == calls[..k - 1] + [calls[k - 1]];
      FlattenSnoc(calls[..k - 1], calls[k - 1]);
      var e := ChunkEnd(k - 1, |rows|);
      assert rows[..ChunkSize * (k - 1)] + rows[ChunkSize * (k - 1)..e] == rows[..e];
      if k == |calls| {
        assert e == |rows|;
        assert rows[..e] == rows;
      } else {
        assert ChunkSize * k < |rows|;
        assert e == ChunkSize * k;
      }
    }
  }

  /** The loop's calls are determined by the rows. */
  lemma ChunksOfUnique<T>(a: seq<seq<T>>, b: seq<seq<T>>, rows: seq<T>)
    requires ChunksOf(a, rows) && ChunksOf(b, rows)
    ensures a == b
  {
  }

  /** `deleteTasks`' local step once every call succeeded: drop the deleted ids. */
  function RemoveIds(tasks: seq<Task>, ids: seq<string>): (r: seq<Task>)
    ensures forall t :: t in r <==> t in tasks && t.id !in ids
    ensures IsSubsequence(r, tasks)
  {
    var p := (t: Task) => t.id !in ids;
    forall t ensures t in Filter(tasks, p) <==> t in tasks && t.id !in ids {
      FilterMembers(tasks, p, t);
    }
    FilterIsSubsequence(tasks, p);
    Filter(tasks, p)
  }

  // ---------------------------------------------------------------------------
  // Fetch and save outcomes

  datatype FeedState = FeedState(tasks: seq<Task>, error: Option<string>, loading: bool)

  /** What `fetchTasks` receives: the rows, or the error message. */
  datatype Fetch = Fetched(rows: seq<Row>) | FetchFailed(message: string)

  /** `fetchTasks`: on success the list is the normalised rows and the error is
      cleared; on failure the list is emptied and the error kept. */
  function AfterFetch(s: FeedState, f: Fetch): (r: FeedState)
    ensures !r.loading
    ensures f.Fetched? ==> (r.error.None? && |r.tasks| == |f.rows| &&
      forall i :: 0 <= i < |f.rows| ==> r.tasks[i] == MapRow(f.rows[i]))
    ensures f.FetchFailed? ==> r.tasks == [] && r.error == Some(f.message)
  {
    match f
    case Fetched(rows) => FeedState(seq(|rows|, i requires 0 <= i < |rows| => MapRow(rows[i])), None, false)
    case FetchFailed(m) => FeedState([], Some(m), false)
  }

  /** The outcome of `saveTask`'s update: success, or failure followed by the
      re-fetch it triggers. */
  datatype SaveOutcome = Saved | SaveFailed(refetch: Fetch)

  /** `saveTask`: nothing changes locally on success (the optimistic patch
      stands until the realtime UPDATE arrives); on failure the list is
      re-fetched. */
  function AfterSave(s: FeedState, o: SaveOutcome): (r: FeedState)
    ensures o.Saved? ==> r == s
  {
    match o
    case Saved => s
    case SaveFailed(f) => AfterFetch(s, f)
  }

  /** A failed save does not roll the optimistic patch back: the list after it
      is whatever the re-fetch returned, whatever it held before. */
  lemma FailedSaveIsRefetch(s1: FeedState, s2: FeedState, f: Fetch)
    ensures AfterSave(s1, SaveFailed(f)).tasks == AfterSave(s2, SaveFailed(f)).tasks
  {
  }

  // ---------------------------------------------------------------------------
  // The "live" flag

  /** `isRealtimeConnected`, whether the 1.5 s fallback timer is pending, and
      whether the effect has been cleaned up. */
  datatype Conn = Conn(connected: bool, fallbackPending: bool, cancelled: bool)

  datatype ConnEvent =
    | Status(status: string, err: bool)   // the subscribe callback
    | FallbackFires                       // the 1.5 s timer
    | Cleanup                             // the effect's cleanup

  /** Right after the effect ran: not connected, fallback armed. */
  const ConnStart := Conn(false, true, false)

  predicate IsFailedStatus(s: string) {
    s == "CLOSED" || s == "CHANNEL_ERROR" || s == "TIMED_OUT" || s == "errored" || s == "closed"
  }

  function Step(c: Conn, e: ConnEvent): (r: Conn)
    ensures c.cancelled ==> !r.connected || r.connected == c.connected
    ensures e.Cleanup? ==> r == Conn(false, false, true)
    ensures e.Status? && !c.cancelled && Text.Upper(e.status) == "SUBSCRIBED" ==> r.connected && !r.fallbackPending
    ensures e.Status? && !c.cancelled && Text.Upper(e.status) != "SUBSCRIBED" && (IsFailedStatus(e.status) || e.err) ==>
      !r.connected && r.fallbackPending == c.fallbackPending
    ensures e.FallbackFires? ==> !r.fallbackPending
    ensures e.FallbackFires? && c.fallbackPending && !c.cancelled ==> r.connected
  {
    match e
    case Status(s, err) =>
      if c.cancelled then c
      else if Text.Upper(s) == "SUBSCRIBED" then c.(connected := true, fallbackPending := false)
      else if IsFailedStatus(s) || err then c.(connected := false)
      else c
    case FallbackFires =>
      if !c.fallbackPending then c
      else if c.cancelled then c.(fallbackPending := false)
      else c.(connected := true, fallbackPending := false)
    case Cleanup => Conn(false, false, true)
  }

  function Run(c: Conn, es: seq<ConnEvent>): Conn
    decreases |es|
  {
    if |es| == 0 then c else Run(Step(c, es[0]), es[1..])
  }

  /** Once cleaned up the flag stays false, whatever callbacks still arrive. */
  lemma {:induction false} NothingAfterCleanup(c: Conn, es: seq<ConnEvent>)
    requires c.cancelled && !c.connected
    ensures !Run(c, es).connected && Run(c, es).cancelled
    decreases |es|
  {
    if |es| > 0 {
      NothingAfterCleanup(Step(c, es[0]), es[1..]);
    }
  }

  /** A channel error before the timer fires is overridden by the fallback:
      the flag ends up true although the channel failed. */
  lemma FallbackAfterError()
    ensures Run(ConnStart, [Status("CHANNEL_ERROR", false), FallbackFires]).connected
  {
    assert Text.Upper("CHANNEL_ERROR") != "SUBSCRIBED" by {
      assert |Text.Upper("CHANNEL_ERROR")| != |"SUBSCRIBED"|;
    }
  }

  /** After SUBSCRIBED the fallback is disarmed, so only a later failure status
      or cleanup can clear the flag. */
  lemma SubscribedDisarmsFallback(c: Conn)
    requires !c.cancelled
    ensures var r := Step(Step(c, Status("SUBSCRIBED", false)), FallbackFires);
      r.connected && !r.fallbackPending
  {
    assert Text.Upper("SUBSCRIBED") == "SUBSCRIBED";
  }
}
