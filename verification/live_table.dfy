/**
 * The live task table of components/GorevlerTablosu.tsx: its columns, the
 * add and edit form and what submitting it writes through the live task
 * list, and the counters above the table. Column drag-and-drop and pinning
 * are those of the shared column layout.
 */
module LiveTable {
  import opened Common
  import Text
  import JsValue
  import LiveTasks
  import TaskSummary

  type Value = JsValue.Value
  type LiveTask = LiveTasks.LiveTask

  const Unnamed := "İsimsiz görev"
  const BaseColumns := ["status", "taskName", "assignee", "priority", "updatedAt", "presence"]

  /** The column ids: an actions column is added when the database is
      configured. */
  function Columns(databaseEnabled: bool): (ids: seq<string>)
    ensures |ids| >= 6 && ids[..6] == BaseColumns
    ensures "actions" in ids <==> databaseEnabled
  {
    if databaseEnabled then BaseColumns + ["actions"] else BaseColumns
  }

  // ---------------------------------------------------------------------------
  // The form

  datatype Form = Form(open: bool, editing: Option<LiveTask>, taskName: string, status: Value,
                       assigneeName: string, priority: Value)

  /** `openAddForm`: an empty form with the default status and priority, for
      a new task. Whatever the form held before, submitting it untouched adds
      an unnamed, unassigned task with the defaults. */
  function OpenAdd(f: Form): (r: Form)
    ensures r.open && r.editing.None?
    ensures Submit(true, r) == AddTask(LiveTasks.NewTask(Unnamed, JsValue.Str(LiveTasks.DefaultStatus), "",
      JsValue.Str(LiveTasks.DefaultPriority), None))
  {
    Form(true, None, "", JsValue.Str(LiveTasks.DefaultStatus), "", JsValue.Str(LiveTasks.DefaultPriority))
  }

  /** `openEditForm`: the form filled with the row's fields, editing it.
      Submitting it untouched updates that row with its own values, the name
      and assignee trimmed, whatever the form held before. */
  function OpenEdit(f: Form, row: LiveTask): (r: Form)
    ensures r.open && r.editing == Some(row)
    ensures Submit(true, r) == UpdateTask(row.id, LiveTasks.Patch(Some(Text.Trim(row.taskName)), Some(row.status),
      Some(Text.Trim(row.assigneeName)), Some(row.priority), None))
  {
    Form(true, Some(row), row.taskName, row.status, row.assigneeName, row.priority)
  }

  /** What a submit asks the live task list to write. */
  datatype Write = NoWrite | UpdateTask(id: string, patch: LiveTasks.Patch) | AddTask(task: LiveTasks.NewTask)

  /** `handleFormSubmit`: nothing when the live list is off; an update of the
      edited row with the trimmed name and assignee; or a new task, whose
      blank name becomes "İsimsiz görev". No editor is written either way. */
  function Submit(liveEnabled: bool, f: Form): (w: Write)
    ensures !liveEnabled <==> w.NoWrite?
    ensures w.UpdateTask? <==> liveEnabled && f.editing.Some?
    ensures w.UpdateTask? ==> w.id == f.editing.value.id
    ensures w.UpdateTask? ==> w.patch.editedBy.None? && w.patch.status == Some(f.status) && w.patch.priority == Some(f.priority)
    ensures w.AddTask? ==> w.task.editedBy.None? && w.task.status == f.status && w.task.priority == f.priority
    ensures w.AddTask? ==> w.task.taskName != "" && Text.IsTrimmed(w.task.taskName)
    ensures w.AddTask? && Text.Trim(f.taskName) != "" ==> w.task.taskName == Text.Trim(f.taskName)
  {
    if !liveEnabled then NoWrite
    else if f.editing.Some? then
      UpdateTask(f.editing.value.id,
        LiveTasks.Patch(Some(Text.Trim(f.taskName)), Some(f.status), Some(Text.Trim(f.assigneeName)), Some(f.priority), None))
    else
      var name := Text.Trim(f.taskName);
      assert Text.IsTrimmed(Unnamed) by {
        assert !Text.IsSpace(Unnamed[0]) && !Text.IsSpace(Unnamed[|Unnamed| - 1]);
      }
      AddTask(LiveTasks.NewTask(if name == "" then Unnamed else name, f.status, Text.Trim(f.assigneeName), f.priority, None))
  }

  /** The form after a submit: closed and no longer editing when the write
      succeeded, left as it was when it failed or nothing was written. So a
      failed submit can be retried with the very same write, while the typed
      text survives a success and would be added as a new task if submitted
      again. */
  function AfterSubmit(liveEnabled: bool, f: Form, succeeded: bool): (r: Form)
    ensures liveEnabled && succeeded ==> !r.open && r.editing.None?
    ensures !(liveEnabled && succeeded) ==> Submit(liveEnabled, r) == Submit(liveEnabled, f)
    ensures liveEnabled && succeeded ==> Submit(liveEnabled, r).AddTask?
    ensures r.taskName == f.taskName && r.assigneeName == f.assigneeName
  {
    if liveEnabled && succeeded then f.(open := false, editing := None) else f
  }

  /** Editing a row read from a stored task and submitting it unchanged
      writes the task back as it was: only the time stamp moves, provided the
      stored name and assignee carry no surrounding blanks and its initials
      are in step with the name. */
  lemma EditUnchangedKeepsTask(d: LiveTasks.Doc, now: int, serverTime: int, f: Form)
    requires d.fields.taskName.Some? && d.fields.taskName.value.Str? && Text.IsTrimmed(d.fields.taskName.value.s)
    requires LiveTasks.InitialsInStep(d.fields) && Text.IsTrimmed(d.fields.assigneeName.value.s)
    requires !JsValue.IsNullish(d.fields.status) && !JsValue.IsNullish(d.fields.priority)
    ensures var w := Submit(true, OpenEdit(f, LiveTasks.ReadDoc(d, now)));
      w.UpdateTask? && w.id == d.id
      && LiveTasks.ReadDoc(LiveTasks.Updated(d, w.patch, serverTime), now)
         == LiveTasks.ReadDoc(d, now).(updatedAt := serverTime)
  {
    var row := LiveTasks.ReadDoc(d, now);
    var n := d.fields.taskName.value.s;
    var a := d.fields.assigneeName.value.s;
    assert JsValue.StrOrEmpty(d.fields.taskName) == n;
    assert JsValue.StrOrEmpty(d.fields.assigneeName) == a;
    Text.TrimOfTrimmed(n);
    Text.TrimOfTrimmed(a);
    var p := LiveTasks.Patch(Some(n), Some(row.status), Some(a), Some(row.priority), None);
    assert Submit(true, OpenEdit(f, row)) == UpdateTask(d.id, p);
    assert Some(row.status) == d.fields.status;
    assert Some(row.priority) == d.fields.priority;
    assert LiveTasks.UpdateFields(d.fields, p) == d.fields;
    ReadBackUnchanged(d, now, serverTime);
  }

  /** Restamping a document changes only the time it reads back with. */
  lemma ReadBackUnchanged(d: LiveTasks.Doc, now: int, serverTime: int)
    ensures LiveTasks.ReadDoc(LiveTasks.Doc(d.id, d.fields, Some(serverTime)), now)
      == LiveTasks.ReadDoc(d, now).(updatedAt := serverTime)
  {
  }

  // ---------------------------------------------------------------------------
  // The counters (`stats`)

  const Done := JsValue.Str("Yapıldı")
  const Ongoing := JsValue.Str("Sürüyor")
  const Waiting := JsValue.Str("Beklemede")
  const Cancelled := JsValue.Str("İptal")
  const HighPriority := JsValue.Str("High")

  function HasStatus(v: Value): LiveTask -> bool {
    (t: LiveTask) => t.status == v
  }

  function IsHigh(): LiveTask -> bool {
    (t: LiveTask) => t.priority == HighPriority
  }

  /** A status none of the four options spells. */
  function OtherStatus(): LiveTask -> bool {
    (t: LiveTask) => t.status != Done && t.status != Ongoing && t.status != Waiting && t.status != Cancelled
  }

  datatype Stats = Stats(done: nat, ongoing: nat, waiting: nat, cancelled: nat, total: nat, high: nat, completionRate: nat)

  /** The counters: one per status option, the total, the high-priority
      tasks, and the share of done tasks as a rounded percentage, 0 without
      tasks. */
  function LiveStats(tasks: seq<LiveTask>): (s: Stats)
    ensures s.done == Count(tasks, HasStatus(Done)) && s.ongoing == Count(tasks, HasStatus(Ongoing))
    ensures s.waiting == Count(tasks, HasStatus(Waiting)) && s.cancelled == Count(tasks, HasStatus(Cancelled))
    ensures s.total == |tasks| && s.high == Count(tasks, IsHigh())
    ensures s.completionRate <= 100
    ensures s.total == 0 ==> s.completionRate == 0
    ensures s.total > 0 ==> s.completionRate == TaskSummary.Percent(s.done, s.total)
  {
    var done := Count(tasks, HasStatus(Done));
    Stats(done, Count(tasks, HasStatus(Ongoing)), Count(tasks, HasStatus(Waiting)), Count(tasks, HasStatus(Cancelled)),
      |tasks|, Count(tasks, IsHigh()), if |tasks| > 0 then TaskSummary.Percent(done, |tasks|) else 0)
  }

  /** Every task is counted once: under its status option, or among those
      whose status is none of them. */
  lemma {:induction false} StatusCountsPartition(tasks: seq<LiveTask>)
    ensures Count(tasks, HasStatus(Done)) + Count(tasks, HasStatus(Ongoing)) + Count(tasks, HasStatus(Waiting))
      + Count(tasks, HasStatus(Cancelled)) + Count(tasks, OtherStatus()) == |tasks|
    decreases |tasks|
  {
    if |tasks| > 0 {
      StatusCountsPartition(tasks[1..]);
    }
  }

  /** When every status is one of the four options, as the form offers, the
      four counters add up to the total. */
  lemma CountersAddUp(tasks: seq<LiveTask>)
    requires forall i :: 0 <= i < |tasks| ==> tasks[i].status in {Done, Ongoing, Waiting, Cancelled}
    ensures var s := LiveStats(tasks);
      s.done + s.ongoing + s.waiting + s.cancelled == s.total
  {
    StatusCountsPartition(tasks);
    NoneCounted(tasks, OtherStatus());
  }

  lemma {:induction false} NoneCounted<T>(s: seq<T>, p: T -> bool)
    requires forall i :: 0 <= i < |s| ==> !p(s[i])
    ensures Count(s, p) == 0
    decreases |s|
  {
    if |s| > 0 {
      NoneCounted(s[1..], p);
    }
  }
}
