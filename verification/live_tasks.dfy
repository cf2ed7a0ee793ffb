/**
 * The live task list of hooks/useGorevlerFirestore.ts: the initials stored
 * with each task, how a stored document is read back, what adding and
 * updating a task write, and the hook's loading and live flags. A stored
 * document is an ordered list of fields; the server time stamp and the
 * client clock are inputs. The database calls themselves are left out.
 */
module LiveTasks {
  import opened Common
  import Text
  import JsValue

  type Value = JsValue.Value
  type Row = JsValue.Row

  const DefaultStatus := "Beklemede"
  const DefaultPriority := "Medium"
  const NoInitials := "—"

  // ---------------------------------------------------------------------------
  // Initials

  /** The first character of each word, in order. */
  function FirstLetters(ws: seq<string>): (r: string)
    requires forall i :: 0 <= i < |ws| ==> |ws[i]| > 0
    ensures |r| == |ws|
    ensures forall i :: 0 <= i < |ws| ==> r[i] == ws[i][0]
  {
    seq(|ws|, i requires 0 <= i < |ws| => ws[i][0])
  }

  /** `initials`: the upper-cased first letters of the first two words of the
      trimmed name, or "—" for a blank name. */
  function Initials(name: string): (r: string)
    ensures 1 <= |r| <= 2
    ensures Text.Trim(name) == "" ==> r == NoInitials
    ensures Text.Trim(name) != "" ==>
      var ws := Text.Words(name);
      |r| == (if |ws| >= 2 then 2 else 1)
      && forall i :: 0 <= i < |r| ==> r[i] == Text.UpperChar(ws[i][0])
  {
    var ws := Text.Words(name);
    var r := Text.Take(Text.Upper(FirstLetters(ws)), 2);
    if Text.Trim(name) == "" then
      Text.WordsBlank(name);
      NoInitials
    else
      Text.WordsNonBlank(name);
      r
  }

  /** The initials depend on the words of the name only, not on how they are
      spaced. */
  lemma InitialsIgnoreSpacing(a: string, b: string)
    requires Text.Words(a) == Text.Words(b)
    ensures Initials(a) == Initials(b)
  {
    if Text.Trim(a) == "" {
      Text.WordsBlank(a);
      if Text.Trim(b) != "" {
        Text.WordsNonBlank(b);
      }
    } else {
      Text.WordsNonBlank(a);
      if Text.Trim(b) == "" {
        Text.WordsBlank(b);
      }
    }
  }

  // ---------------------------------------------------------------------------
  // Reading a document (`mapDocToGorev`)

  datatype LiveTask = LiveTask(
    id: string,
    taskName: string,
    status: Value,
    assigneeName: string,
    assigneeInitials: string,
    priority: Value,
    updatedAt: int,
    editedBy: Option<string>)

  /** The fields of a task document the hook reads and writes; `None` is a
      missing field. Fields the hook never reads are not represented. */
  datatype Fields = Fields(
    taskName: Option<Value>,
    status: Option<Value>,
    assigneeName: Option<Value>,
    assigneeInitials: Option<Value>,
    priority: Option<Value>,
    editedBy: Option<Value>)

  /** A stored document: its id, its fields, and the server time it was last
      written, when the database has filled it in. */
  datatype Doc = Doc(id: string, fields: Fields, stamp: Option<int>)

  /** `x ?? d`: the field unless it is missing or null. */
  function OrDefault(v: Option<Value>, d: Value): (r: Value)
    ensures JsValue.IsNullish(v) ==> r == d
    ensures !JsValue.IsNullish(v) ==> r == v.value
  {
    if JsValue.IsNullish(v) then d else v.value
  }

  /** The initials shown: the stored ones unless missing or null, else those
      of the name. */
  function ShownInitials(stored: Option<Value>, name: string): (r: string)
    ensures JsValue.IsNullish(stored) ==> r == Initials(name)
    ensures !JsValue.IsNullish(stored) ==> r == JsValue.ToStr(stored.value)
  {
    if JsValue.IsNullish(stored) then Initials(name) else JsValue.ToStr(stored.value)
  }

  /** `mapDocToGorev`; `now` is the client clock, used when the server time
      is not there yet. */
  function ReadDoc(d: Doc, now: int): (t: LiveTask)
    ensures t.id == d.id
    ensures t.assigneeInitials == ShownInitials(d.fields.assigneeInitials, t.assigneeName)
    ensures JsValue.IsNullish(d.fields.status) ==> t.status == JsValue.Str(DefaultStatus)
    ensures JsValue.IsNullish(d.fields.priority) ==> t.priority == JsValue.Str(DefaultPriority)
    ensures d.stamp.None? ==> t.updatedAt == now
    ensures d.stamp.Some? ==> t.updatedAt == d.stamp.value
    ensures JsValue.IsNullish(d.fields.taskName) ==> t.taskName == ""
    ensures JsValue.ReadsAs(d.fields.taskName, t.taskName)
    ensures JsValue.IsNullish(d.fields.assigneeName) ==> t.assigneeName == ""
    ensures JsValue.ReadsAs(d.fields.assigneeName, t.assigneeName)
    ensures !JsValue.IsNullish(d.fields.status) ==> t.status == d.fields.status.value
    ensures !JsValue.IsNullish(d.fields.priority) ==> t.priority == d.fields.priority.value
    ensures t.editedBy.None? <==> JsValue.IsNullish(d.fields.editedBy)
    ensures t.editedBy.Some? ==> JsValue.ReadsAs(d.fields.editedBy, t.editedBy.value)
  {
    var f := d.fields;
    var name := JsValue.StrOrEmpty(f.assigneeName);
    LiveTask(
      d.id,
      JsValue.StrOrEmpty(f.taskName),
      OrDefault(f.status, JsValue.Str(DefaultStatus)),
      name,
      ShownInitials(f.assigneeInitials, name),
      OrDefault(f.priority, JsValue.Str(DefaultPriority)),
      GetOr(d.stamp, now),
      JsValue.StrOrNull(f.editedBy))
  }

  // ---------------------------------------------------------------------------
  // Writing (`addTask`, `updateTask`)

  /** What the form hands to `addTask`. The status and priority are whatever
      values the form holds; a row's stored value is handed back unchanged. */
  datatype NewTask = NewTask(taskName: string, status: Value, assigneeName: string, priority: Value, editedBy: Option<string>)

  function OrNull(s: Option<string>): Value {
    if s.Some? then JsValue.Str(s.value) else JsValue.Null
  }

  /** The fields `addTask` writes: all six, the initials computed from the
      name and a missing editor as null; the server fills in the time. */
  function AddFields(p: NewTask): (r: Fields) {
    Fields(Some(JsValue.Str(p.taskName)), Some(p.status), Some(JsValue.Str(p.assigneeName)),
      Some(JsValue.Str(Initials(p.assigneeName))), Some(p.priority), Some(OrNull(p.editedBy)))
  }

  function Added(id: string, p: NewTask, serverTime: int): Doc {
    Doc(id, AddFields(p), Some(serverTime))
  }

  /** A task added and read back has the fields it was given, the initials
      of its assignee's name and the server's time; a null status or priority
      reads back as the default. */
  lemma AddThenRead(id: string, p: NewTask, serverTime: int, now: int)
    ensures ReadDoc(Added(id, p, serverTime), now)
      == LiveTask(id, p.taskName, OrDefault(Some(p.status), JsValue.Str(DefaultStatus)), p.assigneeName,
                  Initials(p.assigneeName), OrDefault(Some(p.priority), JsValue.Str(DefaultPriority)), serverTime, p.editedBy)
    ensures !p.status.Null? && !p.priority.Null? ==>
      ReadDoc(Added(id, p, serverTime), now).status == p.status && ReadDoc(Added(id, p, serverTime), now).priority == p.priority
  {
  }

  /** The fields a patch may carry; absent fields are left alone. */
  datatype Patch = Patch(
    taskName: Option<string>,
    status: Option<Value>,
    assigneeName: Option<string>,
    priority: Option<Value>,
    editedBy: Option<string>)

  /** A patched field: the patch's value when it has one, else the stored
      field. */
  function Put(stored: Option<Value>, v: Option<string>): (r: Option<Value>)
    ensures v.Some? ==> r == Some(JsValue.Str(v.value))
    ensures v.None? ==> r == stored
  {
    if v.Some? then Some(JsValue.Str(v.value)) else stored
  }

  function PutValue(stored: Option<Value>, v: Option<Value>): (r: Option<Value>)
    ensures v.Some? ==> r == v
    ensures v.None? ==> r == stored
  {
    if v.Some? then v else stored
  }

  /** `updateTask`: the patch's fields, plus fresh initials when the patch
      names an assignee, written over the stored ones. */
  function UpdateFields(f: Fields, p: Patch): (r: Fields) {
    Fields(Put(f.taskName, p.taskName), PutValue(f.status, p.status), Put(f.assigneeName, p.assigneeName),
      if p.assigneeName.Some? then Some(JsValue.Str(Initials(p.assigneeName.value))) else f.assigneeInitials,
      PutValue(f.priority, p.priority), Put(f.editedBy, p.editedBy))
  }

  /** An update always stamps the server time. */
  function Updated(d: Doc, p: Patch, serverTime: int): (r: Doc)
    ensures r.id == d.id && r.stamp == Some(serverTime)
  {
    Doc(d.id, UpdateFields(d.fields, p), Some(serverTime))
  }

  /** An empty patch only moves the time stamp. */
  lemma EmptyPatchKeepsFields(f: Fields)
    ensures UpdateFields(f, Patch(None, None, None, None, None)) == f
  {
  }

  /** The stored initials are those of the stored assignee name. */
  predicate InitialsInStep(f: Fields) {
    f.assigneeName.Some? && f.assigneeName.value.Str?
    && f.assigneeInitials == Some(JsValue.Str(Initials(f.assigneeName.value.s)))
  }

  /** Adding puts the initials in step with the name, and every update keeps
      them so: a patch without a name leaves both alone, a patch with one
      writes both. */
  lemma InitialsStayInStep(p: NewTask, f: Fields, q: Patch)
    ensures InitialsInStep(AddFields(p))
    ensures InitialsInStep(f) ==> InitialsInStep(UpdateFields(f, q))
  {
  }

  /** A document whose initials are in step reads back with the initials of
      the name it shows. */
  lemma ReadInStep(d: Doc, now: int)
    requires InitialsInStep(d.fields)
    ensures ReadDoc(d, now).assigneeInitials == Initials(ReadDoc(d, now).assigneeName)
  {
    var n := d.fields.assigneeName.value.s;
    assert JsValue.StrOrEmpty(d.fields.assigneeName) == n;
    assert ShownInitials(d.fields.assigneeInitials, n) == Initials(n);
  }

  // ---------------------------------------------------------------------------
  // The hook's state

  datatype Hook = Hook(tasks: seq<LiveTask>, loading: bool, live: bool)

  const Start := Hook([], true, false)

  /** What reaches the hook: the check that the database is configured, a
      missing database handle, a snapshot (in update-time order, newest
      first, as the query asks) or a listener error. */
  datatype Event = Disabled | NoDatabase | Snapshot(docs: seq<Doc>, now: int) | SnapshotError

  function ReadAll(docs: seq<Doc>, now: int): (r: seq<LiveTask>)
    ensures |r| == |docs|
    ensures forall i :: 0 <= i < |docs| ==> r[i] == ReadDoc(docs[i], now)
  {
    seq(|docs|, i requires 0 <= i < |docs| => ReadDoc(docs[i], now))
  }

  function Step(h: Hook, e: Event): (r: Hook)
    ensures e.Disabled? ==> r == Hook([], false, false)
    ensures e.NoDatabase? || e.SnapshotError? ==> r.tasks == h.tasks && !r.loading
    ensures e.SnapshotError? ==> !r.live
    ensures e.Snapshot? ==> r.live && !r.loading && |r.tasks| == |e.docs|
    ensures e.Snapshot? ==> r.tasks == ReadAll(e.docs, e.now)
  {
    match e
    case Disabled => Hook([], false, false)
    case NoDatabase => h.(loading := false)
    case Snapshot(docs, now) => Hook(ReadAll(docs, now), false, true)
    case SnapshotError => h.(loading := false, live := false)
  }

  function Run(h: Hook, es: seq<Event>): Hook
    decreases |es|
  {
    if |es| == 0 then h else Run(Step(h, es[0]), es[1..])
  }

  /** Over any run of events, the list is never shown live while still
      loading. */
  lemma {:induction false} LiveIsLoaded(h: Hook, es: seq<Event>)
    requires h.live ==> !h.loading
    ensures Run(h, es).live ==> !Run(h, es).loading
    decreases |es|
  {
    if |es| > 0 {
      LiveIsLoaded(Step(h, es[0]), es[1..]);
    }
  }

  /** Any event but a snapshot leaves the hook not live or unchanged in its
      list; in particular nothing is live before the first snapshot. */
  lemma {:induction false} LiveNeedsSnapshot(h: Hook, es: seq<Event>)
    requires !h.live
    requires forall i :: 0 <= i < |es| ==> !es[i].Snapshot?
    ensures !Run(h, es).live
    decreases |es|
  {
    if |es| > 0 {
      LiveNeedsSnapshot(Step(h, es[0]), es[1..]);
    }
  }
}
