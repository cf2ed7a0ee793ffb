/**
 * The project list screen of components/ProjectsSection.tsx: the priority
 * normalisation, the due-date badge, the assigned e-mail list of the project
 * form, the filtered project list and the task import that follows creating
 * a project from a file. Clocks and date parsing are parameters.
 */
module ProjectsSection {
  import opened Common
  import Text
  import Visibility
  import ProjectFeed
  import TaskFeed
  import TasksTable
  import JsonParser
  import CsvParser
  import JsValue

  type Project = ProjectFeed.Project
  type Viewer = Visibility.Viewer

  // ---------------------------------------------------------------------------
  // Priority (`normalizeProjectPriority`)

  const Priorities: set<string> := {"High", "Medium", "Low"}

  /** The priority spelled in any case and with surrounding blanks, as one of
      "High", "Medium" and "Low"; anything else is none. */
  function NormalizePriority(v: Option<string>): (r: Option<string>)
    ensures r.Some? <==> Text.Norm(GetOr(v, "")) in {"high", "medium", "low"}
    ensures r.Some? ==> r.value in Priorities && Text.Lower(r.value) == Text.Norm(GetOr(v, ""))
  {
    var s := Text.Lower(if v.Some? then Text.Trim(v.value) else "");
    LowerPriorities();
    if s == "high" then Some("High")
    else if s == "medium" then Some("Medium")
    else if s == "low" then Some("Low")
    else None
  }

  lemma LowerPriorities()
    ensures Text.Lower("High") == "high" && Text.Lower("Medium") == "medium" && Text.Lower("Low") == "low"
  {
    assert Text.Lower("High")[0] == 'h';
    assert Text.Lower("Medium")[0] == 'm';
    assert Text.Lower("Low")[0] == 'l';
  }

  /** The three canonical spellings are kept as they are, so normalising
      twice is normalising once. */
  lemma NormalizePriorityIdempotent(v: Option<string>)
    ensures NormalizePriority(NormalizePriority(v)) == NormalizePriority(v)
  {
    var r := NormalizePriority(v);
    if r.Some? {
      Text.TrimOfTrimmed(r.value);
    }
  }

  // ---------------------------------------------------------------------------
  // Due-date badge (`getProjectDueLabel`)

  const DayMs := 24 * 60 * 60 * 1000
  const UpcomingDays := 30

  datatype DueLabel = Overdue | Upcoming

  /** `Math.ceil(x / d)` for a positive `d`. */
  function CeilDiv(x: int, d: int): int
    requires d > 0
  {
    -((-x) / d)
  }

  lemma CeilDivAtMost(x: int, n: int)
    requires x >= 0 && n >= 0
    ensures CeilDiv(x, DayMs) <= n <==> x <= n * DayMs
  {
    var q := (-x) / DayMs;
    assert DayMs * q <= -x < DayMs * q + DayMs;
    if -q <= n {
      assert -x >= DayMs * q >= -n * DayMs;
    } else {
      assert q <= -n - 1;
      assert DayMs * q <= -n * DayMs - DayMs;
    }
  }

  /** The badge for a project's due date. `midnight` gives the local
      midnight of a date text in milliseconds, or none for an invalid date
      (whose comparisons in the source are all false); `today` is the local
      midnight of the current day. A due date before today is overdue, one
      at most thirty days ahead is upcoming, and there is no badge for a
      missing, blank, invalid or later date. */
  function ProjectDueLabel(due: Option<string>, midnight: string -> Option<int>, today: int): (r: Option<DueLabel>)
    ensures r == Some(Overdue) <==>
      due.Some? && Text.Trim(due.value) != "" && midnight(Text.Trim(due.value)).Some?
      && midnight(Text.Trim(due.value)).value < today
    ensures r == Some(Upcoming) <==>
      due.Some? && Text.Trim(due.value) != "" && midnight(Text.Trim(due.value)).Some?
      && today <= midnight(Text.Trim(due.value)).value <= today + UpcomingDays * DayMs
  {
    if due.None? || Text.Trim(due.value) == "" then None
    else match midnight(Text.Trim(due.value))
      case None => None
      case Some(d) =>
        if d < today then Some(Overdue)
        else
          CeilDivAtMost(d - today, UpcomingDays);
          if CeilDiv(d - today, DayMs) <= UpcomingDays then Some(Upcoming) else None
  }

  /** As days pass, an overdue project stays overdue, and an upcoming one
      stays upcoming or becomes overdue: the badge never disappears. */
  lemma DueLabelAsTimePasses(due: Option<string>, midnight: string -> Option<int>, today: int, later: int)
    requires today <= later
    ensures ProjectDueLabel(due, midnight, today) == Some(Overdue) ==> ProjectDueLabel(due, midnight, later) == Some(Overdue)
    ensures ProjectDueLabel(due, midnight, today) == Some(Upcoming) ==> ProjectDueLabel(due, midnight, later).Some?
  {
  }

  // ---------------------------------------------------------------------------
  // Assigned e-mails of the project form

  /** A character the address pattern's classes `[^\s@]` accept. */
  predicate AddressChar(c: char) {
    !Text.IsSpace(c) && c != '@'
  }

  predicate AddressPart(s: string) {
    |s| > 0 && forall i :: 0 <= i < |s| ==> AddressChar(s[i])
  }

  /** The pattern `^[^\s@]+@[^\s@]+\.[^\s@]+$`: a local part, "@", a domain
      part, ".", and a last part, none of them empty. */
  predicate EmailLike(e: string) {
    exists a, d :: 0 < a < d < |e| - 1 && e[a] == '@' && e[d] == '.'
      && AddressPart(e[..a]) && AddressPart(e[a + 1..d]) && AddressPart(e[d + 1..])
  }

  /** The list being edited and the text of the address input. */
  datatype EmailField = EmailField(emails: seq<string>, input: string)

  /** Whether `addAssignedEmail` takes the input: its normalised text is
      non-empty, looks like an address and is not listed yet. */
  predicate Accepts(f: EmailField) {
    var e := Text.Norm(f.input);
    e != "" && EmailLike(e) && e !in f.emails
  }

  /** `addAssignedEmail`: an accepted address is appended and the input
      cleared; otherwise nothing changes, the input included. */
  function AddAssignedEmail(f: EmailField): (r: EmailField)
    ensures Accepts(f) ==> r == EmailField(f.emails + [Text.Norm(f.input)], "")
    ensures !Accepts(f) ==> r == f
  {
    var e := Text.Norm(f.input);
    if e == "" then f
    else if !EmailLike(e) then f
    else if e in f.emails then f
    else EmailField(f.emails + [e], "")
  }

  /** `removeAssignedEmail`: every copy of the address leaves the list. */
  function RemoveAssignedEmail(emails: seq<string>, e: string): (r: seq<string>)
    ensures e !in r
    ensures forall x :: x != e ==> (x in r <==> x in emails)
  {
    Without(emails, e)
  }

  /** The list the form builds holds distinct, normalised addresses that
      match the pattern, and adding keeps it so. */
  predicate WellFormed(emails: seq<string>) {
    NoDuplicates(emails)
    && forall i :: 0 <= i < |emails| ==> ProjectFeed.IsNormalEmail(emails[i]) && EmailLike(emails[i])
  }

  lemma AddKeepsWellFormed(f: EmailField)
    requires WellFormed(f.emails)
    ensures WellFormed(AddAssignedEmail(f).emails)
  {
    if Accepts(f) {
      ProjectFeed.NormIsNormal(f.input);
      var r := f.emails + [Text.Norm(f.input)];
      assert forall i :: 0 <= i < |f.emails| ==> r[i] == f.emails[i];
    }
  }

  /** Removing the address just added gives the list back, and adding the
      same text again changes nothing. */
  lemma RemoveUndoesAdd(f: EmailField)
    requires Accepts(f)
    ensures RemoveAssignedEmail(AddAssignedEmail(f).emails, Text.Norm(f.input)) == f.emails
    ensures AddAssignedEmail(EmailField(AddAssignedEmail(f).emails, f.input)).emails == AddAssignedEmail(f).emails
  {
    var e := Text.Norm(f.input);
    WithoutAppend(f.emails, e);
    WithoutAbsent(f.emails, e);
  }

  // ---------------------------------------------------------------------------
  // The filtered list (`filteredProjects`)

  const AllStatuses := "Tümü"
  const MaxSafeInteger := 9007199254740991

  /** A date bound of the filter: not set, a time in milliseconds (the start
      of the "from" day, the last millisecond of the "to" day), or a date
      that does not parse. */
  datatype Bound = Unset | At(ms: int) | Unparsable

  datatype Query = Query(search: string, status: string, mineOnly: bool, from: Bound, to: Bound)

  /** A project's time: its update time, else its creation time, else 0;
      `timeOf` reads a time stamp and gives none where the source gets NaN. */
  function Stamp(p: Project, timeOf: string -> Option<int>): Option<int> {
    if p.updatedAt.Some? && p.updatedAt.value != "" then timeOf(p.updatedAt.value)
    else if p.createdAt.Some? && p.createdAt.value != "" then timeOf(p.createdAt.value)
    else Some(0)
  }

  /** `ts >= from && ts <= to`; an unset "from" is 0 and an unset "to" is
      `Number.MAX_SAFE_INTEGER`; NaN on either side fails. */
  predicate InRange(ts: Option<int>, from: Bound, to: Bound) {
    && ts.Some?
    && (match from case Unset => 0 <= ts.value case At(ms) => ms <= ts.value case Unparsable => false)
    && (match to case Unset => ts.value <= MaxSafeInteger case At(ms) => ts.value <= ms case Unparsable => false)
  }

  /** One of the project's addresses lower-cases to `email`. */
  predicate ListedAs(p: Project, email: string) {
    p.assignedEmails.Some? && exists i :: 0 <= i < |p.assignedEmails.value| && Text.Lower(p.assignedEmails.value[i]) == email
  }

  predicate Matches(p: Project, q: string) {
    Text.Contains(Text.Lower(p.name), q) || Text.Contains(Text.Lower(p.description), q)
  }

  function ViewStage(v: Viewer): Project -> bool {
    (p: Project) => Visibility.CanView(p, v)
  }

  function SearchStage(q: string): Project -> bool {
    (p: Project) => Matches(p, q)
  }

  function StatusStage(s: string): Project -> bool {
    (p: Project) => p.status == s
  }

  function MineStage(email: string): Project -> bool {
    (p: Project) => ListedAs(p, email)
  }

  function DateStage(from: Bound, to: Bound, timeOf: string -> Option<int>): Project -> bool {
    (p: Project) => InRange(Stamp(p, timeOf), from, to)
  }

  /** `filteredProjects`: the visible projects, then each filter that is
      set, in the source's order. The screen's address is the user's address
      lower-cased. */
  function FilteredProjects(projects: seq<Project>, v: Viewer, q: Query, timeOf: string -> Option<int>): (r: seq<Project>)
    ensures |r| <= |projects|
  {
    var email := Text.Lower(v.email);
    var r0 := Filter(projects, ViewStage(Visibility.Viewer(v.isAdmin, email)));
    var search := Text.Norm(q.search);
    var r1 := if search != "" then Filter(r0, SearchStage(search)) else r0;
    var r2 := if q.status != AllStatuses then Filter(r1, StatusStage(q.status)) else r1;
    var r3 := if q.mineOnly && email != "" then Filter(r2, MineStage(email)) else r2;
    if q.from != Unset || q.to != Unset then Filter(r3, DateStage(q.from, q.to, timeOf)) else r3
  }

  /** What the list shows, stated per project: visible to the user, and
      passing every filter that is set. */
  predicate Shown(p: Project, v: Viewer, q: Query, timeOf: string -> Option<int>) {
    && Visibility.CanView(p, v)
    && (Text.Norm(q.search) == "" || Matches(p, Text.Norm(q.search)))
    && (q.status == AllStatuses || p.status == q.status)
    && (!q.mineOnly || Text.Lower(v.email) == "" || ListedAs(p, Text.Lower(v.email)))
    && ((q.from == Unset && q.to == Unset) || InRange(Stamp(p, timeOf), q.from, q.to))
  }

  function ShownStage(v: Viewer, q: Query, timeOf: string -> Option<int>): Project -> bool {
    (p: Project) => Shown(p, v, q, timeOf)
  }

  /** The source's stages, composed. */
  function Stages(v: Viewer, q: Query, timeOf: string -> Option<int>): Project -> bool {
    var email := Text.Lower(v.email);
    var search := Text.Norm(q.search);
    var s1 := Stage(ViewStage(Visibility.Viewer(v.isAdmin, email)), search != "", SearchStage(search));
    var s2 := Stage(s1, q.status != AllStatuses, StatusStage(q.status));
    var s3 := Stage(s2, q.mineOnly && email != "", MineStage(email));
    Stage(s3, q.from != Unset || q.to != Unset, DateStage(q.from, q.to, timeOf))
  }

  lemma FilteredProjectsIsStages(projects: seq<Project>, v: Viewer, q: Query, timeOf: string -> Option<int>)
    ensures FilteredProjects(projects, v, q, timeOf) == Filter(projects, Stages(v, q, timeOf))
  {
    var email := Text.Lower(v.email);
    var view := ViewStage(Visibility.Viewer(v.isAdmin, email));
    var search := Text.Norm(q.search);
    var s1 := Stage(view, search != "", SearchStage(search));
    var s2 := Stage(s1, q.status != AllStatuses, StatusStage(q.status));
    var s3 := Stage(s2, q.mineOnly && email != "", MineStage(email));
    FilterStage(projects, view, search != "", SearchStage(search));
    FilterStage(projects, s1, q.status != AllStatuses, StatusStage(q.status));
    FilterStage(projects, s2, q.mineOnly && email != "", MineStage(email));
    FilterStage(projects, s3, q.from != Unset || q.to != Unset, DateStage(q.from, q.to, timeOf));
  }

  lemma StagesAreShown(p: Project, v: Viewer, q: Query, timeOf: string -> Option<int>)
    ensures Stages(v, q, timeOf)(p) == Shown(p, v, q, timeOf)
  {
    var email := Text.Lower(v.email);
    var search := Text.Norm(q.search);
    var view := ViewStage(Visibility.Viewer(v.isAdmin, email));
    var s1 := Stage(view, search != "", SearchStage(search));
    var s2 := Stage(s1, q.status != AllStatuses, StatusStage(q.status));
    var s3 := Stage(s2, q.mineOnly && email != "", MineStage(email));
    StageApply(view, search != "", SearchStage(search), p);
    StageApply(s1, q.status != AllStatuses, StatusStage(q.status), p);
    StageApply(s2, q.mineOnly && email != "", MineStage(email), p);
    StageApply(s3, q.from != Unset || q.to != Unset, DateStage(q.from, q.to, timeOf), p);
    Visibility.CanViewNormalised(p, v);
  }

  /** The filter chain is one filter by `Shown`. */
  lemma FilteredProjectsIsFilter(projects: seq<Project>, v: Viewer, q: Query, timeOf: string -> Option<int>)
    ensures FilteredProjects(projects, v, q, timeOf) == Filter(projects, ShownStage(v, q, timeOf))
  {
    FilteredProjectsIsStages(projects, v, q, timeOf);
    forall p | p in projects
      ensures Stages(v, q, timeOf)(p) == ShownStage(v, q, timeOf)(p)
    {
      StagesAreShown(p, v, q, timeOf);
    }
    FilterSame(projects, Stages(v, q, timeOf), ShownStage(v, q, timeOf));
  }

  /** A project is listed exactly when it is in the feed and `Shown`; the
      list keeps the feed's order. */
  lemma FilteredProjectsMembers(projects: seq<Project>, v: Viewer, q: Query, timeOf: string -> Option<int>, p: Project)
    ensures p in FilteredProjects(projects, v, q, timeOf) <==> p in projects && Shown(p, v, q, timeOf)
    ensures IsSubsequence(FilteredProjects(projects, v, q, timeOf), projects)
  {
    FilteredProjectsIsFilter(projects, v, q, timeOf);
    FilterMembers(projects, ShownStage(v, q, timeOf), p);
    FilterIsSubsequence(projects, ShownStage(v, q, timeOf));
  }

  /** A project listed under the user's lower-cased address is visible to
      them, so "assigned to me" never asks for a project the user may not
      see; the two tests differ only in that it does not trim. */
  lemma MineIsVisible(p: Project, v: Viewer)
    requires Text.Norm(v.email) != ""
    requires ListedAs(p, Text.Lower(v.email))
    ensures Visibility.CanView(p, v)
  {
    var es := p.assignedEmails.value;
    var i :| 0 <= i < |es| && Text.Lower(es[i]) == Text.Lower(v.email);
    Text.TrimLowerCommute(es[i]);
    Text.TrimLowerCommute(v.email);
    assert Text.Norm(es[i]) == Text.Norm(v.email);
  }

  // ---------------------------------------------------------------------------
  // Importing tasks into a new project

  type Extra = TaskFeed.Extra

  /** Some value is not blank: `hasAnyData`. */
  predicate Filled(e: Extra) {
    exists i :: 0 <= i < |e| && Text.Trim(e[i].1) != ""
  }

  /** `c` is the trimmed value at `i`, and every earlier value is blank. */
  predicate FirstFilledAt(e: Extra, i: int, c: string) {
    0 <= i < |e| && c == Text.Trim(e[i].1) && forall j :: 0 <= j < i ==> Text.Trim(e[j].1) == ""
  }

  /** The first value that is not blank, trimmed, or "" when there is none:
      the imported task's content. */
  function FirstFilled(e: Extra): (c: string)
    ensures !Filled(e) ==> c == ""
    ensures Filled(e) ==> c != "" && exists i :: FirstFilledAt(e, i, c)
    decreases |e|
  {
    if |e| == 0 then ""
    else if Text.Trim(e[0].1) != "" then
      assert FirstFilledAt(e, 0, Text.Trim(e[0].1));
      Text.Trim(e[0].1)
    else
      var c := FirstFilled(e[1..]);
      FirstAfterBlank(e, c);
      c
  }

  /** A blank first value passes the search on to the rest. */
  lemma FirstAfterBlank(e: Extra, c: string)
    requires |e| > 0 && Text.Trim(e[0].1) == ""
    requires Filled(e[1..]) ==> c != "" && exists i :: FirstFilledAt(e[1..], i, c)
    ensures Filled(e) ==> Filled(e[1..])
    ensures Filled(e) ==> exists i :: FirstFilledAt(e, i, c)
  {
    if Filled(e) {
      var k :| 0 <= k < |e| && Text.Trim(e[k].1) != "";
      assert k > 0 && Text.Trim(e[1..][k - 1].1) != "";
      var i :| FirstFilledAt(e[1..], i, c);
      forall j | 0 <= j < i + 1
        ensures Text.Trim(e[j].1) == ""
      {
        if j > 0 {
          assert e[j] == e[1..][j - 1];
        }
      }
      assert c == Text.Trim(e[i + 1].1);
      assert FirstFilledAt(e, i + 1, c);
    }
  }

  /** The task of one imported row, or none for a row with no data. */
  function RowTask(e: Extra, assignee: Option<string>, priority: Option<string>, projectId: string): (t: Option<TaskFeed.TaskInsert>)
  {
    if !Filled(e) then None
    else Some(TaskFeed.TaskInsert(
      FirstFilled(e),
      TaskFeed.DefaultStatus,
      assignee,
      priority,
      Some(projectId),
      None,
      if |KeysOf(e)| > 0 then Some(e) else None))
  }

  /** The rows' tasks, in file order. */
  function TasksOf(rows: seq<Extra>, assignee: Option<string>, priority: Option<string>, projectId: string): (ts: seq<TaskFeed.TaskInsert>)
    ensures |ts| <= |rows|
    decreases |rows|
  {
    if |rows| == 0 then []
    else match RowTask(rows[0], assignee, priority, projectId)
      case None => TasksOf(rows[1..], assignee, priority, projectId)
      case Some(t) => [t] + TasksOf(rows[1..], assignee, priority, projectId)
  }

  /** The JSON import's key for a header: the trimmed header or "Sütun". */
  function JsonKey(h: string): (k: string)
    ensures k != "" && Text.IsTrimmed(k)
  {
    if Text.Trim(h) != "" then Text.Trim(h) else "Sütun"
  }

  /** A JSON row's extra data: each header's key takes the row's value
      under that key, or "". */
  function JsonExtra(headers: seq<string>, row: JsonParser.Record): (e: Extra)
    ensures DistinctKeys(e)
  {
    var keys := seq(|headers|, i requires 0 <= i < |headers| => JsonKey(headers[i]));
    var values := seq(|headers|, i requires 0 <= i < |headers| => GetOr(Lookup(row, keys[i]), ""));
    TasksTable.Assign(keys, values)
  }

  /** The row's value under the key of header `i`, or "" when the row has
      no such key. The row's keys are the untrimmed headers, so a header
      with surrounding blanks reads "". */
  lemma JsonExtraValue(headers: seq<string>, row: JsonParser.Record, i: nat)
    requires i < |headers|
    ensures Lookup(JsonExtra(headers, row), JsonKey(headers[i])) == Some(GetOr(Lookup(row, JsonKey(headers[i])), ""))
  {
    var keys := seq(|headers|, i requires 0 <= i < |headers| => JsonKey(headers[i]));
    var values := seq(|headers|, i requires 0 <= i < |headers| => GetOr(Lookup(row, keys[i]), ""));
    var last :| i <= last < |keys| && keys[last] == keys[i] && forall j :: last < j < |keys| ==> keys[j] != keys[i] by {
      LastIndex(keys, i);
    }
    TasksTable.AssignIsLast(keys, values, keys[i]);
    TasksTable.LastAssignedValue(keys, values, last);
  }

  lemma {:induction false} LastIndex(keys: seq<string>, i: nat)
    requires i < |keys|
    ensures exists last :: i <= last < |keys| && keys[last] == keys[i] && forall j :: last < j < |keys| ==> keys[j] != keys[i]
    decreases |keys| - i
  {
    if exists j :: i < j < |keys| && keys[j] == keys[i] {
      var j :| i < j < |keys| && keys[j] == keys[i];
      LastIndex(keys, j);
    } else {
      assert keys[i] == keys[i];
    }
  }

  /** The import file and its name. */
  datatype ImportFile = ImportFile(name: string, text: string)

  /** What follows creating the project: no import (no file, or no project
      id), a failed import (`JSON.parse` threw, which the form shows as an
      error), or the tasks for `createTasksBulk`, which is called only when
      there is at least one. */
  datatype Import = NoImport | ImportFailed | Imported(tasks: seq<TaskFeed.TaskInsert>)

  predicate IsJsonName(name: string) {
    Text.EndsWith(Text.Lower(name), ".json")
  }

  /** The file's rows as extra data: `parseJSON` for a name ending in
      ".json" in any case, the corrected CSV reading `CsvParser.Parse`
      otherwise (the source's `parseCSV` is `CsvParser.ParseAsWritten`); no
      rows when the file has no header or no data row; none when
      `JSON.parse` throws. */
  function FileRows(file: ImportFile, jsonParse: string -> Option<JsValue.Value>): (r: Option<seq<Extra>>)
    ensures r.None? <==> IsJsonName(file.name) && jsonParse(file.text).None?
    ensures r.Some? && IsJsonName(file.name) ==>
      var t := JsonParser.FromValue(jsonParse(file.text).value);
      && |r.value| == (if |t.headers| > 0 && |t.rows| > 0 then |t.rows| else 0)
      && forall i :: 0 <= i < |r.value| ==> r.value[i] == JsonExtra(t.headers, t.rows[i])
    ensures !IsJsonName(file.name) ==>
      var c := CsvParser.Parse(file.text);
      && r.Some?
      && |r.value| == (if |c.headers| > 0 && |c.rows| > 0 then |c.rows| else 0)
      && forall i :: 0 <= i < |r.value| ==> r.value[i] == TasksTable.ExtraOf(c.headers, c.rows[i])
  {
    if IsJsonName(file.name) then
      match JsonParser.Parse(file.text, jsonParse)
      case None => None
      case Some(t) =>
        if |t.headers| > 0 && |t.rows| > 0 then
          Some(seq(|t.rows|, i requires 0 <= i < |t.rows| => JsonExtra(t.headers, t.rows[i])))
        else Some([])
    else
      var c := CsvParser.Parse(file.text);
      if |c.headers| > 0 && |c.rows| > 0 then
        Some(seq(|c.rows|, i requires 0 <= i < |c.rows| => TasksTable.ExtraOf(c.headers, c.rows[i])))
      else Some([])
  }

  /** The import of `handleFormSubmit` for a new project. */
  function ImportTasks(file: Option<ImportFile>, projectId: Option<string>, assignee: string, priority: Option<string>,
                       jsonParse: string -> Option<JsValue.Value>): (r: Import)
  {
    if file.None? || projectId.None? || projectId.value == "" then NoImport
    else
      var who := if Text.Trim(assignee) != "" then Some(Text.Trim(assignee)) else None;
      match FileRows(file.value, jsonParse)
      case None => ImportFailed
      case Some(rows) => Imported(TasksOf(rows, who, NormalizePriority(priority), projectId.value))
  }

  /** The task of a row with data: the trimmed first non-blank value as its
      content, the status "Yapılacak", the new project's id, the form's
      assignee and priority, and the row's extra data. */
  lemma RowTaskShape(e: Extra, assignee: Option<string>, priority: Option<string>, projectId: string)
    ensures RowTask(e, assignee, priority, projectId).None? <==> !Filled(e)
    ensures Filled(e) ==> var t := RowTask(e, assignee, priority, projectId).value;
      && t.content == FirstFilled(e)
      && t.content != "" && Text.IsTrimmed(t.content)
      && t.status == TaskFeed.DefaultStatus
      && t.projectId == Some(projectId)
      && t.assignee == assignee && t.priority == priority
      && t.dueDate.None? && t.extraData == Some(e)
  {
    if Filled(e) {
      var k :| 0 <= k < |e| && Text.Trim(e[k].1) != "";
      assert Lookup(e, e[k].0).Some?;
      assert e[k].0 in KeysOf(e);
      FirstFilledTrimmed(e);
    }
  }

  lemma FirstFilledTrimmed(e: Extra)
    requires Filled(e)
    ensures FirstFilled(e) != "" && Text.IsTrimmed(FirstFilled(e))
  {
    var i :| FirstFilledAt(e, i, FirstFilled(e));
    Text.TrimIdempotent(e[i].1);
  }

  /** The shape every imported task has. */
  predicate Shaped(t: TaskFeed.TaskInsert, assignee: Option<string>, priority: Option<string>, projectId: string) {
    && t.content != "" && Text.IsTrimmed(t.content)
    && t.status == TaskFeed.DefaultStatus
    && t.projectId == Some(projectId)
    && t.assignee == assignee && t.priority == priority
    && t.dueDate.None? && t.extraData.Some?
  }

  lemma RowTaskShaped(e: Extra, assignee: Option<string>, priority: Option<string>, projectId: string)
    requires Filled(e)
    ensures RowTask(e, assignee, priority, projectId).Some?
    ensures Shaped(RowTask(e, assignee, priority, projectId).value, assignee, priority, projectId)
  {
    RowTaskShape(e, assignee, priority, projectId);
  }

  /** Every imported task has the shape `RowTaskShape` gives. */
  lemma {:induction false} TasksOfShape(rows: seq<Extra>, assignee: Option<string>, priority: Option<string>, projectId: string)
    ensures forall t :: t in TasksOf(rows, assignee, priority, projectId) ==> Shaped(t, assignee, priority, projectId)
    decreases |rows|
  {
    if |rows| > 0 {
      TasksOfShape(rows[1..], assignee, priority, projectId);
      if Filled(rows[0]) {
        RowTaskShaped(rows[0], assignee, priority, projectId);
      }
    }
  }

  /** A row is dropped exactly when every value is blank; the k-th task is
      that of the k-th row with data, in file order. */
  lemma {:induction false} TasksOfKeepsFilledRows(rows: seq<Extra>, assignee: Option<string>, priority: Option<string>, projectId: string)
    ensures |TasksOf(rows, assignee, priority, projectId)| == Count(rows, (e: Extra) => Filled(e))
    ensures var ts := TasksOf(rows, assignee, priority, projectId); var filled := Filter(rows, Filled);
      && |ts| == |filled|
      && forall k :: 0 <= k < |ts| ==> Some(ts[k]) == RowTask(filled[k], assignee, priority, projectId)
    decreases |rows|
  {
    if |rows| > 0 {
      TasksOfKeepsFilledRows(rows[1..], assignee, priority, projectId);
    }
    TasksOfFilledRows(rows, assignee, priority, projectId);
  }

  lemma TasksOfFilledRows(rows: seq<Extra>, assignee: Option<string>, priority: Option<string>, projectId: string)
    ensures var ts := TasksOf(rows, assignee, priority, projectId); var filled := Filter(rows, Filled);
      && |ts| == |filled|
      && forall k :: 0 <= k < |ts| ==> Some(ts[k]) == RowTask(filled[k], assignee, priority, projectId)
  {
    var f := (e: Extra) => RowTask(e, assignee, priority, projectId);
    TasksOfIsSomes(rows, assignee, priority, projectId);
    SomesPointwise(rows, f, Filled);
  }

  /** `TasksOf` keeps the rows' present tasks in order. */
  lemma {:induction false} TasksOfIsSomes(rows: seq<Extra>, assignee: Option<string>, priority: Option<string>, projectId: string)
    ensures TasksOf(rows, assignee, priority, projectId) == Somes(rows, (e: Extra) => RowTask(e, assignee, priority, projectId))
    decreases |rows|
  {
    if |rows| > 0 {
      TasksOfIsSomes(rows[1..], assignee, priority, projectId);
    }
  }


  /** The import runs only with a file and a project id, fails only when a
      ".json" file (in any case) does not parse, and otherwise yields tasks of
      the shape above; the form's assignee is trimmed, a blank one is none,
      and the priority is normalised. */
  lemma ImportTasksOutcome(file: Option<ImportFile>, projectId: Option<string>, assignee: string, priority: Option<string>,
                           jsonParse: string -> Option<JsValue.Value>)
    ensures var r := ImportTasks(file, projectId, assignee, priority, jsonParse);
      && (r == NoImport <==> file.None? || projectId.None? || projectId.value == "")
      && (r == ImportFailed <==> r != NoImport && IsJsonName(file.value.name) && jsonParse(file.value.text).None?)
      && (r.Imported? ==> forall t :: t in r.tasks ==>
            && t.status == TaskFeed.DefaultStatus && t.projectId == projectId
            && t.content != "" && Text.IsTrimmed(t.content)
            && (t.assignee.Some? <==> Text.Trim(assignee) != "")
            && (t.assignee.Some? ==> t.assignee.value == Text.Trim(assignee))
            && t.priority == NormalizePriority(priority))
    ensures var r := ImportTasks(file, projectId, assignee, priority, jsonParse);
      r.Imported? ==> (FileRows(file.value, jsonParse).Some? &&
        var filled := Filter(FileRows(file.value, jsonParse).value, Filled);
        && |r.tasks| == |filled|
        && forall k :: 0 <= k < |r.tasks| ==>
             r.tasks[k].content == FirstFilled(filled[k]) && r.tasks[k].extraData == Some(filled[k]))
  {
    if file.Some? && projectId.Some? && projectId.value != "" {
      var who := if Text.Trim(assignee) != "" then Some(Text.Trim(assignee)) else None;
      var rows := FileRows(file.value, jsonParse);
      if rows.Some? {
        var pr := NormalizePriority(priority);
        TasksOfShape(rows.value, who, pr, projectId.value);
        TasksOfContents(rows.value, who, pr, projectId.value);
      }
    }
  }

  /** The k-th task takes its content and extra data from the k-th row with
      data. */
  lemma TasksOfContents(rows: seq<Extra>, assignee: Option<string>, priority: Option<string>, projectId: string)
    ensures var ts := TasksOf(rows, assignee, priority, projectId); var filled := Filter(rows, Filled);
      && |ts| == |filled|
      && forall k :: 0 <= k < |ts| ==> ts[k].content == FirstFilled(filled[k]) && ts[k].extraData == Some(filled[k])
  {
    TasksOfFilledRows(rows, assignee, priority, projectId);
    var filled := Filter(rows, Filled);
    forall k | 0 <= k < |filled|
      ensures RowTask(filled[k], assignee, priority, projectId).Some?
      ensures RowTask(filled[k], assignee, priority, projectId).value.content == FirstFilled(filled[k])
      ensures RowTask(filled[k], assignee, priority, projectId).value.extraData == Some(filled[k])
    {
      RowTaskShape(filled[k], assignee, priority, projectId);
    }
  }
}
