/**
 * The project list of hooks/useProjects.ts: row normalisation (including the
 * assigned e-mail list and the priority), the reducer the realtime change
 * feed drives, and the rows and local edits of create, update, delete and
 * archive. Database calls are not modelled; their outcomes are inputs.
 */
module ProjectFeed {
  import opened Common
  import opened JsValue
  import Text
  import TaskFeed

  datatype Project = Project(
    id: string,
    name: string,
    description: string,
    status: string,
    createdAt: Option<string>,
    updatedAt: Option<string>,
    assignedEmails: Option<seq<string>>,
    dueDate: Option<string>,
    priority: Option<string>)

  const DefaultStatus := "Aktif"
  const ArchivedStatus := "Beklemede"
  const UnnamedProject := "İsimsiz proje"

  // ---------------------------------------------------------------------------
  // E-mail lists

  /** A normalised address: non-empty, trimmed, lower case. */
  predicate IsNormalEmail(e: string) {
    e != "" && Text.IsTrimmed(e) && Text.Lower(e) == e
  }

  lemma NormIsNormal(x: string)
    ensures Text.IsTrimmed(Text.Norm(x)) && Text.Lower(Text.Norm(x)) == Text.Norm(x)
    ensures Text.Norm(Text.Norm(x)) == Text.Norm(x)
  {
    Text.TrimLowerCommute(x);
    Text.TrimIdempotent(Text.Lower(x));
    Text.LowerIdempotent(Text.Trim(x));
    Text.TrimOfTrimmed(Text.Norm(x));
  }

  /** `.map((e) => e.trim().toLowerCase()).filter(Boolean)` */
  function NormEmails(xs: seq<string>): (r: seq<string>)
    ensures |r| <= |xs|
    ensures forall i :: 0 <= i < |r| ==> IsNormalEmail(r[i])
    decreases |xs|
  {
    if |xs| == 0 then []
    else
      var e := Text.Norm(xs[0]);
      NormIsNormal(xs[0]);
      (if e == "" then [] else [e]) + NormEmails(xs[1..])
  }

  /** An address is listed exactly when some input normalises to it. */
  lemma {:induction false} NormEmailsMembers(xs: seq<string>, e: string)
    ensures e in NormEmails(xs) <==> e != "" && exists i :: 0 <= i < |xs| && Text.Norm(xs[i]) == e
    decreases |xs|
  {
    if |xs| > 0 {
      NormEmailsMembers(xs[1..], e);
      if exists i :: 0 <= i < |xs| - 1 && Text.Norm(xs[1..][i]) == e {
        var i :| 0 <= i < |xs| - 1 && Text.Norm(xs[1..][i]) == e;
        assert xs[i + 1] == xs[1..][i];
      }
      if exists i :: 0 <= i < |xs| && Text.Norm(xs[i]) == e {
        var i :| 0 <= i < |xs| && Text.Norm(xs[i]) == e;
        if i > 0 {
          assert xs[1..][i - 1] == xs[i];
        }
      }
    }
  }

  /** A list that is already normalised comes back unchanged, so normalising
      twice is normalising once. */
  lemma {:induction false} NormEmailsOfNormal(xs: seq<string>)
    requires forall i :: 0 <= i < |xs| ==> IsNormalEmail(xs[i])
    ensures NormEmails(xs) == xs
    decreases |xs|
  {
    if |xs| > 0 {
      Text.TrimOfTrimmed(xs[0]);
      NormEmailsOfNormal(xs[1..]);
      assert xs == [xs[0]] + xs[1..];
    }
  }

  lemma NormEmailsIdempotent(xs: seq<string>)
    ensures NormEmails(NormEmails(xs)) == NormEmails(xs)
  {
    NormEmailsOfNormal(NormEmails(xs));
  }

  /** The string entries of an array; other entries are dropped. */
  function StringsOf(items: seq<Value>): (r: seq<string>)
    ensures |r| <= |items|
    ensures forall x :: x in r <==> Str(x) in items
    decreases |items|
  {
    if |items| == 0 then []
    else
      var rest := StringsOf(items[1..]);
      assert items == [items[0]] + items[1..];
      if items[0].Str? then [items[0].s] + rest else rest
  }

  /** `assigned_emails` of a stored row: an array, or a string holding a JSON
      array; string entries normalised, blanks dropped, an empty list as
      `null`. Anything else, including text `JSON.parse` rejects, is `null`. */
  function AssignedOf(raw: Option<Value>, jsonParse: string -> Option<Value>): (r: Option<seq<string>>)
    ensures r.Some? ==> |r.value| > 0 && forall i :: 0 <= i < |r.value| ==> IsNormalEmail(r.value[i])
    ensures raw.Some? && raw.value.Arr? ==> r == NonEmpty(NormEmails(StringsOf(raw.value.items)))
    ensures r.Some? ==> raw.Some? && (raw.value.Arr? || raw.value.Str?)
  {
    var list :=
      if raw.Some? && raw.value.Arr? then Some(NormEmails(StringsOf(raw.value.items)))
      else if raw.Some? && raw.value.Str? && !Text.IsBlank(raw.value.s) then
        match jsonParse(raw.value.s)
        case Some(Arr(items)) => Some(NormEmails(StringsOf(items)))
        case _ => None
      else None;
    if list.Some? then NonEmpty(list.value) else None
  }

  function NonEmpty(xs: seq<string>): (r: Option<seq<string>>)
    ensures r.None? <==> |xs| == 0
    ensures r.Some? ==> r.value == xs
  {
    if |xs| == 0 then None else Some(xs)
  }

  /** A stored array of normalised addresses reads back as the same list. */
  lemma AssignedRoundTrip(emails: seq<string>, jsonParse: string -> Option<Value>)
    requires |emails| > 0 && forall i :: 0 <= i < |emails| ==> IsNormalEmail(emails[i])
    ensures AssignedOf(Some(Arr(Strs(emails))), jsonParse) == Some(emails)
  {
    StringsOfStrs(emails);
    NormEmailsOfNormal(emails);
  }

  /** An array of strings. */
  function Strs(xs: seq<string>): (r: seq<Value>)
    ensures |r| == |xs|
    ensures forall i :: 0 <= i < |xs| ==> r[i] == Str(xs[i])
  {
    seq(|xs|, i requires 0 <= i < |xs| => Str(xs[i]))
  }

  lemma {:induction false} StringsOfStrs(xs: seq<string>)
    ensures StringsOf(Strs(xs)) == xs
    decreases |xs|
  {
    if |xs| > 0 {
      assert Strs(xs)[1..] == Strs(xs[1..]);
      StringsOfStrs(xs[1..]);
      assert xs == [xs[0]] + xs[1..];
    }
  }

  // ---------------------------------------------------------------------------
  // Priority

  /** `String(s).charAt(0).toUpperCase() + String(s).slice(1).toLowerCase()` */
  function Capitalize(s: string): (r: string)
    ensures |r| == |s|
  {
    if |s| == 0 then "" else Text.Upper([s[0]]) + Text.Lower(s[1..])
  }

  /** The test as written, `/^high|medium|low$/i`: the alternation binds
      looser than the anchors, so it accepts a string that starts with
      "high", contains "medium" or ends with "low". With patterns of ASCII
      letters, the `i` flag amounts to comparing lower-cased text. */
  predicate PriorityTestAsWritten(s: string) {
    var l := Text.Lower(s);
    Text.StartsWith(l, "high") || Text.Contains(l, "medium") || Text.EndsWith(l, "low")
  }

  /** The test as evidently intended, `/^(high|medium|low)$/i`. */
  predicate PriorityTest(s: string) {
    var l := Text.Lower(s);
    l == "high" || l == "medium" || l == "low"
  }

  predicate IsPriority(p: string) {
    p == "High" || p == "Medium" || p == "Low"
  }

  function PriorityAsWritten(v: Option<Value>): (r: Option<string>)
    ensures r.Some? <==> !IsNullish(v) && PriorityTestAsWritten(ToStr(v.value))
  {
    if !IsNullish(v) && PriorityTestAsWritten(ToStr(v.value)) then Some(Capitalize(ToStr(v.value))) else None
  }

  function Priority(v: Option<Value>): (r: Option<string>)
    ensures r.Some? <==> !IsNullish(v) && PriorityTest(ToStr(v.value))
    ensures r.Some? ==> IsPriority(r.value)
  {
    if !IsNullish(v) && PriorityTest(ToStr(v.value)) then
      CapitalizeExact(ToStr(v.value));
      Some(Capitalize(ToStr(v.value)))
    else None
  }

  /** A character whose lower case is an ASCII letter upper-cases the same
      way its lower case does. */
  lemma UpperOfLowerAscii(c: char)
    requires 'a' <= Text.LowerChar(c) <= 'z'
    ensures Text.UpperChar(c) == Text.UpperChar(Text.LowerChar(c))
  {
  }

  /** A string whose lower case is the lower-case word `w` capitalises to `w`
      with its first letter upper-cased. */
  lemma CapitalizeWord(s: string, w: string)
    requires Text.Lower(s) == w && |w| > 0 && 'a' <= w[0] <= 'z'
    ensures Capitalize(s) == [Text.UpperChar(w[0])] + w[1..]
  {
    assert |s| == |w| && Text.LowerChar(s[0]) == w[0];
    UpperOfLowerAscii(s[0]);
    assert Text.Upper([s[0]]) == [Text.UpperChar(w[0])];
    Text.LowerSlice(s, 1, |s|);
    assert Text.Lower(s[1..]) == w[1..];
  }

  /** The three accepted spellings re-case to the three priorities. */
  lemma CapitalizeExact(s: string)
    requires PriorityTest(s)
    ensures IsPriority(Capitalize(s))
    ensures Text.Lower(s) == "high" ==> Capitalize(s) == "High"
    ensures Text.Lower(s) == "medium" ==> Capitalize(s) == "Medium"
    ensures Text.Lower(s) == "low" ==> Capitalize(s) == "Low"
  {
    var l := Text.Lower(s);
    CapitalizeWord(s, l);
  }

  /** Each priority, in any letter case, reads back as itself. */
  lemma PriorityRoundTrip(p: string)
    requires IsPriority(p)
    ensures Priority(Some(Str(p))) == Some(p)
    ensures Priority(Some(Str(Text.Lower(p)))) == Some(p)
    ensures Priority(Some(Str(Text.Upper(p)))) == Some(p)
  {
    Text.LowerIdempotent(p);
    if p == "High" {
      assert Text.Lower(Text.Upper(p)) == Text.Lower(p);
    } else if p == "Medium" {
      assert Text.Lower(Text.Upper(p)) == Text.Lower(p);
    } else {
      assert Text.Lower(Text.Upper(p)) == Text.Lower(p);
    }
    PrioritySpelling(p, p);
    PrioritySpelling(Text.Lower(p), p);
    PrioritySpelling(Text.Upper(p), p);
  }

  lemma PrioritySpelling(s: string, p: string)
    requires IsPriority(p) && Text.Lower(s) == Text.Lower(p)
    ensures Priority(Some(Str(s))) == Some(p)
  {
    if p == "High" {
      assert Text.Lower(p) == "high";
    } else if p == "Medium" {
      assert Text.Lower(p) == "medium";
    } else {
      assert Text.Lower(p) == "low";
    }
    CapitalizeExact(s);
  }

  /** Wherever the intended test accepts, the test as written agrees. */
  lemma AsWrittenAgreesOnExact(v: Option<Value>)
    requires Priority(v).Some?
    ensures PriorityAsWritten(v) == Priority(v)
  {
    var l := Text.Lower(ToStr(v.value));
    if l == "high" {
      assert Text.StartsWith(l, "high");
    } else if l == "medium" {
      assert Text.OccursAt(l, "medium", 0);
    } else {
      assert Text.EndsWith(l, "low");
    }
  }

  /** The test as written lets "slow" through and stores "Slow", which is not
      a priority; the intended test stores nothing. */
  lemma PriorityAsWrittenAdmitsSlow()
    ensures PriorityAsWritten(Some(Str("slow"))) == Some("Slow")
    ensures !IsPriority("Slow")
    ensures Priority(Some(Str("slow"))).None?
  {
    LowerOfLowerWord("slow");
    assert Text.EndsWith("slow", "low");
    CapitalizeWord("slow", "slow");
    assert Text.UpperChar('s') == 'S';
    assert ['S'] + "low" == "Slow";
  }

  /** "highway" and "intermediumx" pass the test as written as well. */
  lemma PriorityAsWrittenAdmitsPrefix()
    ensures PriorityAsWritten(Some(Str("highway"))) == Some("Highway")
    ensures Priority(Some(Str("highway"))).None?
  {
    LowerOfLowerWord("highway");
    assert Text.StartsWith("highway", "high");
    CapitalizeWord("highway", "highway");
    assert Text.UpperChar('h') == 'H';
    assert ['H'] + "ighway" == "Highway";
  }

  lemma PriorityAsWrittenAdmitsInfix()
    ensures PriorityAsWritten(Some(Str("intermediumx"))).Some?
    ensures Priority(Some(Str("intermediumx"))).None?
  {
    LowerOfLowerWord("intermediumx");
    assert Text.OccursAt("intermediumx", "medium", 5);
  }

  /** A word of lower-case ASCII letters is its own lower case. */
  lemma LowerOfLowerWord(w: string)
    requires forall i :: 0 <= i < |w| ==> 'a' <= w[i] <= 'z'
    ensures Text.Lower(w) == w
    ensures ToStr(Str(w)) == w
  {
  }

  // ---------------------------------------------------------------------------
  // Row normalisation (`mapRowToProject`)

  /** `mapRowToProject`, with the intended priority test. A status that is
      present is kept as it is (it is not checked against the three known
      values); a missing one is "Aktif". */
  function MapRow(row: Row, jsonParse: string -> Option<Value>): (p: Project)
    ensures IsNullish(Lookup(row, "name")) ==> p.name == ""
    ensures IsNullish(Lookup(row, "description")) ==> p.description == ""
    ensures IsNullish(Lookup(row, "status")) ==> p.status == DefaultStatus
    ensures Lookup(row, "status").Some? && Lookup(row, "status").value.Str? ==> p.status == Lookup(row, "status").value.s
    ensures p.createdAt.None? <==> IsNullish(Lookup(row, "created_at"))
    ensures p.updatedAt.None? <==> IsNullish(Lookup(row, "updated_at"))
    ensures p.dueDate.None? <==> IsNullish(Lookup(row, "due_date"))
    ensures p.priority.Some? ==> IsPriority(p.priority.value)
    ensures p.assignedEmails.Some? ==> |p.assignedEmails.value| > 0
    ensures ReadsAs(Lookup(row, "id"), p.id) && (Lookup(row, "id").None? ==> p.id == "undefined")
    ensures ReadsAs(Lookup(row, "name"), p.name) && ReadsAs(Lookup(row, "description"), p.description)
    ensures ReadsAs(Lookup(row, "status"), p.status)
    ensures p.createdAt.Some? ==> ReadsAs(Lookup(row, "created_at"), p.createdAt.value)
    ensures p.updatedAt.Some? ==> ReadsAs(Lookup(row, "updated_at"), p.updatedAt.value)
    ensures p.dueDate.Some? ==> ReadsAs(Lookup(row, "due_date"), p.dueDate.value)
    ensures p.assignedEmails == AssignedOf(Lookup(row, "assigned_emails"), jsonParse)
    ensures p.priority == Priority(Lookup(row, "priority"))
  {
    var status := Lookup(row, "status");
    Project(
      StrOf(Lookup(row, "id")),
      StrOrEmpty(Lookup(row, "name")),
      StrOrEmpty(Lookup(row, "description")),
      if IsNullish(status) then DefaultStatus else ToStr(status.value),
      StrOrNull(Lookup(row, "created_at")),
      StrOrNull(Lookup(row, "updated_at")),
      AssignedOf(Lookup(row, "assigned_emails"), jsonParse),
      StrOrNull(Lookup(row, "due_date")),
      Priority(Lookup(row, "priority")))
  }

  /** The row the store delivers for a project: strings or `null`, the
      address list as an array of strings. */
  function StoredRow(p: Project): Row {
    [("id", Str(p.id)), ("name", Str(p.name)), ("description", Str(p.description)),
     ("status", Str(p.status)), ("created_at", TaskFeed.OrNull(p.createdAt)),
     ("updated_at", TaskFeed.OrNull(p.updatedAt)),
     ("assigned_emails", if p.assignedEmails.Some? then Arr(Strs(p.assignedEmails.value)) else Null),
     ("due_date", TaskFeed.OrNull(p.dueDate)), ("priority", TaskFeed.OrNull(p.priority))]
  }

  /** Each column of a stored row holds the field it was written from. */
  lemma StoredRowLookups(p: Project)
    ensures Lookup(StoredRow(p), "id") == Some(Str(p.id))
    ensures Lookup(StoredRow(p), "name") == Some(Str(p.name))
    ensures Lookup(StoredRow(p), "description") == Some(Str(p.description))
    ensures Lookup(StoredRow(p), "status") == Some(Str(p.status))
    ensures Lookup(StoredRow(p), "created_at") == Some(TaskFeed.OrNull(p.createdAt))
    ensures Lookup(StoredRow(p), "updated_at") == Some(TaskFeed.OrNull(p.updatedAt))
    ensures Lookup(StoredRow(p), "assigned_emails")
      == Some(if p.assignedEmails.Some? then Arr(Strs(p.assignedEmails.value)) else Null)
    ensures Lookup(StoredRow(p), "due_date") == Some(TaskFeed.OrNull(p.dueDate))
    ensures Lookup(StoredRow(p), "priority") == Some(TaskFeed.OrNull(p.priority))
  {
    var row := StoredRow(p);
    assert DistinctKeys(row);
    LookupIndex(row, 0); LookupIndex(row, 1); LookupIndex(row, 2); LookupIndex(row, 3);
    LookupIndex(row, 4); LookupIndex(row, 5); LookupIndex(row, 6); LookupIndex(row, 7);
    LookupIndex(row, 8);
  }

  /** The reader's own results: a non-empty list of normalised addresses,
      one of the three priorities. */
  predicate ReaderShaped(p: Project) {
    && (p.assignedEmails.Some? ==>
         |p.assignedEmails.value| > 0 && forall i :: 0 <= i < |p.assignedEmails.value| ==> IsNormalEmail(p.assignedEmails.value[i]))
    && (p.priority.Some? ==> IsPriority(p.priority.value))
  }

  /** The stored address list and priority parse back to the project's. */
  lemma StoredParsedFieldsReadBack(p: Project, jsonParse: string -> Option<Value>)
    requires ReaderShaped(p)
    ensures AssignedOf(Lookup(StoredRow(p), "assigned_emails"), jsonParse) == p.assignedEmails
    ensures Priority(Lookup(StoredRow(p), "priority")) == p.priority
  {
    StoredRowLookups(p);
    if p.assignedEmails.Some? {
      AssignedRoundTrip(p.assignedEmails.value, jsonParse);
    }
    if p.priority.Some? {
      PriorityRoundTrip(p.priority.value);
    }
  }

  /** A project the reader could have produced, written out as a row the way
      the database stores it, reads back as the same project. */
  lemma MapRowReadsStored(p: Project, jsonParse: string -> Option<Value>)
    requires ReaderShaped(p)
    ensures MapRow(StoredRow(p), jsonParse) == p
  {
    StoredTextReadsBack(p);
    StoredDatesReadBack(p);
    StoredParsedFieldsReadBack(p, jsonParse);
  }

  /** The stored id, name, description and status read back as written. */
  lemma StoredTextReadsBack(p: Project)
    ensures StrOf(Lookup(StoredRow(p), "id")) == p.id
    ensures StrOrEmpty(Lookup(StoredRow(p), "name")) == p.name
    ensures StrOrEmpty(Lookup(StoredRow(p), "description")) == p.description
    ensures !IsNullish(Lookup(StoredRow(p), "status")) && ToStr(Lookup(StoredRow(p), "status").value) == p.status
  {
    StoredRowLookups(p);
  }

  /** The stored timestamps and due date read back as written, `null` as none. */
  lemma StoredDatesReadBack(p: Project)
    ensures StrOrNull(Lookup(StoredRow(p), "created_at")) == p.createdAt
    ensures StrOrNull(Lookup(StoredRow(p), "updated_at")) == p.updatedAt
    ensures StrOrNull(Lookup(StoredRow(p), "due_date")) == p.dueDate
  {
    StoredRowLookups(p);
  }

  /** `mapRowToProject` as written: the same, but with the loose priority test. */
  function MapRowAsWritten(row: Row, jsonParse: string -> Option<Value>): (p: Project)
    ensures p.priority == PriorityAsWritten(Lookup(row, "priority"))
    ensures p == MapRow(row, jsonParse).(priority := p.priority)
  {
    MapRow(row, jsonParse).(priority := PriorityAsWritten(Lookup(row, "priority")))
  }

  // ---------------------------------------------------------------------------
  // The change reducer

  predicate HasId(ps: seq<Project>, id: string) {
    exists i :: 0 <= i < |ps| && ps[i].id == id
  }

  predicate UniqueIds(ps: seq<Project>) {
    forall i, j :: 0 <= i < j < |ps| ==> ps[i].id != ps[j].id
  }

  function RemoveId(ps: seq<Project>, id: string): (r: seq<Project>)
    ensures !HasId(r, id)
    ensures forall p :: p in r <==> p in ps && p.id != id
  {
    var keep := (p: Project) => p.id != id;
    forall p ensures p in Filter(ps, keep) <==> p in ps && p.id != id {
      FilterMembers(ps, keep, p);
    }
    Filter(ps, keep)
  }

  /** The `setProjects((prev) => …)` callback. Unlike the task list, an INSERT
      puts the project first, and every kind of event needs a non-empty id. */
  function Apply(ps: seq<Project>, ev: TaskFeed.Change, jsonParse: string -> Option<Value>): (r: seq<Project>)
    ensures ev.Insert? && TaskFeed.Truthy(TaskFeed.RowId(ev.newRow)) && !HasId(ps, TaskFeed.RowId(ev.newRow).value) ==>
      r == [MapRow(ev.newRow, jsonParse)] + ps
    ensures ev.Insert? && !(TaskFeed.Truthy(TaskFeed.RowId(ev.newRow)) && !HasId(ps, TaskFeed.RowId(ev.newRow).value)) ==>
      r == ps
    ensures ev.Update? && !TaskFeed.Truthy(TaskFeed.RowId(ev.newRow)) ==> r == ps
    ensures ev.Update? && TaskFeed.Truthy(TaskFeed.RowId(ev.newRow)) ==> (|r| == |ps| &&
      forall i :: 0 <= i < |r| ==>
        if ps[i].id == TaskFeed.RowId(ev.newRow).value then r[i] == MapRow(ev.newRow, jsonParse) else r[i] == ps[i])
    ensures ev.Delete? && !TaskFeed.Truthy(TaskFeed.RowId(ev.oldRow)) ==> r == ps
    ensures ev.Delete? && TaskFeed.Truthy(TaskFeed.RowId(ev.oldRow)) ==> r == RemoveId(ps, TaskFeed.RowId(ev.oldRow).value)
  {
    match ev
    case Insert(row) =>
      var id := TaskFeed.RowId(row);
      if TaskFeed.Truthy(id) && !HasId(ps, id.value) then [MapRow(row, jsonParse)] + ps else ps
    case Update(row) =>
      var id := TaskFeed.RowId(row);
      if TaskFeed.Truthy(id) then
        seq(|ps|, i requires 0 <= i < |ps| => if ps[i].id == id.value then MapRow(row, jsonParse) else ps[i])
      else ps
    case Delete(row) =>
      var id := TaskFeed.RowId(row);
      if TaskFeed.Truthy(id) then RemoveId(ps, id.value) else ps
  }

  lemma MapRowId(row: Row, jsonParse: string -> Option<Value>)
    requires TaskFeed.RowId(row).Some?
    ensures MapRow(row, jsonParse).id == TaskFeed.RowId(row).value
  {
  }

  /** Every event keeps the project ids distinct. */
  lemma ApplyKeepsIdsUnique(ps: seq<Project>, ev: TaskFeed.Change, jsonParse: string -> Option<Value>)
    requires UniqueIds(ps)
    ensures UniqueIds(Apply(ps, ev, jsonParse))
  {
    match ev
    case Insert(row) => InsertKeepsIdsUnique(ps, row, jsonParse);
    case Update(row) => UpdateKeepsIdsUnique(ps, row, jsonParse);
    case Delete(row) =>
      if TaskFeed.Truthy(TaskFeed.RowId(row)) {
        FilterIsSubsequence(ps, (p: Project) => p.id != TaskFeed.RowId(row).value);
        SubsequenceUnique(Apply(ps, ev, jsonParse), ps);
      }
  }

  lemma InsertKeepsIdsUnique(ps: seq<Project>, row: Row, jsonParse: string -> Option<Value>)
    requires UniqueIds(ps)
    ensures UniqueIds(Apply(ps, TaskFeed.Insert(row), jsonParse))
  {
    if TaskFeed.Truthy(TaskFeed.RowId(row)) && !HasId(ps, TaskFeed.RowId(row).value) {
      MapRowId(row, jsonParse);
      ConsUnique(MapRow(row, jsonParse), ps);
    }
  }

  lemma ConsUnique(x: Project, ps: seq<Project>)
    requires UniqueIds(ps) && !HasId(ps, x.id)
    ensures UniqueIds([x] + ps)
  {
    var r := [x] + ps;
    forall i, j | 0 <= i < j < |r| ensures r[i].id != r[j].id {
      assert r[j] == ps[j - 1];
      if i > 0 {
        assert r[i] == ps[i - 1];
      }
    }
  }

  lemma UpdateKeepsIdsUnique(ps: seq<Project>, row: Row, jsonParse: string -> Option<Value>)
    requires UniqueIds(ps)
    ensures UniqueIds(Apply(ps, TaskFeed.Update(row), jsonParse))
  {
    var r := Apply(ps, TaskFeed.Update(row), jsonParse);
    if TaskFeed.Truthy(TaskFeed.RowId(row)) {
      MapRowId(row, jsonParse);
      forall i, j | 0 <= i < j < |r| ensures r[i].id != r[j].id {
        assert r[i].id == ps[i].id && r[j].id == ps[j].id;
      }
    }
  }

  lemma {:induction false} SubsequenceUnique(r: seq<Project>, ps: seq<Project>)
    requires IsSubsequence(r, ps) && UniqueIds(ps)
    ensures UniqueIds(r)
    decreases |ps|
  {
    if |r| > 0 && |ps| > 0 {
      assert UniqueIds(ps[1..]) by {
        forall i, j | 0 <= i < j < |ps| - 1 ensures ps[1..][i].id != ps[1..][j].id {
          assert ps[1..][i] == ps[i + 1] && ps[1..][j] == ps[j + 1];
        }
      }
      if r[0] == ps[0] {
        SubsequenceUnique(r[1..], ps[1..]);
        forall j | 0 < j < |r| ensures r[0].id != r[j].id {
          assert r[1..][j - 1] in r[1..];
          SubsequenceIn(r[1..], ps[1..], r[1..][j - 1]);
          var k :| 0 <= k < |ps| - 1 && ps[1..][k] == r[j];
          assert ps[k + 1] == r[j];
        }
        forall i, j | 0 <= i < j < |r| ensures r[i].id != r[j].id {
          if i > 0 {
            assert r[i] == r[1..][i - 1] && r[j] == r[1..][j - 1];
          }
        }
      } else {
        SubsequenceUnique(r, ps[1..]);
      }
    }
  }

  lemma {:induction false} SubsequenceIn(r: seq<Project>, s: seq<Project>, x: Project)
    requires IsSubsequence(r, s) && x in r
    ensures exists k :: 0 <= k < |s| && s[k] == x
    decreases |s|
  {
    if r[0] == s[0] && x == r[0] {
      assert s[0] == x;
    } else if r[0] == s[0] {
      assert x in r[1..];
      SubsequenceIn(r[1..], s[1..], x);
      var k :| 0 <= k < |s| - 1 && s[1..][k] == x;
      assert s[k + 1] == x;
    } else {
      SubsequenceIn(r, s[1..], x);
      var k :| 0 <= k < |s| - 1 && s[1..][k] == x;
      assert s[k + 1] == x;
    }
  }

  /** Every project event is idempotent: delivering it twice is delivering it
      once (an id-less INSERT is ignored here, not appended). */
  lemma ApplyTwice(ps: seq<Project>, ev: TaskFeed.Change, jsonParse: string -> Option<Value>)
    ensures Apply(Apply(ps, ev, jsonParse), ev, jsonParse) == Apply(ps, ev, jsonParse)
  {
    match ev
    case Insert(row) =>
      if TaskFeed.Truthy(TaskFeed.RowId(row)) && !HasId(ps, TaskFeed.RowId(row).value) {
        MapRowId(row, jsonParse);
        assert Apply(ps, ev, jsonParse)[0].id == TaskFeed.RowId(row).value;
      }
    case Update(row) =>
      if TaskFeed.Truthy(TaskFeed.RowId(row)) {
        MapRowId(row, jsonParse);
      }
    case Delete(row) =>
      if TaskFeed.Truthy(TaskFeed.RowId(row)) {
        var id := TaskFeed.RowId(row).value;
        var r := Apply(ps, ev, jsonParse);
        FilterAllPass(r, (p: Project) => p.id != id);
      }
  }

  // ---------------------------------------------------------------------------
  // Fetch

  datatype FeedState = FeedState(projects: seq<Project>, error: Option<string>, loading: bool)

  /** `fetchProjects`: the normalised rows and no error, or an empty list and
      the error. */
  function AfterFetch(s: FeedState, f: TaskFeed.Fetch, jsonParse: string -> Option<Value>): (r: FeedState)
    ensures !r.loading
    ensures f.Fetched? ==> (r.error.None? && |r.projects| == |f.rows| &&
      forall i :: 0 <= i < |f.rows| ==> r.projects[i] == MapRow(f.rows[i], jsonParse))
    ensures f.FetchFailed? ==> r.projects == [] && r.error == Some(f.message)
  {
    match f
    case Fetched(rows) => FeedState(seq(|rows|, i requires 0 <= i < |rows| => MapRow(rows[i], jsonParse)), None, false)
    case FetchFailed(m) => FeedState([], Some(m), false)
  }

  // ---------------------------------------------------------------------------
  // createProject

  datatype NewProject = NewProject(
    name: string,
    description: string,
    status: string,
    assignedEmails: Option<seq<string>>,
    dueDate: Option<string>,
    priority: Option<string>)

  /** A row to insert; `None` fields are left out. The timestamp is not
      modelled. */
  datatype InsertRow = InsertRow(
    name: string,
    description: string,
    status: string,
    assignedEmails: Option<seq<string>>,
    dueDate: Option<string>,
    priority: Option<string>)

  predicate HasAssigned(p: NewProject) {
    p.assignedEmails.Some? && |p.assignedEmails.value| > 0
  }

  /** The first row `createProject` sends: the name trimmed (a blank one
      becomes "İsimsiz proje"), the description trimmed, the addresses
      normalised when there are any, a due date trimmed and a priority as
      given when they are not blank. */
  function BaseRow(p: NewProject): (r: InsertRow)
    ensures r.name != "" && Text.IsTrimmed(r.name)
    ensures Text.IsTrimmed(r.description) && r.status == p.status
    ensures r.assignedEmails.Some? <==> HasAssigned(p)
    ensures r.dueDate.Some? <==> p.dueDate.Some? && !Text.IsBlank(p.dueDate.value)
    ensures r.dueDate.Some? ==> Text.IsTrimmed(r.dueDate.value)
    ensures r.priority.Some? <==> p.priority.Some? && !Text.IsBlank(p.priority.value)
    ensures r.name == if Text.Trim(p.name) == "" then UnnamedProject else Text.Trim(p.name)
    ensures r.description == Text.Trim(p.description)
    ensures HasAssigned(p) ==> r.assignedEmails == Some(NormEmails(p.assignedEmails.value))
    ensures r.dueDate.Some? ==> r.dueDate.value == Text.Trim(p.dueDate.value)
    ensures r.priority.Some? ==> r.priority == p.priority
  {
    var name := Text.Trim(p.name);
    assert Text.IsTrimmed(UnnamedProject) by {
      assert UnnamedProject[0] == 'İ' && UnnamedProject[|UnnamedProject| - 1] == 'e';
    }
    InsertRow(
      if name == "" then UnnamedProject else name,
      Text.Trim(p.description),
      p.status,
      if HasAssigned(p) then Some(NormEmails(p.assignedEmails.value)) else None,
      if p.dueDate.Some? && !Text.IsBlank(p.dueDate.value) then Some(Text.Trim(p.dueDate.value)) else None,
      if p.priority.Some? && !Text.IsBlank(p.priority.value) then p.priority else None)
  }

  /** What an insert call returns. */
  datatype Insert = Inserted(id: Option<string>) | InsertError(message: string, code: string)

  /** Whether a failed insert is about the `assigned_emails` column. */
  predicate AboutAssignedColumn(e: Insert) {
    e.InsertError? && (Text.Contains(e.message, "assigned_emails") || e.code == "42703")
  }

  datatype Created = Created(id: Option<string>) | CreateFailed(message: string)

  /** `data?.id ? String(data.id) : null`: a missing or empty id is `null`. */
  function CreatedId(id: Option<string>): (r: Option<string>)
    ensures r.Some? <==> id.Some? && id.value != ""
    ensures r.Some? ==> r == id
  {
    if id.Some? && id.value != "" then id else None
  }

  /** The outcome of one insert call. */
  function Outcome(e: Insert): (r: Created)
    ensures e.Inserted? ==> r == Created(CreatedId(e.id))
    ensures e.InsertError? ==> r == CreateFailed(e.message)
  {
    match e
    case Inserted(id) => Created(CreatedId(id))
    case InsertError(m, _) => CreateFailed(m)
  }

  /** `createProject` given the answers to its insert calls: the rows sent, in
      order, and the outcome. A failure about the `assigned_emails` column is
      retried once with that field dropped. */
  function CreateProject(p: NewProject, first: Insert, retry: Insert): (r: (seq<InsertRow>, Created))
    ensures 1 <= |r.0| <= 2 && r.0[0] == BaseRow(p)
    ensures |r.0| == 2 <==> HasAssigned(p) && AboutAssignedColumn(first)
    ensures |r.0| == 2 ==> r.0[1] == BaseRow(p).(assignedEmails := None)
    ensures first.Inserted? ==> r.1 == Created(CreatedId(first.id))
    ensures first.InsertError? && |r.0| == 1 ==> r.1 == CreateFailed(first.message)
    ensures |r.0| == 2 ==> r.1 == if retry.Inserted? then Created(CreatedId(retry.id)) else CreateFailed(retry.message)
    ensures r.1.Created? && r.1.id.Some? ==> r.1.id.value != ""
  {
    var base := BaseRow(p);
    if first.InsertError? && HasAssigned(p) && AboutAssignedColumn(first) then
      ([base, base.(assignedEmails := None)], Outcome(retry))
    else
      ([base], Outcome(first))
  }

  /** The retry row differs from the first only in leaving the addresses out. */
  lemma RetryDropsOnlyAssigned(p: NewProject, first: Insert, retry: Insert)
    requires |CreateProject(p, first, retry).0| == 2
    ensures var rows := CreateProject(p, first, retry).0;
      rows[1].assignedEmails.None? && rows[0].assignedEmails.Some? &&
      rows[1].(assignedEmails := rows[0].assignedEmails) == rows[0]
  {
  }

  // ---------------------------------------------------------------------------
  // updateProject, deleteProject, archiveProject

  /** A `Partial<Pick<Project, …>>`: `None` is a key the payload does not have. */
  datatype ProjectPatch = ProjectPatch(
    name: Option<string>,
    description: Option<string>,
    status: Option<string>,
    assignedEmails: Option<Option<seq<string>>>,
    dueDate: Option<Option<string>>,
    priority: Option<Option<string>>)

  /** Whether a patched address list counts as empty (`null` or `[]`). */
  predicate EmptyList(l: Option<seq<string>>) {
    l.None? || |l.value| == 0
  }

  /** The update written to the store: an empty or `null` address list is
      written as `[]`, a non-empty one normalised. The timestamp is not
      modelled. */
  function StoreUpdate(p: ProjectPatch): (r: ProjectPatch)
    ensures r.name == p.name && r.description == p.description && r.status == p.status
    ensures r.dueDate == p.dueDate && r.priority == p.priority
    ensures r.assignedEmails.None? <==> p.assignedEmails.None?
    ensures p.assignedEmails.Some? ==> r.assignedEmails.value.Some?
    ensures p.assignedEmails.Some? && EmptyList(p.assignedEmails.value) ==> r.assignedEmails == Some(Some([]))
    ensures p.assignedEmails.Some? && !EmptyList(p.assignedEmails.value) ==>
      r.assignedEmails == Some(Some(NormEmails(p.assignedEmails.value.value)))
  {
    p.(assignedEmails :=
      if p.assignedEmails.None? then None
      else if EmptyList(p.assignedEmails.value) then Some(Some([]))
      else Some(Some(NormEmails(p.assignedEmails.value.value))))
  }

  /** The patch merged locally after a successful update: an empty or `null`
      address list becomes `null`. */
  function LocalPatch(p: ProjectPatch): (r: ProjectPatch)
    ensures r.name == p.name && r.description == p.description && r.status == p.status
    ensures r.dueDate == p.dueDate && r.priority == p.priority
    ensures r.assignedEmails.None? <==> p.assignedEmails.None?
    ensures p.assignedEmails.Some? && EmptyList(p.assignedEmails.value) ==> r.assignedEmails == Some(None)
    ensures p.assignedEmails.Some? && !EmptyList(p.assignedEmails.value) ==>
      r.assignedEmails == Some(Some(NormEmails(p.assignedEmails.value.value)))
  {
    p.(assignedEmails :=
      if p.assignedEmails.None? then None
      else if EmptyList(p.assignedEmails.value) then Some(None)
      else Some(Some(NormEmails(p.assignedEmails.value.value))))
  }

  /** The store and the local list disagree on a cleared address list: `[]`
      against `null`. They agree otherwise. */
  lemma ClearedListDiffers(p: ProjectPatch)
    requires p.assignedEmails.Some? && EmptyList(p.assignedEmails.value)
    ensures StoreUpdate(p).assignedEmails == Some(Some([]))
    ensures LocalPatch(p).assignedEmails == Some(None)
  {
  }

  lemma StoreAndLocalAgree(p: ProjectPatch)
    requires !(p.assignedEmails.Some? && EmptyList(p.assignedEmails.value))
    ensures StoreUpdate(p) == LocalPatch(p)
  {
  }

  /** `{ ...p, ...patch }` */
  function Merge(pr: Project, p: ProjectPatch): (r: Project)
    ensures r.id == pr.id && r.createdAt == pr.createdAt && r.updatedAt == pr.updatedAt
    ensures Spread(p.name, pr.name, r.name) && Spread(p.description, pr.description, r.description)
    ensures Spread(p.status, pr.status, r.status) && Spread(p.assignedEmails, pr.assignedEmails, r.assignedEmails)
    ensures Spread(p.dueDate, pr.dueDate, r.dueDate) && Spread(p.priority, pr.priority, r.priority)
    ensures (p.name.None? && p.description.None? && p.status.None? && p.assignedEmails.None?
      && p.dueDate.None? && p.priority.None?) ==> r == pr
  {
    Project(pr.id, GetOr(p.name, pr.name), GetOr(p.description, pr.description), GetOr(p.status, pr.status),
      pr.createdAt, pr.updatedAt, GetOr(p.assignedEmails, pr.assignedEmails),
      GetOr(p.dueDate, pr.dueDate), GetOr(p.priority, pr.priority))
  }

  /** The local step of a successful `updateProject`: only the project with
      the id changes. */
  function UpdateLocal(ps: seq<Project>, id: string, p: ProjectPatch): (r: seq<Project>)
    ensures |r| == |ps|
    ensures forall i :: 0 <= i < |r| && ps[i].id != id ==> r[i] == ps[i]
    ensures forall i :: 0 <= i < |r| && ps[i].id == id ==> r[i] == Merge(ps[i], LocalPatch(p))
  {
    seq(|ps|, i requires 0 <= i < |ps| => if ps[i].id == id then Merge(ps[i], LocalPatch(p)) else ps[i])
  }

  /** `archiveProject`: an update that sets the status to "Beklemede" and
      nothing else. */
  const ArchivePatch := ProjectPatch(None, None, Some(ArchivedStatus), None, None, None)

  lemma ArchiveSetsStatusOnly(ps: seq<Project>, id: string, i: int)
    requires 0 <= i < |ps| && ps[i].id == id
    ensures UpdateLocal(ps, id, ArchivePatch)[i] == ps[i].(status := ArchivedStatus)
  {
  }

  /** The calls `deleteProject` makes, in order. */
  datatype Call = DeleteTasksOf(projectId: string) | DeleteProjectRow(id: string)

  /** `deleteProject` given the errors of its two calls: the project's tasks
      are deleted first; the project is deleted only if that succeeded; the
      local list changes only if both did. */
  function DeleteProject(ps: seq<Project>, id: string, tasksError: Option<string>, projectError: Option<string>)
    : (r: (seq<Call>, seq<Project>, Option<string>))
    ensures |r.0| >= 1 && r.0[0] == DeleteTasksOf(id)
    ensures DeleteProjectRow(id) in r.0 <==> tasksError.None?
    ensures r.2.None? <==> tasksError.None? && projectError.None?
    ensures r.2.None? ==> r.1 == RemoveId(ps, id)
    ensures r.2.Some? ==> r.1 == ps
  {
    if tasksError.Some? then ([DeleteTasksOf(id)], ps, tasksError)
    else if projectError.Some? then ([DeleteTasksOf(id), DeleteProjectRow(id)], ps, projectError)
    else ([DeleteTasksOf(id), DeleteProjectRow(id)], RemoveId(ps, id), None)
  }
}
