/**
 * The pure helpers of components/TasksTable.tsx: the CSV export's field
 * quoting, the import dialog's `buildTasks`, the reconciliation of the
 * column order with the extra-data keys, column drag-and-drop and pinning,
 * per-column value filters, the auto-size clamp and the pager's window of
 * page buttons. React state setters become functions from the previous
 * state to the next one.
 */
module TasksTable {
  import opened Common
  import Text
  import CsvParser
  import TaskFeed

  // ---------------------------------------------------------------------------
  // CSV export (`downloadCSV`)

  /** The quoting of `escapeCsvValue`: every quote character doubled. */
  function Escape(v: string): (e: string)
    ensures |e| == |v| + Text.CountChar(v, CsvParser.QuoteMark)
    decreases |v|
  {
    if |v| == 0 then ""
    else (if v[0] == CsvParser.QuoteMark then [CsvParser.QuoteMark, CsvParser.QuoteMark] else [v[0]]) + Escape(v[1..])
  }

  /** One exported field: the escaped value between quotes. */
  function ExportField(v: string): (f: string)
    ensures |f| >= 2 && f[0] == CsvParser.QuoteMark && f[|f| - 1] == CsvParser.QuoteMark
  {
    [CsvParser.QuoteMark] + Escape(v) + [CsvParser.QuoteMark]
  }

  function ExportFields(values: seq<string>): (fs: seq<string>)
    ensures |fs| == |values|
    ensures forall i :: 0 <= i < |values| ==> fs[i] == ExportField(values[i])
  {
    seq(|values|, i requires 0 <= i < |values| => ExportField(values[i]))
  }

  /** One exported line: the fields joined by commas. */
  function ExportLine(values: seq<string>): string {
    Text.Join(ExportFields(values), ',')
  }

  function ExportLines(rows: seq<seq<string>>): (ls: seq<string>)
    ensures |ls| == |rows|
    ensures forall i :: 0 <= i < |rows| ==> ls[i] == ExportLine(rows[i])
  {
    seq(|rows|, i requires 0 <= i < |rows| => ExportLine(rows[i]))
  }

  /** The downloaded file: a byte-order mark, the header line, then one line
      per row, separated by newlines. */
  function ExportCsv(headers: seq<string>, rows: seq<seq<string>>): (s: string)
    ensures |s| > 0 && s[0] == CsvParser.Bom
  {
    [CsvParser.Bom] + Text.Join(ExportLines([headers] + rows), CsvParser.LineFeed)
  }

  // An RFC 4180 reader for files whose every field is quoted (section 2,
  // rules 5 to 7 of RFC 4180): the inverse of the export. A line with no
  // fields is read as an empty record.

  function Prepend<T>(x: T, r: Option<(seq<T>, string)>): (r': Option<(seq<T>, string)>)
    ensures r'.Some? <==> r.Some?
    ensures r.Some? ==> r'.value == ([x] + r.value.0, r.value.1)
  {
    match r
    case None => None
    case Some((xs, rest)) => Some(([x] + xs, rest))
  }

  /** The text of a quoted field after its opening quote: up to the first
      quote that is not doubled, a doubled quote standing for one. */
  function FieldBody(s: string): (r: Option<(string, string)>)
    ensures r.Some? ==> |r.value.1| < |s|
    decreases |s|
  {
    if |s| == 0 then None
    else if s[0] == CsvParser.QuoteMark then
      if |s| > 1 && s[1] == CsvParser.QuoteMark then Prepend(CsvParser.QuoteMark, FieldBody(s[2..]))
      else Some(("", s[1..]))
    else Prepend(s[0], FieldBody(s[1..]))
  }

  /** Quoted fields separated by commas, and the text after the last one. */
  function Fields(s: string): (r: Option<(seq<string>, string)>)
    ensures r.Some? ==> |r.value.0| > 0 && |r.value.1| < |s|
    decreases |s|
  {
    if |s| == 0 || s[0] != CsvParser.QuoteMark then None
    else match FieldBody(s[1..])
      case None => None
      case Some((v, rest)) =>
        if |rest| > 0 && rest[0] == ',' then Prepend(v, Fields(rest[1..]))
        else Some(([v], rest))
  }

  /** One record: no fields when the line is empty. */
  function Record(s: string): (r: Option<(seq<string>, string)>)
    ensures r.Some? ==> |r.value.1| <= |s|
  {
    if |s| == 0 || s[0] == CsvParser.LineFeed then Some(([], s)) else Fields(s)
  }

  /** Records separated by newlines. */
  function Records(s: string): (r: Option<seq<seq<string>>>)
    ensures r.Some? ==> |r.value| > 0
    decreases |s|
  {
    match Record(s)
    case None => None
    case Some((fields, rest)) =>
      if |rest| == 0 then Some([fields])
      else if rest[0] != CsvParser.LineFeed then None
      else match Records(rest[1..])
        case None => None
        case Some(more) => Some([fields] + more)
  }

  /** Reads an exported file, skipping the byte-order mark. */
  function ReadCsv(s: string): Option<seq<seq<string>>> {
    if |s| > 0 && s[0] == CsvParser.Bom then Records(s[1..]) else Records(s)
  }

  /** After an escaped value and its closing quote, the reader stops with the
      value restored, provided what follows is not another quote. */
  lemma {:induction false} FieldBodyEscape(v: string, t: string)
    requires |t| == 0 || t[0] != CsvParser.QuoteMark
    ensures FieldBody(Escape(v) + [CsvParser.QuoteMark] + t) == Some((v, t))
    decreases |v|
  {
    if |v| == 0 {
      var s := Escape(v) + [CsvParser.QuoteMark] + t;
      assert s == [CsvParser.QuoteMark] + t;
      assert s[1..] == t;
    } else {
      FieldBodyEscape(v[1..], t);
      FieldBodyCons(v, t);
      assert [v[0]] + v[1..] == v;
    }
  }

  /** One step of the reader: the first character of `v`, doubled if it is
      a quote, is read back before the rest. */
  lemma FieldBodyCons(v: string, t: string)
    requires |v| > 0
    ensures FieldBody(Escape(v) + [CsvParser.QuoteMark] + t) == Prepend(v[0], FieldBody(Escape(v[1..]) + [CsvParser.QuoteMark] + t))
  {
    var s, s' := Escape(v) + [CsvParser.QuoteMark] + t, Escape(v[1..]) + [CsvParser.QuoteMark] + t;
    if v[0] == CsvParser.QuoteMark {
      assert s == [CsvParser.QuoteMark, CsvParser.QuoteMark] + s';
      assert s[2..] == s';
    } else {
      assert s == [v[0]] + s';
      assert s[1..] == s';
    }
  }

  lemma FieldsUnfold(s: string, v: string, rest: string)
    requires |s| > 0 && s[0] == CsvParser.QuoteMark && FieldBody(s[1..]) == Some((v, rest))
    ensures Fields(s) == if |rest| > 0 && rest[0] == ',' then Prepend(v, Fields(rest[1..])) else Some(([v], rest))
  {
  }

  lemma Requote(e: string, t: string)
    ensures ([CsvParser.QuoteMark] + e + [CsvParser.QuoteMark]) + t == [CsvParser.QuoteMark] + (e + [CsvParser.QuoteMark] + t)
    ensures ([CsvParser.QuoteMark] + (e + [CsvParser.QuoteMark] + t))[1..] == e + [CsvParser.QuoteMark] + t
  {
  }

  /** One exported field followed by `t`. */
  lemma FieldsStep(v: string, t: string)
    requires |t| == 0 || t[0] != CsvParser.QuoteMark
    ensures |t| > 0 && t[0] == ',' ==> Fields(ExportField(v) + t) == Prepend(v, Fields(t[1..]))
    ensures (|t| == 0 || t[0] != ',') ==> Fields(ExportField(v) + t) == Some(([v], t))
  {
    Requote(Escape(v), t);
    FieldBodyEscape(v, t);
    FieldsUnfold([CsvParser.QuoteMark] + (Escape(v) + [CsvParser.QuoteMark] + t), v, t);
  }

  lemma LineCons(values: seq<string>)
    requires |values| > 1
    ensures ExportLine(values) == ExportField(values[0]) + [','] + ExportLine(values[1..])
  {
    assert ExportFields(values[1..]) == ExportFields(values)[1..];
  }

  lemma Regroup(a: string, b: string, t: string, c: char)
    ensures (a + [c] + b) + t == a + ([c] + b + t)
    ensures ([c] + b + t)[1..] == b + t
  {
  }

  lemma {:induction false} FieldsExport(values: seq<string>, t: string)
    requires |values| > 0
    requires |t| == 0 || (t[0] != CsvParser.QuoteMark && t[0] != ',')
    ensures Fields(ExportLine(values) + t) == Some((values, t))
    decreases |values|
  {
    if |values| == 1 {
      FieldsExportOne(values, t);
    } else {
      FieldsExportCons(values, t);
      FieldsExport(values[1..], t);
      assert [values[0]] + values[1..] == values;
    }
  }

  lemma FieldsExportOne(values: seq<string>, t: string)
    requires |values| == 1
    requires |t| == 0 || (t[0] != CsvParser.QuoteMark && t[0] != ',')
    ensures Fields(ExportLine(values) + t) == Some((values, t))
  {
    assert ExportFields(values) == [ExportField(values[0])];
    FieldsStep(values[0], t);
    assert [values[0]] == values;
  }

  /** The first exported field is read, then the rest of the line. */
  lemma FieldsExportCons(values: seq<string>, t: string)
    requires |values| > 1
    ensures Fields(ExportLine(values) + t) == Prepend(values[0], Fields(ExportLine(values[1..]) + t))
  {
    var rest := ExportLine(values[1..]);
    LineCons(values);
    Regroup(ExportField(values[0]), rest, t, ',');
    FieldsStep(values[0], [','] + rest + t);
  }

  lemma RecordExport(values: seq<string>, t: string)
    requires |t| == 0 || t[0] == CsvParser.LineFeed
    ensures Record(ExportLine(values) + t) == Some((values, t))
  {
    if |values| == 0 {
      assert ExportLine(values) + t == t;
    } else {
      FieldsExport(values, t);
    }
  }

  lemma {:induction false} RecordsExport(rows: seq<seq<string>>)
    requires |rows| > 0
    ensures Records(Text.Join(ExportLines(rows), CsvParser.LineFeed)) == Some(rows)
    decreases |rows|
  {
    var ls := ExportLines(rows);
    if |rows| == 1 {
      RecordExport(rows[0], "");
      assert Text.Join(ls, CsvParser.LineFeed) == ExportLine(rows[0]) + "";
      assert [rows[0]] == rows;
    } else {
      var more := Text.Join(ExportLines(rows[1..]), CsvParser.LineFeed);
      assert ExportLines(rows[1..]) == ls[1..];
      assert Text.Join(ls, CsvParser.LineFeed) == ExportLine(rows[0]) + ([CsvParser.LineFeed] + more);
      RecordExport(rows[0], [CsvParser.LineFeed] + more);
      RecordsExport(rows[1..]);
      RecordsCons(ExportLine(rows[0]) + ([CsvParser.LineFeed] + more), rows[0], more);
      assert [rows[0]] + rows[1..] == rows;
    }
  }

  /** A record followed by a newline and more records reads as that record
      and then the others. */
  lemma RecordsCons(s: string, fields: seq<string>, more: string)
    requires Record(s) == Some((fields, [CsvParser.LineFeed] + more))
    requires Records(more).Some?
    ensures Records(s) == Some([fields] + Records(more).value)
  {
    assert ([CsvParser.LineFeed] + more)[1..] == more;
  }

  /** Reading an exported file gives back the header and every row, whatever
      quotes, commas or newlines the values hold. */
  lemma ExportRoundTrip(headers: seq<string>, rows: seq<seq<string>>)
    ensures ReadCsv(ExportCsv(headers, rows)) == Some([headers] + rows)
  {
    var s := ExportCsv(headers, rows);
    assert s[1..] == Text.Join(ExportLines([headers] + rows), CsvParser.LineFeed);
    RecordsExport([headers] + rows);
  }

  // ---------------------------------------------------------------------------
  // CSV import (`buildTasks` of the import dialog)

  /** The dialog's column mapping: a column index per task field, or none. */
  datatype ColumnMap = ColumnMap(status: Option<nat>, assignee: Option<nat>, priority: Option<nat>)

  /** `get(i)`: the trimmed cell, or "" past the end of the row. */
  function Cell(row: seq<string>, i: nat): (c: string)
    ensures Text.IsTrimmed(c)
    ensures i >= |row| ==> c == ""
  {
    if i < |row| then Text.Trim(row[i]) else ""
  }

  /** The extra-data key of header `i`: the trimmed header, or "Sütun i+1"
      when it is blank. */
  function HeaderKey(h: string, i: nat): (k: string)
    ensures k != ""
  {
    if Text.Trim(h) != "" then Text.Trim(h) else "Sütun " + Text.NatToString(i + 1)
  }

  function HeaderKeys(headers: seq<string>): (ks: seq<string>)
    ensures |ks| == |headers|
    ensures forall i :: 0 <= i < |headers| ==> ks[i] == HeaderKey(headers[i], i)
  {
    seq(|headers|, i requires 0 <= i < |headers| => HeaderKey(headers[i], i))
  }

  /** The row's cells under the first `n` headers. */
  function CellsOf(row: seq<string>, n: nat): (cs: seq<string>)
    ensures |cs| == n
    ensures forall i :: 0 <= i < n ==> cs[i] == Cell(row, i)
  {
    seq(n, i requires 0 <= i < n => Cell(row, i))
  }

  /** The object built by assigning `keys[i] = values[i]` in turn: a later
      assignment to the same key overwrites the earlier value. */
  function Assign(keys: seq<string>, values: seq<string>): (e: seq<(string, string)>)
    requires |keys| == |values|
    ensures DistinctKeys(e)
    decreases |keys|
  {
    if |keys| == 0 then []
    else
      var n := |keys| - 1;
      var prev := Assign(keys[..n], values[..n]);
      UpsertKeepsDistinct(prev, keys[n], values[n]);
      Upsert(prev, keys[n], values[n])
  }

  /** A row's `extra_data`. */
  function ExtraOf(headers: seq<string>, row: seq<string>): (e: seq<(string, string)>)
    ensures DistinctKeys(e)
  {
    Assign(HeaderKeys(headers), CellsOf(row, |headers|))
  }

  /** `Object.values(extra_data).some((v) => v !== "")` */
  predicate HasData(e: seq<(string, string)>) {
    exists i :: 0 <= i < |e| && e[i].1 != ""
  }

  /** `get(i) || fallback` when the field is mapped. */
  function Mapped(row: seq<string>, col: Option<nat>): (r: Option<string>)
    ensures r.Some? <==> col.Some? && Cell(row, col.value) != ""
    ensures r.Some? ==> r.value == Cell(row, col.value)
  {
    if col.Some? && Cell(row, col.value) != "" then Some(Cell(row, col.value)) else None
  }

  /** One row's task, or none for a row whose every value is blank. */
  function BuildRow(headers: seq<string>, cols: ColumnMap, row: seq<string>): (t: Option<TaskFeed.TaskInsert>)
  {
    var extra := ExtraOf(headers, row);
    if !HasData(extra) then None
    else Some(TaskFeed.TaskInsert(
      "",
      GetOr(Mapped(row, cols.status), TaskFeed.DefaultStatus),
      Mapped(row, cols.assignee),
      Mapped(row, cols.priority),
      None,
      None,
      if |extra| > 0 then Some(extra) else None))
  }

  /** `buildTasks`: the rows' tasks, in file order, without the blank rows. */
  function BuildTasks(headers: seq<string>, cols: ColumnMap, rows: seq<seq<string>>): (ts: seq<TaskFeed.TaskInsert>)
    ensures |ts| <= |rows|
    decreases |rows|
  {
    if |rows| == 0 then []
    else match BuildRow(headers, cols, rows[0])
      case None => BuildTasks(headers, cols, rows[1..])
      case Some(t) => [t] + BuildTasks(headers, cols, rows[1..])
  }

  /** The last assignment decides the key it assigns and leaves every
      other key as it was. */
  lemma AssignLast(keys: seq<string>, values: seq<string>, k: string)
    requires |keys| == |values| > 0
    ensures Lookup(Assign(keys, values), k)
      == if k == keys[|keys| - 1] then Some(values[|keys| - 1])
         else Lookup(Assign(keys[..|keys| - 1], values[..|keys| - 1]), k)
  {
  }

  /** The value of the last assignment to `k`, scanning backwards. */
  function LastAssigned(keys: seq<string>, values: seq<string>, k: string): (r: Option<string>)
    requires |keys| == |values|
    decreases |keys|
  {
    if |keys| == 0 then None
    else if keys[|keys| - 1] == k then Some(values[|keys| - 1])
    else LastAssigned(keys[..|keys| - 1], values[..|keys| - 1], k)
  }

  /** Reading a key of the built object gives its last assignment. */
  lemma {:induction false} AssignIsLast(keys: seq<string>, values: seq<string>, k: string)
    requires |keys| == |values|
    ensures Lookup(Assign(keys, values), k) == LastAssigned(keys, values, k)
    decreases |keys|
  {
    if |keys| > 0 {
      AssignLast(keys, values, k);
      AssignIsLast(keys[..|keys| - 1], values[..|keys| - 1], k);
    }
  }

  lemma {:induction false} LastAssignedKeys(keys: seq<string>, values: seq<string>, k: string)
    requires |keys| == |values|
    ensures LastAssigned(keys, values, k).Some? <==> k in keys
    decreases |keys|
  {
    if |keys| > 0 {
      var n := |keys| - 1;
      LastAssignedKeys(keys[..n], values[..n], k);
      assert keys == keys[..n] + [keys[n]];
    }
  }

  lemma {:induction false} LastAssignedValue(keys: seq<string>, values: seq<string>, i: nat)
    requires |keys| == |values| && i < |keys|
    requires forall j :: i < j < |keys| ==> keys[j] != keys[i]
    ensures LastAssigned(keys, values, keys[i]) == Some(values[i])
    decreases |keys|
  {
    var n := |keys| - 1;
    if i < n {
      LastAssignedValue(keys[..n], values[..n], i);
    }
  }

  /** The keys of a row's extra data are exactly the header keys. */
  lemma ExtraKeys(headers: seq<string>, row: seq<string>, k: string)
    ensures Lookup(ExtraOf(headers, row), k).Some?
        <==> exists i :: 0 <= i < |headers| && HeaderKey(headers[i], i) == k
  {
    var ks := HeaderKeys(headers);
    AssignIsLast(ks, CellsOf(row, |headers|), k);
    LastAssignedKeys(ks, CellsOf(row, |headers|), k);
    if k in ks {
      var i :| 0 <= i < |ks| && ks[i] == k;
      assert HeaderKey(headers[i], i) == k;
    }
  }

  /** A key holds the cell of the last header that produces it. */
  lemma ExtraValue(headers: seq<string>, row: seq<string>, i: nat)
    requires i < |headers|
    requires forall j :: i < j < |headers| ==> HeaderKey(headers[j], j) != HeaderKey(headers[i], i)
    ensures Lookup(ExtraOf(headers, row), HeaderKey(headers[i], i)) == Some(Cell(row, i))
  {
    var ks := HeaderKeys(headers);
    AssignIsLast(ks, CellsOf(row, |headers|), ks[i]);
    LastAssignedValue(ks, CellsOf(row, |headers|), i);
  }

  /** Each kept row's task: empty content, the mapped status or the default,
      the mapped assignee and priority or null, and its extra data. */
  lemma BuildRowFields(headers: seq<string>, cols: ColumnMap, row: seq<string>)
    ensures BuildRow(headers, cols, row).None? <==> !HasData(ExtraOf(headers, row))
    ensures BuildRow(headers, cols, row).Some? ==>
      var t := BuildRow(headers, cols, row).value;
      && t.content == ""
      && (t.status == TaskFeed.DefaultStatus <==> cols.status.None? || Cell(row, cols.status.value) in {"", TaskFeed.DefaultStatus})
      && (cols.status.Some? && Cell(row, cols.status.value) != "" ==> t.status == Cell(row, cols.status.value))
      && t.assignee == Mapped(row, cols.assignee)
      && t.priority == Mapped(row, cols.priority)
      && t.projectId.None? && t.dueDate.None?
      && t.extraData == Some(ExtraOf(headers, row))
  {
  }

  /** A row is dropped exactly when every value is blank: the task list has
      one task per row with data, in row order. */
  lemma {:induction false} BuildTasksKeepsDataRows(headers: seq<string>, cols: ColumnMap, rows: seq<seq<string>>)
    ensures |BuildTasks(headers, cols, rows)| == Count(rows, (r: seq<string>) => HasData(ExtraOf(headers, r)))
    decreases |rows|
  {
    if |rows| > 0 {
      BuildTasksKeepsDataRows(headers, cols, rows[1..]);
    }
  }

  /** Every imported task has empty content, a non-empty status and its
      extra data. */
  lemma {:induction false} BuildTasksShape(headers: seq<string>, cols: ColumnMap, rows: seq<seq<string>>)
    ensures forall t :: t in BuildTasks(headers, cols, rows) ==>
      t.content == "" && t.status != "" && t.extraData.Some?
    decreases |rows|
  {
    if |rows| > 0 {
      BuildTasksShape(headers, cols, rows[1..]);
    }
  }

  // ---------------------------------------------------------------------------
  // Column order and the extra-data columns

  /** The order with no extra-data columns. */
  const BaseOrder: seq<string> := ["select", "status", "content", "actions"]
  const Leading: seq<string> := ["select", "status", "content"]
  const ExtraPrefix := "extra:"

  /** The column id of an extra-data key. */
  function ExtraId(k: string): string {
    ExtraPrefix + k
  }

  function ExtraIds(keys: seq<string>): (ids: seq<string>)
    ensures |ids| == |keys|
    ensures forall i :: 0 <= i < |keys| ==> ids[i] == ExtraId(keys[i])
  {
    seq(|keys|, i requires 0 <= i < |keys| => ExtraId(keys[i]))
  }

  predicate IsExtraId(id: string) {
    Text.StartsWith(id, ExtraPrefix)
  }

  function ExtraOnly(): string -> bool {
    id => IsExtraId(id)
  }

  function NotIn(s: seq<string>): string -> bool {
    id => id !in s
  }

  /** The columns the order already holds for extra data, in their order. */
  function ExistingExtra(prev: seq<string>): seq<string> {
    Filter(prev, ExtraOnly())
  }

  /** The reconciliation of the column order with the current extra-data
      keys: without keys, the fixed base order; otherwise the leading
      columns, the extra columns already in the order (in their order), the
      ids of new keys, and the actions column last. */
  function ReconcileOrder(prev: seq<string>, keys: seq<string>): (r: seq<string>)
    ensures |keys| == 0 ==> r == BaseOrder
    ensures |keys| > 0 ==> |r| >= 4 + |ExistingExtra(prev)|
    ensures |keys| > 0 ==> r[..3] == Leading && r[|r| - 1] == "actions"
    ensures |keys| > 0 ==> r[3..3 + |ExistingExtra(prev)|] == ExistingExtra(prev)
    ensures forall i :: 0 <= i < |keys| ==> ExtraId(keys[i]) in r
  {
    if |keys| == 0 then BaseOrder
    else
      var existing := ExistingExtra(prev);
      Leading + existing + AddedIds(existing, keys) + ["actions"]
  }

  lemma ExtraIdIsExtra(k: string)
    ensures IsExtraId(ExtraId(k))
  {
    assert ExtraId(k)[..|ExtraPrefix|] == ExtraPrefix;
  }

  lemma NotExtra(id: string)
    requires |id| > 0 && id[0] != 'e'
    ensures !IsExtraId(id)
  {
    if |id| >= |ExtraPrefix| {
      assert id[..|ExtraPrefix|][0] != ExtraPrefix[0];
    }
  }

  lemma LeadingNotExtra()
    ensures Filter(Leading, ExtraOnly()) == []
    ensures Filter(["actions"], ExtraOnly()) == []
  {
    NotExtra("select");
    NotExtra("status");
    NotExtra("content");
    NotExtra("actions");
  }

  /** The ids of new keys: exactly the keys' ids not already in the order, in
      the keys' order. */
  function AddedIds(existing: seq<string>, keys: seq<string>): (ids: seq<string>)
    ensures forall i :: 0 <= i < |ids| ==> IsExtraId(ids[i])
    ensures forall i :: 0 <= i < |keys| ==> ExtraId(keys[i]) in existing + ids
    ensures forall id :: id in ids <==> id in ExtraIds(keys) && id !in existing
    ensures IsSubsequence(ids, ExtraIds(keys))
  {
    var ids := Filter(ExtraIds(keys), NotIn(existing));
    FilterIsSubsequence(ExtraIds(keys), NotIn(existing));
    forall id ensures id in ids <==> id in ExtraIds(keys) && id !in existing {
      FilterMembers(ExtraIds(keys), NotIn(existing), id);
    }
    forall i | 0 <= i < |ids| ensures IsExtraId(ids[i]) {
      FilterMembers(ExtraIds(keys), NotIn(existing), ids[i]);
      var j :| 0 <= j < |keys| && ExtraIds(keys)[j] == ids[i];
      ExtraIdIsExtra(keys[j]);
    }
    forall i | 0 <= i < |keys| ensures ExtraId(keys[i]) in existing + ids {
      FilterMembers(ExtraIds(keys), NotIn(existing), ExtraIds(keys)[i]);
    }
    ids
  }

  /** The extra columns of a reconciled order: the old ones, then the new. */
  lemma ReconciledExtra(prev: seq<string>, keys: seq<string>)
    requires |keys| > 0
    ensures ExistingExtra(ReconcileOrder(prev, keys))
      == ExistingExtra(prev) + AddedIds(ExistingExtra(prev), keys)
  {
    var existing := ExistingExtra(prev);
    var added := AddedIds(existing, keys);
    assert ReconcileOrder(prev, keys) == Leading + existing + added + ["actions"];
    FilterIdempotent(prev, ExtraOnly());
    FilterAllPass(added, ExtraOnly());
    LeadingNotExtra();
    FilterMiddle(Leading, existing, added, ["actions"], ExtraOnly());
  }

  /** Filtering four consecutive parts, of which the outer two lose every
      element and the inner two keep every element, leaves the inner two. */
  lemma {:induction false} FilterMiddle<T>(a: seq<T>, b: seq<T>, c: seq<T>, d: seq<T>, p: T -> bool)
    requires Filter(a, p) == [] && Filter(b, p) == b && Filter(c, p) == c && Filter(d, p) == []
    ensures Filter(a + b + c + d, p) == b + c
  {
    FilterAppend(a, b, p);
    FilterAppend(a + b, c, p);
    FilterAppend(a + b + c, d, p);
    assert [] + b == b && b + c + [] == b + c;
  }

  /** Once the new ids are added, no key is new any more. */
  lemma NoneAdded(existing: seq<string>, keys: seq<string>)
    ensures AddedIds(existing + AddedIds(existing, keys), keys) == []
  {
    var all := existing + AddedIds(existing, keys);
    forall i | 0 <= i < |keys| ensures !NotIn(all)(ExtraIds(keys)[i]) {
      assert ExtraIds(keys)[i] == ExtraId(keys[i]);
    }
    FilterNonePass(ExtraIds(keys), NotIn(all));
  }

  /** Reconciling an already reconciled order with the same keys changes
      nothing: a reconciled order is a fixed point. */
  lemma ReconcileStable(prev: seq<string>, keys: seq<string>)
    ensures ReconcileOrder(ReconcileOrder(prev, keys), keys) == ReconcileOrder(prev, keys)
  {
    if |keys| > 0 {
      var existing := ExistingExtra(prev);
      var added := AddedIds(existing, keys);
      var r := ReconcileOrder(prev, keys);
      assert r == Leading + existing + added + ["actions"];
      ReconciledExtra(prev, keys);
      NoneAdded(existing, keys);
      assert ReconcileOrder(r, keys) == Leading + (existing + added) + [] + ["actions"];
    }
  }

  // ---------------------------------------------------------------------------
  // Per-column value filters

  /** The values checked in each column's filter menu. */
  type ColumnFilters = map<string, seq<string>>

  /** `prev[columnId] || []` */
  function Checked(f: ColumnFilters, col: string): seq<string> {
    if col in f then f[col] else []
  }

  /** `toggleColumnFilterValue`: unchecks every copy of a checked value,
      checks an unchecked one by appending it. */
  function ToggleFilterValue(f: ColumnFilters, col: string, v: string): (r: ColumnFilters)
    ensures col in r
    ensures v in r[col] <==> v !in Checked(f, col)
    ensures forall x :: x != v ==> (x in r[col] <==> x in Checked(f, col))
    ensures forall c :: c != col ==> (c in r <==> c in f) && (c in f ==> r[c] == f[c])
  {
    var current := Checked(f, col);
    if v in current then f[col := Without(current, v)]
    else f[col := current + [v]]
  }

  /** Toggling a value twice restores the column's set of checked values,
      and the exact list when the value was unchecked. */
  lemma ToggleTwice(f: ColumnFilters, col: string, v: string)
    ensures var g := ToggleFilterValue(ToggleFilterValue(f, col, v), col, v);
      && (forall x :: x in Checked(g, col) <==> x in Checked(f, col))
      && (v !in Checked(f, col) ==> Checked(g, col) == Checked(f, col))
  {
    var current := Checked(f, col);
    if v !in current {
      WithoutAppend(current, v);
      WithoutAbsent(current, v);
    }
  }

  /** `clearColumnFilter`: removes that column's entry and nothing else. */
  function ClearFilter(f: ColumnFilters, col: string): (r: ColumnFilters)
    ensures col !in r
    ensures forall c :: c != col ==> (c in r <==> c in f) && (c in f ==> r[c] == f[c])
  {
    f - {col}
  }

  // ---------------------------------------------------------------------------
  // Auto-size (`handleAutoSizeColumns`)

  datatype Bounds = Bounds(min: int, max: int)

  const CharWidth := 8
  const Padding := 32

  /** The width bounds of a column: fixed ones for the base columns, a shared
      default for extra-data columns, none otherwise. */
  function BoundsOf(id: string): (b: Option<Bounds>)
    ensures b.Some? ==> b.value.min <= b.value.max
    ensures IsExtraId(id) ==> b.Some?
  {
    if id == "select" then Some(Bounds(36, 80))
    else if id == "status" then Some(Bounds(100, 220))
    else if id == "content" then Some(Bounds(180, 480))
    else if id == "actions" then Some(Bounds(44, 80))
    else if IsExtraId(id) then Some(Bounds(100, 400))
    else None
  }

  /** The longest of a header label and the column's cells, in characters. */
  function LongestText(header: nat, cells: seq<nat>): (m: nat)
    ensures m >= header && forall i :: 0 <= i < |cells| ==> m >= cells[i]
    ensures m == header || exists i :: 0 <= i < |cells| && m == cells[i]
    decreases |cells|
  {
    if |cells| == 0 then header
    else
      var m := LongestText(header, cells[..|cells| - 1]);
      var c := cells[|cells| - 1];
      if c > m then c else m
  }

  /** The clamped width for text of `len` characters. */
  function Width(b: Bounds, len: nat): (w: int)
    requires b.min <= b.max
    ensures b.min <= w <= b.max
    ensures b.min <= len * CharWidth + Padding <= b.max ==> w == len * CharWidth + Padding
  {
    var natural := len * CharWidth + Padding;
    var lower := if b.min > natural then b.min else natural;
    if b.max < lower then b.max else lower
  }

  /** A longer text never gets a narrower column. */
  lemma WidthMonotone(b: Bounds, m: nat, n: nat)
    requires b.min <= b.max && m <= n
    ensures Width(b, m) <= Width(b, n)
  {
  }

  /** The new widths of the given columns. The label length and the cell
      lengths of each column come from the displayed rows. */
  function AutoSizes(ids: seq<string>, labelLength: string -> nat, cellLengths: string -> seq<nat>): (w: map<string, int>)
    ensures forall id :: id in w <==> id in ids && BoundsOf(id).Some?
    ensures forall id :: id in w ==> BoundsOf(id).value.min <= w[id] <= BoundsOf(id).value.max
    ensures forall id :: id in w ==> w[id] == Width(BoundsOf(id).value, LongestText(labelLength(id), cellLengths(id)))
    decreases |ids|
  {
    if |ids| == 0 then map[]
    else
      var n := |ids| - 1;
      var prev := AutoSizes(ids[..n], labelLength, cellLengths);
      var id := ids[n];
      assert ids == ids[..n] + [id];
      match BoundsOf(id)
      case None => prev
      case Some(b) => prev[id := Width(b, LongestText(labelLength(id), cellLengths(id)))]
  }

  /** `setColumnSizing((prev) => ({ ...prev, ...next }))` over the base and
      extra-data columns: every one of them gets a width within its bounds,
      every other column keeps its width. The width is that of the longest of
      the column's label and cells, clamped to the bounds. */
  function AutoSize(prev: map<string, int>, keys: seq<string>, labelLength: string -> nat, cellLengths: string -> seq<nat>): (r: map<string, int>)
    ensures forall id :: id in BaseOrder + ExtraIds(keys) ==>
      id in r && BoundsOf(id).Some? && BoundsOf(id).value.min <= r[id] <= BoundsOf(id).value.max
    ensures forall id :: id in BaseOrder + ExtraIds(keys) ==>
      r[id] == Width(BoundsOf(id).value, LongestText(labelLength(id), cellLengths(id)))
    ensures forall id :: id in prev && id !in BaseOrder + ExtraIds(keys) ==> id in r && r[id] == prev[id]
  {
    var ids := BaseOrder + ExtraIds(keys);
    forall id | id in ids ensures BoundsOf(id).Some? {
      if id !in BaseOrder {
        var i :| 0 <= i < |keys| && ExtraIds(keys)[i] == id;
        ExtraIdIsExtra(keys[i]);
      }
    }
    prev + AutoSizes(ids, labelLength, cellLengths)
  }

  /** Cells that grew, row by row, never shrink a column: the width of an
      auto-sized column follows the longest text monotonically. */
  lemma AutoSizeMonotone(prev: map<string, int>, keys: seq<string>, labelLength: string -> nat,
                         before: string -> seq<nat>, after: string -> seq<nat>, id: string)
    requires id in BaseOrder + ExtraIds(keys)
    requires |before(id)| == |after(id)|
    requires forall i :: 0 <= i < |before(id)| ==> before(id)[i] <= after(id)[i]
    ensures AutoSize(prev, keys, labelLength, before)[id] <= AutoSize(prev, keys, labelLength, after)[id]
  {
    var m := LongestText(labelLength(id), before(id));
    var n := LongestText(labelLength(id), after(id));
    assert m <= n;
    WidthMonotone(BoundsOf(id).value, m, n);
  }

  // ---------------------------------------------------------------------------
  // The pager's page buttons

  const MaxButtons := 5

  /** The page a button shows: the first pages, the last pages, or a window
      centred on the current page. */
  function ButtonPage(total: nat, current: nat, i: nat): int {
    if total <= MaxButtons then i
    else if current <= 2 then i
    else if current >= total - 3 then total - MaxButtons + i
    else current - 2 + i
  }

  /** The page indices of the buttons; a page count of zero counts as one. */
  function PageButtons(pageCount: nat, current: nat): (pages: seq<int>)
    ensures var total := if pageCount == 0 then 1 else pageCount;
      && |pages| == (if total < MaxButtons then total else MaxButtons)
      && (forall i :: 0 <= i < |pages| ==> 0 <= pages[i] < total)
      && (forall i :: 0 < i < |pages| ==> pages[i] == pages[i - 1] + 1)
      && (current < total ==> current in pages)
  {
    var total := if pageCount == 0 then 1 else pageCount;
    var n := if total < MaxButtons then total else MaxButtons;
    var pages := seq(n, i requires 0 <= i < n => ButtonPage(total, current, i));
    assert current < total ==> pages[current - pages[0]] == current;
    pages
  }

  /** Away from both ends the current page is the middle button. */
  lemma CurrentIsCentred(pageCount: nat, current: nat)
    requires pageCount > MaxButtons && 2 < current < pageCount - 3
    ensures PageButtons(pageCount, current)[2] == current
  {
    assert PageButtons(pageCount, current)[2] == ButtonPage(pageCount, current, 2);
  }
}
