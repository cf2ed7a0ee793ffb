/**
 * `parseJSON` (lib/jsonParser.ts): an array of objects becomes a header list
 * (the keys of the first object) and one string record per element.
 * `JSON.parse` itself is a parameter: `None` stands for the `SyntaxError` it
 * throws on malformed text, which `parseJSON` lets through to its caller.
 */
module JsonParser {
  import opened Common
  import opened JsValue
  import Text

  /** One parsed row: a binding for every header, in header order. */
  type Record = seq<(string, string)>

  datatype Table = Table(headers: seq<string>, rows: seq<Record>)

  /** The cell for `k`: the trimmed `String` of the value, or "" for a missing
      key, `null`, or an element that is not an object (which has no
      properties). */
  function Cell(row: Value, k: string): (c: string)
    ensures Text.IsTrimmed(c)
    ensures IsNullish(Prop(row, k)) ==> c == ""
    ensures !IsNullish(Prop(row, k)) ==> c == Text.Trim(ToStr(Prop(row, k).value))
  {
    var obj := if row.Obj? then row else Obj([]);
    match Prop(obj, k)
    case None => ""
    case Some(v) => if v.Null? then "" else Text.Trim(ToStr(v))
  }

  function RowOf(headers: seq<string>, row: Value): (r: Record)
    ensures |r| == |headers|
    ensures forall i :: 0 <= i < |r| ==> r[i] == (headers[i], Cell(row, headers[i]))
  {
    seq(|headers|, i requires 0 <= i < |headers| => (headers[i], Cell(row, headers[i])))
  }

  /** `parseJSON` applied to the value `JSON.parse` returned. */
  function FromValue(raw: Value): (t: Table)
    ensures !(raw.Arr? && |raw.items| > 0 && raw.items[0].Obj?) ==> t == Table([], [])
    ensures raw.Arr? && |raw.items| > 0 && raw.items[0].Obj? ==>
      && t.headers == KeysOf(raw.items[0].fields)
      && |t.rows| == |raw.items|
    ensures NoDuplicates(t.headers)
    ensures forall r :: 0 <= r < |t.rows| ==> |t.rows[r]| == |t.headers|
    ensures forall r, i :: 0 <= r < |t.rows| && 0 <= i < |t.headers| ==>
      t.rows[r][i].0 == t.headers[i] && Text.IsTrimmed(t.rows[r][i].1)
    ensures raw.Arr? ==> forall r, i :: 0 <= r < |t.rows| && 0 <= i < |t.headers| ==>
      r < |raw.items| && t.rows[r][i].1 == Cell(raw.items[r], t.headers[i])
  {
    if raw.Arr? && |raw.items| > 0 && raw.items[0].Obj? then
      var headers := KeysOf(raw.items[0].fields);
      Table(headers, seq(|raw.items|, r requires 0 <= r < |raw.items| => RowOf(headers, raw.items[r])))
    else Table([], [])
  }

  /** `parseJSON(text)`: `None` when `JSON.parse` throws. */
  function Parse(text: string, jsonParse: string -> Option<Value>): (t: Option<Table>)
    ensures t.None? <==> jsonParse(text).None?
    ensures t.Some? ==> t.value == FromValue(jsonParse(text).value)
  {
    match jsonParse(text)
    case None => None
    case Some(raw) => Some(FromValue(raw))
  }

  // ---------------------------------------------------------------------------
  // Round trip: a table written out as an array of objects parses back.

  function Zip(headers: seq<string>, cells: seq<string>): (r: Record)
    requires |headers| == |cells|
    ensures |r| == |headers|
  {
    seq(|headers|, i requires 0 <= i < |headers| => (headers[i], cells[i]))
  }

  function ObjOf(headers: seq<string>, cells: seq<string>): (v: Value)
    requires |headers| == |cells|
    ensures v.Obj? && |v.fields| == |headers|
  {
    Obj(seq(|headers|, i requires 0 <= i < |headers| => (headers[i], Str(cells[i]))))
  }

  /** The JSON text's value for a table: one object per row, strings as values. */
  function Encode(headers: seq<string>, rows: seq<seq<string>>): (v: Value)
    requires forall r :: 0 <= r < |rows| ==> |rows[r]| == |headers|
    ensures v.Arr? && |v.items| == |rows|
  {
    Arr(seq(|rows|, r requires 0 <= r < |rows| => ObjOf(headers, rows[r])))
  }

  lemma KeysOfDistinct<V>(m: seq<(string, V)>)
    requires NoDuplicates(seq(|m|, i requires 0 <= i < |m| => m[i].0))
    ensures KeysOf(m) == seq(|m|, i requires 0 <= i < |m| => m[i].0)
  {
    DedupDistinct(seq(|m|, i requires 0 <= i < |m| => m[i].0), []);
  }

  lemma {:induction false} DedupDistinct(s: seq<string>, seen: seq<string>)
    requires NoDuplicates(seen + s)
    ensures NoDuplicates(seen)
    ensures DedupFrom(s, seen) == seen + s
    decreases |s|
  {
    forall a | 0 <= a < |seen|
      ensures (seen + s)[a] == seen[a]
    {
    }
    if |s| > 0 {
      assert (seen + s)[|seen|] == s[0];
      assert s[0] !in seen;
      assert seen + [s[0]] + s[1..] == seen + s;
      DedupDistinct(s[1..], seen + [s[0]]);
    }
  }

  /** One object with distinct keys and trimmed string values parses back to
      its own bindings. */
  lemma RowRoundTrip(headers: seq<string>, cells: seq<string>)
    requires NoDuplicates(headers) && |headers| == |cells|
    requires forall i :: 0 <= i < |cells| ==> Text.IsTrimmed(cells[i])
    ensures RowOf(headers, ObjOf(headers, cells)) == Zip(headers, cells)
  {
    var fields := ObjOf(headers, cells).fields;
    forall i | 0 <= i < |headers|
      ensures Cell(ObjOf(headers, cells), headers[i]) == cells[i]
    {
      LookupIndex(fields, i);
      Text.TrimOfTrimmed(cells[i]);
    }
  }

  /** Writing trimmed string cells under distinct headers as a JSON array of
      objects and parsing it gives the same headers and cells back. */
  lemma JsonRoundTrip(headers: seq<string>, rows: seq<seq<string>>)
    requires |rows| > 0
    requires NoDuplicates(headers)
    requires forall r :: 0 <= r < |rows| ==> |rows[r]| == |headers|
    requires forall r, i :: 0 <= r < |rows| && 0 <= i < |headers| ==> Text.IsTrimmed(rows[r][i])
    ensures FromValue(Encode(headers, rows)) ==
      Table(headers, seq(|rows|, r requires 0 <= r < |rows| => Zip(headers, rows[r])))
  {
    var v := Encode(headers, rows);
    assert forall r :: 0 <= r < |rows| ==> v.items[r] == ObjOf(headers, rows[r]);
    var first := v.items[0].fields;
    assert seq(|first|, i requires 0 <= i < |first| => first[i].0) == headers;
    KeysOfDistinct(first);
    var t := FromValue(v);
    forall r | 0 <= r < |rows|
      ensures t.rows[r] == Zip(headers, rows[r])
    {
      RowRoundTrip(headers, rows[r]);
    }
  }
}
