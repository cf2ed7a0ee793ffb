/**
 * JavaScript values as they come out of `JSON.parse` and as the UI code
 * converts them with `String(v)`. Numbers are integers here; an object is an
 * ordered list of bindings.
 */
module JsValue {
  import opened Common
  import Text

  datatype Value =
    | Null
    | Bool(b: bool)
    | Num(n: int)
    | Str(s: string)
    | Arr(items: seq<Value>)
    | Obj(fields: seq<(string, Value)>)

  /** A database row as the client library delivers it: a plain object. */
  type Row = seq<(string, Value)>

  /** `String(x)` of a property that may be missing: `undefined` prints as such. */
  function StrOf(v: Option<Value>): string {
    if v.Some? then ToStr(v.value) else "undefined"
  }

  predicate IsNullish(v: Option<Value>) {
    v.None? || v.value.Null?
  }

  /** `s` is how a present, non-null `x` reads through `String(x)`: the text
      it prints as, which for a string is the string itself. */
  predicate ReadsAs(v: Option<Value>, s: string) {
    !IsNullish(v) ==> s == ToStr(v.value)
  }

  /** `String(x ?? "")` */
  function StrOrEmpty(v: Option<Value>): (s: string)
    ensures IsNullish(v) ==> s == ""
  {
    if IsNullish(v) then "" else ToStr(v.value)
  }

  /** `x != null ? String(x) : null` */
  function StrOrNull(v: Option<Value>): (s: Option<string>)
    ensures s.None? <==> IsNullish(v)
  {
    if IsNullish(v) then None else Some(ToStr(v.value))
  }

  /** `obj[k]` on a value: `None` is `undefined` (a missing key, or not an object). */
  function Prop(v: Value, k: string): (r: Option<Value>)
    ensures !v.Obj? ==> r.None?
    ensures v.Obj? ==> r == Lookup(v.fields, k)
  {
    if v.Obj? then Lookup(v.fields, k) else None
  }

  /** `String(v)` for the values `JSON.parse` produces. */
  function ToStr(v: Value): (s: string)
    decreases v, 1
  {
    match v
    case Null => "null"
    case Bool(b) => if b then "true" else "false"
    case Num(n) => Text.IntToString(n)
    case Str(s) => s
    case Arr(items) => JoinItems(items)
    case Obj(_) => "[object Object]"
  }

  /** `Array.prototype.toString`: elements joined by commas, with `null` as empty. */
  function JoinItems(items: seq<Value>): string
    decreases items, 0
  {
    if |items| == 0 then ""
    else
      var first := if items[0].Null? then "" else ToStr(items[0]);
      if |items| == 1 then first else first + "," + JoinItems(items[1..])
  }

  /** `String` is the identity on strings and inverts number formatting. */
  lemma ToStrInverts(v: Value)
    ensures v.Str? ==> ToStr(v) == v.s
    ensures v.Num? && v.n >= 0 ==> Text.AllDigits(ToStr(v)) && Text.DigitsValue(ToStr(v)) == v.n
  {
    if v.Num? && v.n >= 0 {
      Text.NatToStringRoundTrip(v.n);
    }
  }

  /** A one-element array prints as its element. */
  lemma SingletonArrayToStr(v: Value)
    requires !v.Null?
    ensures ToStr(Arr([v])) == ToStr(v)
  {
  }
}
