/**
 * The JavaScript string operations the dashboard relies on, over `string` (a
 * sequence of Unicode characters): white space as `trim` and the regex class
 * `\s` see it, case mapping, substring tests, splitting and decimal printing.
 */
module Text {

  /** The characters `String.prototype.trim` removes and `\s` matches: tab to
      carriage return, space, no-break space, the Unicode space separators, the
      line and paragraph separators and the byte-order mark. */
  predicate IsSpace(c: char) {
    || ('\t' <= c <= '\r') || c == ' ' || c == '\U{A0}' || c == '\U{1680}'
    || ('\U{2000}' <= c <= '\U{200A}') || c == '\U{2028}' || c == '\U{2029}'
    || c == '\U{202F}' || c == '\U{205F}' || c == '\U{3000}' || c == '\U{FEFF}'
  }

  predicate NoSpace(s: string) {
    forall i :: 0 <= i < |s| ==> !IsSpace(s[i])
  }

  predicate AllSpace(s: string) {
    forall i :: 0 <= i < |s| ==> IsSpace(s[i])
  }

  /** A string with no white space at either end, as `trim` leaves it. */
  predicate IsTrimmed(s: string) {
    |s| == 0 || (!IsSpace(s[0]) && !IsSpace(s[|s| - 1]))
  }

  /** The first index at or after `k` whose character is not white space, or
      `|s|`. */
  function SkipSpace(s: string, k: nat): (a: nat)
    requires k <= |s|
    ensures k <= a <= |s|
    ensures forall i :: k <= i < a ==> IsSpace(s[i])
    ensures a < |s| ==> !IsSpace(s[a])
    decreases |s| - k
  {
    if k < |s| && IsSpace(s[k]) then SkipSpace(s, k + 1) else k
  }

  /** The index just past the last character before `e` that is not white
      space, or 0. */
  function BackSpace(s: string, e: nat): (b: nat)
    requires e <= |s|
    ensures b <= e
    ensures forall i :: b <= i < e ==> IsSpace(s[i])
    ensures b > 0 ==> !IsSpace(s[b - 1])
    decreases e
  {
    if e > 0 && IsSpace(s[e - 1]) then BackSpace(s, e - 1) else e
  }

  /** `s.trimStart()` */
  function TrimStart(s: string): (r: string)
    ensures |r| <= |s| && r == s[|s| - |r|..]
    ensures forall i :: 0 <= i < |s| - |r| ==> IsSpace(s[i])
    ensures |r| > 0 ==> !IsSpace(r[0])
  {
    s[SkipSpace(s, 0)..]
  }

  /** How many white-space characters `trim` cuts from the front of `s`. */
  function TrimOffset(s: string): (k: nat)
    ensures k <= |s|
  {
    SkipSpace(s, 0)
  }

  /** `s.trim()`: the infix of `s` that starts `TrimOffset(s)` characters in;
      everything cut off is white space and the result has none at either
      end. */
  function Trim(s: string): (r: string)
    ensures IsTrimmed(r)
    ensures TrimOffset(s) + |r| <= |s| && r == s[TrimOffset(s)..TrimOffset(s) + |r|]
    ensures forall i :: 0 <= i < TrimOffset(s) ==> IsSpace(s[i])
    ensures forall i :: TrimOffset(s) + |r| <= i < |s| ==> IsSpace(s[i])
  {
    var a := SkipSpace(s, 0);
    var b := BackSpace(s, |s|);
    if b <= a then "" else s[a..b]
  }

  lemma TrimOfTrimmed(s: string)
    requires IsTrimmed(s)
    ensures Trim(s) == s
  {
  }

  lemma TrimIdempotent(s: string)
    ensures Trim(Trim(s)) == Trim(s)
  {
    TrimOfTrimmed(Trim(s));
  }

  /** `!s.trim()`: the string holds white space only. */
  predicate IsBlank(s: string) {
    Trim(s) == ""
  }

  lemma {:induction false} BlankIffAllSpace(s: string)
    ensures IsBlank(s) <==> AllSpace(s)
  {
  }

  // ---------------------------------------------------------------------------
  // Case mapping: ASCII letters and the Turkish letters that map one-to-one.

  function LowerChar(c: char): char {
    if 'A' <= c <= 'Z' then (c as int + 32) as char
    else if c == 'Ç' then 'ç'
    else if c == 'Ğ' then 'ğ'
    else if c == 'Ö' then 'ö'
    else if c == 'Ş' then 'ş'
    else if c == 'Ü' then 'ü'
    else c
  }

  function UpperChar(c: char): char {
    if 'a' <= c <= 'z' then (c as int - 32) as char
    else if c == 'ç' then 'Ç'
    else if c == 'ğ' then 'Ğ'
    else if c == 'ö' then 'Ö'
    else if c == 'ş' then 'Ş'
    else if c == 'ü' then 'Ü'
    else if c == 'ı' then 'I'
    else c
  }

  /** `s.toLowerCase()` */
  function Lower(s: string): (r: string)
    ensures |r| == |s|
    ensures forall i :: 0 <= i < |s| ==> r[i] == LowerChar(s[i])
  {
    seq(|s|, i requires 0 <= i < |s| => LowerChar(s[i]))
  }

  /** `s.toUpperCase()` */
  function Upper(s: string): (r: string)
    ensures |r| == |s|
    ensures forall i :: 0 <= i < |s| ==> r[i] == UpperChar(s[i])
  {
    seq(|s|, i requires 0 <= i < |s| => UpperChar(s[i]))
  }

  lemma LowerIdempotent(s: string)
    ensures Lower(Lower(s)) == Lower(s)
  {
  }

  lemma LowerCharSpace(c: char)
    ensures IsSpace(LowerChar(c)) <==> IsSpace(c)
  {
  }

  lemma LowerKeepsSpace(s: string)
    ensures forall i :: 0 <= i < |s| ==> (IsSpace(Lower(s)[i]) <==> IsSpace(s[i]))
  {
  }

  lemma {:induction false} SkipSpaceLower(s: string, k: nat)
    requires k <= |s|
    ensures SkipSpace(Lower(s), k) == SkipSpace(s, k)
    decreases |s| - k
  {
    if k < |s| {
      LowerCharSpace(s[k]);
      SkipSpaceLower(s, k + 1);
    }
  }

  lemma {:induction false} BackSpaceLower(s: string, e: nat)
    requires e <= |s|
    ensures BackSpace(Lower(s), e) == BackSpace(s, e)
    decreases e
  {
    if e > 0 {
      LowerCharSpace(s[e - 1]);
      BackSpaceLower(s, e - 1);
    }
  }

  /** Trimming and lower-casing commute, so `s.trim().toLowerCase()` and
      `s.toLowerCase().trim()` agree. */
  lemma TrimLowerCommute(s: string)
    ensures Trim(Lower(s)) == Lower(Trim(s))
  {
    SkipSpaceLower(s, 0);
    BackSpaceLower(s, |s|);
    var a := SkipSpace(s, 0);
    var b := BackSpace(s, |s|);
    if a < b {
      LowerSlice(s, a, b);
    }
  }

  lemma LowerSlice(s: string, a: nat, b: nat)
    requires a <= b <= |s|
    ensures Lower(s)[a..b] == Lower(s[a..b])
  {
  }

  /** Trim, then lower-case: the normalisation used for e-mail comparisons. */
  function Norm(s: string): string {
    Lower(Trim(s))
  }

  // ---------------------------------------------------------------------------
  // Prefix, suffix and substring tests.

  predicate StartsWith(s: string, p: string) {
    |p| <= |s| && s[..|p|] == p
  }

  predicate EndsWith(s: string, p: string) {
    |p| <= |s| && s[|s| - |p|..] == p
  }

  /** `s.includes(sub)` */
  predicate Contains(s: string, sub: string) {
    exists i :: 0 <= i <= |s| - |sub| && OccursAt(s, sub, i)
  }

  predicate OccursAt(s: string, sub: string, i: nat)
    requires i + |sub| <= |s|
  {
    s[i..i + |sub|] == sub
  }

  lemma ContainsEmpty(s: string)
    ensures Contains(s, "")
  {
    assert OccursAt(s, "", 0);
  }

  lemma EmptyContainsOnlyEmpty(sub: string)
    requires Contains("", sub)
    ensures sub == ""
  {
  }

  /** Number of occurrences of `c` in `s`. */
  function CountChar(s: string, c: char): (n: nat)
    ensures n <= |s|
  {
    if |s| == 0 then 0 else (if s[0] == c then 1 else 0) + CountChar(s[1..], c)
  }

  lemma {:induction false} CountCharAppend(a: string, b: string, c: char)
    ensures CountChar(a + b, c) == CountChar(a, c) + CountChar(b, c)
    decreases |a|
  {
    if |a| == 0 {
      assert a + b == b;
    } else {
      assert (a + b)[1..] == a[1..] + b;
      CountCharAppend(a[1..], b, c);
    }
  }

  lemma {:induction false} CountCharZero(s: string, c: char)
    ensures CountChar(s, c) == 0 <==> c !in s
    decreases |s|
  {
    if |s| > 0 {
      CountCharZero(s[1..], c);
      assert c in s <==> s[0] == c || c in s[1..];
    }
  }

  /** `s.slice(0, n)` for n >= 0 */
  function Take(s: string, n: nat): (r: string)
    ensures |r| == if n < |s| then n else |s|
    ensures r == s[..|r|]
  {
    if n < |s| then s[..n] else s
  }

  /** `s.slice(-n)` for n > 0: the last n characters, or all of a shorter string. */
  function TakeLast(s: string, n: nat): (r: string)
    ensures |r| == if n < |s| then n else |s|
    ensures r == s[|s| - |r|..]
  {
    if n < |s| then s[|s| - n..] else s
  }

  /** The first character as a string (`s[0]`, where an empty string gives
      `undefined`, which `join` prints as nothing). */
  function Head(s: string): (r: string)
    ensures |r| == if |s| == 0 then 0 else 1
  {
    if |s| == 0 then "" else [s[0]]
  }

  // ---------------------------------------------------------------------------
  // Splitting.

  /** `s.split(d)` for a one-character separator. */
  function SplitOn(s: string, d: char): (parts: seq<string>)
    ensures |parts| == CountChar(s, d) + 1
    ensures forall i :: 0 <= i < |parts| ==> d !in parts[i]
    decreases |s|
  {
    if |s| == 0 then [""]
    else
      var rest := SplitOn(s[1..], d);
      if s[0] == d then [""] + rest
      else [[s[0]] + rest[0]] + rest[1..]
  }

  function Join(parts: seq<string>, d: char): string
  {
    if |parts| == 0 then ""
    else if |parts| == 1 then parts[0]
    else parts[0] + [d] + Join(parts[1..], d)
  }

  /** Splitting on a separator and joining with it again gives the original string. */
  lemma {:induction false} JoinSplit(s: string, d: char)
    ensures Join(SplitOn(s, d), d) == s
    decreases |s|
  {
    if |s| > 0 {
      JoinSplit(s[1..], d);
      var rest := SplitOn(s[1..], d);
      if s[0] == d {
        assert s == [d] + s[1..];
      } else {
        var parts := SplitOn(s, d);
        if |rest| == 1 {
          assert parts == [[s[0]] + rest[0]];
        } else {
          assert parts[1..] == rest[1..];
          assert Join(rest, d) == rest[0] + [d] + Join(rest[1..], d);
        }
      }
    }
  }

  /** The maximal non-space prefix of `s`. */
  function Token(s: string): (w: string)
    ensures |w| <= |s| && w == s[..|w|] && NoSpace(w)
    ensures |w| < |s| ==> IsSpace(s[|w|])
  {
    if |s| == 0 || IsSpace(s[0]) then "" else [s[0]] + Token(s[1..])
  }

  /** A non-empty run of non-space characters. */
  predicate IsWord(w: string) {
    |w| > 0 && NoSpace(w)
  }

  /** The maximal runs of non-space characters, in order: `s.trim().split(/\s+/)`
      for a string that is not blank. */
  function Words(s: string): (ws: seq<string>)
    ensures forall i :: 0 <= i < |ws| ==> IsWord(ws[i])
    decreases |s|
  {
    var t := TrimStart(s);
    if |t| == 0 then []
    else
      var w := Token(t);
      assert IsWord(w);
      var rest := Words(t[|w|..]);
      [w] + rest
  }

  /** Words of a single space-free word is that word. */
  lemma WordsOfWord(w: string)
    requires |w| > 0 && NoSpace(w)
    ensures Words(w) == [w]
  {
    assert TrimStart(w) == w;
    TokenOfNoSpace(w);
    assert w[|w|..] == "";
  }

  lemma {:induction false} TokenOfNoSpace(w: string)
    requires NoSpace(w)
    ensures Token(w) == w
    decreases |w|
  {
    if |w| > 0 {
      TokenOfNoSpace(w[1..]);
      assert w == [w[0]] + w[1..];
    }
  }

  /** A non-blank string has at least one word. */
  lemma WordsNonBlank(s: string)
    requires !IsBlank(s)
    ensures |Words(s)| > 0
  {
  }

  /** A blank string has none. */
  lemma WordsBlank(s: string)
    requires IsBlank(s)
    ensures Words(s) == []
  {
  }

  // ---------------------------------------------------------------------------
  // Decimal printing (`String(n)` for an integer) and its inverse.

  function DigitChar(d: nat): char
    requires d < 10
  {
    ('0' as int + d) as char
  }

  predicate IsDigit(c: char) {
    '0' <= c <= '9'
  }

  predicate AllDigits(s: string) {
    forall i :: 0 <= i < |s| ==> IsDigit(s[i])
  }

  function NatToString(n: nat): (s: string)
    ensures |s| > 0 && AllDigits(s)
    ensures n < 10 <==> |s| == 1
    ensures 10 <= n < 100 ==> |s| == 2
    decreases n
  {
    if n < 10 then [DigitChar(n)] else NatToString(n / 10) + [DigitChar(n % 10)]
  }

  /** `String(i)` for an integer i. */
  function IntToString(i: int): (s: string)
    ensures |s| > 0
    ensures i >= 0 ==> s == NatToString(i)
  {
    if i < 0 then "-" + NatToString(-i) else NatToString(i)
  }

  /** The value of a string of decimal digits. */
  function DigitsValue(s: string): nat
    requires AllDigits(s)
  {
    if |s| == 0 then 0 else 10 * DigitsValue(s[..|s| - 1]) + (s[|s| - 1] as int - '0' as int)
  }

  /** Printing a number and reading its digits back gives the number. */
  lemma {:induction false} NatToStringRoundTrip(n: nat)
    ensures DigitsValue(NatToString(n)) == n
    decreases n
  {
    if n >= 10 {
      var s := NatToString(n);
      assert s[..|s| - 1] == NatToString(n / 10);
      NatToStringRoundTrip(n / 10);
    }
  }

  /** Distinct numbers print differently. */
  lemma NatToStringInjective(m: nat, n: nat)
    requires NatToString(m) == NatToString(n)
    ensures m == n
  {
    NatToStringRoundTrip(m);
    NatToStringRoundTrip(n);
  }
}
