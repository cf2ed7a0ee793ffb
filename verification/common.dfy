/**
 * Sequence, option and ordered-record helpers shared by the model: the
 * `Array.prototype` operations the dashboard uses (filter, some, indexOf,
 * splice, sort, slice) and JavaScript objects / `Map`s as ordered association
 * lists.
 */
module Common {

  datatype Option<T> = None | Some(value: T)

  function GetOr<T>(o: Option<T>, default: T): (r: T)
    ensures o.Some? ==> r == o.value
    ensures o.None? ==> r == default
  {
    if o.Some? then o.value else default
  }

  /** One key of `{ ...before, ...patch }`: the patch's value when the patch
      has the key, the old value when it does not. */
  predicate Spread<T(==)>(key: Option<T>, before: T, after: T) {
    (key.Some? ==> after == key.value) && (key.None? ==> after == before)
  }

  // ---------------------------------------------------------------------------
  // filter / count / some

  /** `s.filter(p)` */
  function Filter<T>(s: seq<T>, p: T -> bool): (r: seq<T>)
    ensures |r| <= |s|
    ensures forall i :: 0 <= i < |r| ==> p(r[i])
  {
    if |s| == 0 then []
    else if p(s[0]) then [s[0]] + Filter(s[1..], p)
    else Filter(s[1..], p)
  }

  /** An element survives the filter exactly when it occurs and passes `p`. */
  lemma {:induction false} FilterMembers<T>(s: seq<T>, p: T -> bool, x: T)
    ensures x in Filter(s, p) <==> x in s && p(x)
    decreases |s|
  {
    if |s| > 0 {
      FilterMembers(s[1..], p, x);
      assert s == [s[0]] + s[1..];
    }
  }

  lemma {:induction false} FilterAppend<T>(a: seq<T>, b: seq<T>, p: T -> bool)
    ensures Filter(a + b, p) == Filter(a, p) + Filter(b, p)
    decreases |a|
  {
    if |a| == 0 {
      assert a + b == b;
    } else {
      assert (a + b)[1..] == a[1..] + b;
      FilterAppend(a[1..], b, p);
    }
  }

  /** Filtering twice with the same predicate changes nothing the second time. */
  lemma {:induction false} FilterIdempotent<T>(s: seq<T>, p: T -> bool)
    ensures Filter(Filter(s, p), p) == Filter(s, p)
    decreases |s|
  {
    if |s| > 0 {
      FilterIdempotent(s[1..], p);
    }
  }

  /** Filtering leaves alone a sequence every element of which passes. */
  lemma {:induction false} FilterAllPass<T>(s: seq<T>, p: T -> bool)
    requires forall i :: 0 <= i < |s| ==> p(s[i])
    ensures Filter(s, p) == s
    decreases |s|
  {
    if |s| > 0 {
      FilterAllPass(s[1..], p);
    }
  }

  /** Filtering drops every element when none passes. */
  lemma {:induction false} FilterNonePass<T>(s: seq<T>, p: T -> bool)
    requires forall i :: 0 <= i < |s| ==> !p(s[i])
    ensures Filter(s, p) == []
    decreases |s|
  {
    if |s| > 0 {
      FilterNonePass(s[1..], p);
    }
  }

  /** Two predicates that agree on the elements filter alike. */
  lemma {:induction false} FilterSame<T>(s: seq<T>, p: T -> bool, q: T -> bool)
    requires forall i :: 0 <= i < |s| ==> p(s[i]) == q(s[i])
    ensures Filter(s, p) == Filter(s, q)
    decreases |s|
  {
    if |s| > 0 {
      FilterSame(s[1..], p, q);
    }
  }

  /** `x => p(x) && (!active || q(x))`: a filter stage that applies only
      when it is active. */
  function Stage<T>(p: T -> bool, active: bool, q: T -> bool): T -> bool {
    x => p(x) && (!active || q(x))
  }

  lemma StageApply<T>(p: T -> bool, active: bool, q: T -> bool, x: T)
    ensures Stage(p, active, q)(x) == (p(x) && (!active || q(x)))
  {
  }

  /** Filtering twice is filtering once by both predicates. */
  lemma {:induction false} FilterFilter<T>(s: seq<T>, p: T -> bool, q: T -> bool)
    ensures Filter(Filter(s, p), q) == Filter(s, Stage(p, true, q))
    decreases |s|
  {
    if |s| > 0 {
      FilterFilter(s[1..], p, q);
    }
  }

  /** A stage applied when active, skipped otherwise. */
  lemma FilterStage<T>(s: seq<T>, p: T -> bool, active: bool, q: T -> bool)
    ensures (if active then Filter(Filter(s, p), q) else Filter(s, p)) == Filter(s, Stage(p, active, q))
  {
    if active {
      FilterFilter(s, p, q);
    } else {
      FilterSame(s, p, Stage(p, active, q));
    }
  }

  function Other<T(==)>(x: T): T -> bool {
    y => y != x
  }

  /** `s.filter((y) => y !== x)`: every copy of `x` removed, the rest in order. */
  function Without<T(==,!new)>(s: seq<T>, x: T): (r: seq<T>)
    ensures x !in r
    ensures forall y :: y != x ==> (y in r <==> y in s)
    ensures |r| <= |s|
  {
    forall y ensures y in Filter(s, Other(x)) <==> y in s && y != x {
      FilterMembers(s, Other(x), y);
    }
    Filter(s, Other(x))
  }

  /** Removing a value that does not occur changes nothing. */
  lemma WithoutAbsent<T(!new)>(s: seq<T>, x: T)
    requires x !in s
    ensures Without(s, x) == s
  {
    FilterAllPass(s, Other(x));
  }

  /** Removing a value twice is removing it once, and removing it after
      appending it is removing it from what was there. */
  lemma WithoutAppend<T(!new)>(s: seq<T>, x: T)
    ensures Without(Without(s, x), x) == Without(s, x)
    ensures Without(s + [x], x) == Without(s, x)
  {
    FilterIdempotent(s, Other(x));
    FilterAppend(s, [x], Other(x));
    assert Filter([x], Other(x)) == [];
  }

  /** `t` is `s` with some elements left out, the rest in their original order. */
  predicate IsSubsequence<T(==)>(t: seq<T>, s: seq<T>)
    decreases |s|
  {
    if |t| == 0 then true
    else if |s| == 0 then false
    else if t[0] == s[0] then IsSubsequence(t[1..], s[1..])
    else IsSubsequence(t, s[1..])
  }

  lemma {:induction false} FilterIsSubsequence<T>(s: seq<T>, p: T -> bool)
    ensures IsSubsequence(Filter(s, p), s)
    decreases |s|
  {
    if |s| > 0 {
      FilterIsSubsequence(s[1..], p);
      SubsequenceCons(Filter(s[1..], p), s[1..], s[0]);
      assert s == [s[0]] + s[1..];
    }
  }

  /** Dropping the first kept element keeps a subsequence. */
  lemma {:induction false} SubsequenceTail<T>(t: seq<T>, s: seq<T>)
    requires IsSubsequence(t, s) && |t| > 0
    ensures IsSubsequence(t[1..], s)
    decreases |s|, 0
  {
    if t[0] == s[0] {
      SubsequenceCons(t[1..], s[1..], s[0]);
      assert s == [s[0]] + s[1..];
    } else {
      SubsequenceTail(t, s[1..]);
      SubsequenceCons(t[1..], s[1..], s[0]);
      assert s == [s[0]] + s[1..];
    }
  }

  /** A subsequence of `s` is a subsequence of anything `s` is a suffix of. */
  lemma {:induction false} SubsequenceCons<T>(t: seq<T>, s: seq<T>, x: T)
    requires IsSubsequence(t, s)
    ensures IsSubsequence(t, [x] + s)
    decreases |s|, 1
  {
    var xs := [x] + s;
    assert xs[1..] == s;
    if |t| > 0 && t[0] == x {
      SubsequenceTail(t, s);
    }
  }

  /** `s.filter(p).length` */
  function Count<T>(s: seq<T>, p: T -> bool): (n: nat)
    ensures n <= |s|
  {
    if |s| == 0 then 0 else (if p(s[0]) then 1 else 0) + Count(s[1..], p)
  }

  lemma {:induction false} CountIsFilterLength<T>(s: seq<T>, p: T -> bool)
    ensures Count(s, p) == |Filter(s, p)|
    decreases |s|
  {
    if |s| > 0 {
      CountIsFilterLength(s[1..], p);
    }
  }

  /** Two predicates that never hold together count at most the whole sequence. */
  lemma {:induction false} CountDisjoint<T>(s: seq<T>, p: T -> bool, q: T -> bool)
    requires forall x :: !(p(x) && q(x))
    ensures Count(s, p) + Count(s, q) <= |s|
    decreases |s|
  {
    if |s| > 0 {
      CountDisjoint(s[1..], p, q);
    }
  }

  /** A predicate implied by another counts at least as much. */
  lemma {:induction false} CountMonotone<T>(s: seq<T>, p: T -> bool, q: T -> bool)
    requires forall x :: p(x) ==> q(x)
    ensures Count(s, p) <= Count(s, q)
    decreases |s|
  {
    if |s| > 0 {
      CountMonotone(s[1..], p, q);
    }
  }

  /** Elements meeting `u` each meet one of three predicates, so they are no
      more than the three counts together. */
  lemma {:induction false} CountCovered<T>(s: seq<T>, u: T -> bool, p: T -> bool, q: T -> bool, r: T -> bool)
    requires forall x :: u(x) ==> p(x) || q(x) || r(x)
    ensures Count(s, u) <= Count(s, p) + Count(s, q) + Count(s, r)
    decreases |s|
  {
    if |s| > 0 {
      CountCovered(s[1..], u, p, q, r);
    }
  }

  /** `s.some(p)` */
  predicate Any<T>(s: seq<T>, p: T -> bool) {
    exists i :: 0 <= i < |s| && p(s[i])
  }

  /** `s.every(p)` */
  predicate All<T>(s: seq<T>, p: T -> bool) {
    forall i :: 0 <= i < |s| ==> p(s[i])
  }

  // ---------------------------------------------------------------------------
  // Duplicates

  predicate NoDuplicates<T(==)>(s: seq<T>) {
    forall i, j :: 0 <= i < j < |s| ==> s[i] != s[j]
  }

  /** `Array.from(new Set(s))`: the first occurrence of every element, in order. */
  function Dedup<T(==,!new)>(s: seq<T>): (r: seq<T>)
    ensures NoDuplicates(r)
    ensures forall x :: x in r <==> x in s
    ensures |r| <= |s|
  {
    DedupFrom(s, [])
  }

  function DedupFrom<T(==,!new)>(s: seq<T>, seen: seq<T>): (r: seq<T>)
    requires NoDuplicates(seen)
    ensures NoDuplicates(r)
    ensures forall x :: x in r <==> x in s || x in seen
    ensures |r| <= |s| + |seen|
    decreases |s|
  {
    if |s| == 0 then seen
    else if s[0] in seen then DedupFrom(s[1..], seen)
    else DedupFrom(s[1..], seen + [s[0]])
  }

  // ---------------------------------------------------------------------------
  // indexOf / splice

  /** A permutation of a sequence without repeats has none either. */
  lemma PermutationKeepsDistinct<T>(s: seq<T>, t: seq<T>)
    requires NoDuplicates(s) && multiset(s) == multiset(t)
    ensures NoDuplicates(t)
  {
    forall i, j | 0 <= i < j < |t|
      ensures t[i] != t[j]
    {
      if t[i] == t[j] {
        RepeatCounts(t, i, j);
        MultisetDistinct(s, t[i]);
      }
    }
  }

  lemma RepeatCounts<T>(t: seq<T>, i: nat, j: nat)
    requires i < j < |t| && t[i] == t[j]
    ensures multiset(t)[t[i]] >= 2
  {
    assert t == t[..i] + [t[i]] + t[i + 1..j] + [t[j]] + t[j + 1..];
  }

  /** Without repeats, each element occurs at most once in the multiset. */
  lemma {:induction false} MultisetDistinct<T>(s: seq<T>, x: T)
    requires NoDuplicates(s)
    ensures multiset(s)[x] <= 1
    decreases |s|
  {
    if |s| > 0 {
      assert s == [s[0]] + s[1..];
      MultisetDistinct(s[1..], x);
      if s[0] == x {
        assert x !in s[1..];
      }
    }
  }

  /** `s.indexOf(x)`, with `None` for -1. */
  function IndexOf<T(==)>(s: seq<T>, x: T): (r: Option<nat>)
    ensures r.None? <==> x !in s
    ensures r.Some? ==> r.value < |s| && s[r.value] == x && x !in s[..r.value]
  {
    if |s| == 0 then None
    else if s[0] == x then Some(0)
    else match IndexOf(s[1..], x)
      case None => None
      case Some(i) => Some(i + 1)
  }

  /** `s.splice(i, 1)` */
  function RemoveAt<T>(s: seq<T>, i: nat): (r: seq<T>)
    requires i < |s|
    ensures |r| == |s| - 1
  {
    s[..i] + s[i + 1..]
  }

  /** `s.splice(i, 0, x)` for an index within the sequence or just past its end. */
  function InsertAt<T>(s: seq<T>, i: nat, x: T): (r: seq<T>)
    requires i <= |s|
    ensures |r| == |s| + 1 && r[i] == x
  {
    s[..i] + [x] + s[i..]
  }

  lemma RemoveInsertMultiset<T>(s: seq<T>, i: nat, j: nat)
    requires i < |s| && j < |s|
    ensures multiset(InsertAt(RemoveAt(s, i), j, s[i])) == multiset(s)
  {
    var r := RemoveAt(s, i);
    var t := InsertAt(r, j, s[i]);
    assert s == s[..i] + [s[i]] + s[i + 1..];
    assert multiset(r) == multiset(s[..i]) + multiset(s[i + 1..]);
    assert t == r[..j] + [s[i]] + r[j..];
    assert r == r[..j] + r[j..];
    calc {
      multiset(t);
      multiset(r[..j]) + multiset{s[i]} + multiset(r[j..]);
      multiset(r) + multiset{s[i]};
      multiset(s);
    }
  }

  lemma RemoveAfterInsert<T>(s: seq<T>, j: nat, x: T)
    requires j <= |s|
    ensures RemoveAt(InsertAt(s, j, x), j) == s
  {
    var r := InsertAt(s, j, x);
    assert r[..j] == s[..j];
    assert r[j + 1..] == s[j..];
  }

  // ---------------------------------------------------------------------------
  // Concatenation of chunks

  function Flatten<T>(ss: seq<seq<T>>): seq<T> {
    if |ss| == 0 then [] else ss[0] + Flatten(ss[1..])
  }

  lemma {:induction false} FlattenSnoc<T>(ss: seq<seq<T>>, last: seq<T>)
    ensures Flatten(ss + [last]) == Flatten(ss) + last
    decreases |ss|
  {
    if |ss| == 0 {
      assert ss + [last] == [last];
    } else {
      assert (ss + [last])[1..] == ss[1..] + [last];
      FlattenSnoc(ss[1..], last);
    }
  }

  // ---------------------------------------------------------------------------
  // Sorting (`Array.prototype.sort` with a comparator) by a lexicographic rank.

  /** A sort key compared lexicographically: first `a`, then `b`, then `c`. */
  datatype Rank = Rank(a: int, b: int, c: int)

  predicate RankLe(x: Rank, y: Rank) {
    x.a < y.a || (x.a == y.a && (x.b < y.b || (x.b == y.b && x.c <= y.c)))
  }

  predicate RankLt(x: Rank, y: Rank) {
    !RankLe(y, x)
  }

  /** Ascending by `key`. */
  predicate SortedBy<T>(s: seq<T>, key: T -> Rank) {
    forall i, j :: 0 <= i < j < |s| ==> RankLe(key(s[i]), key(s[j]))
  }

  /** Insert `x` after every element it does not precede strictly. */
  function InsertSorted<T>(x: T, s: seq<T>, key: T -> Rank): (r: seq<T>)
    requires SortedBy(s, key)
    ensures SortedBy(r, key)
    ensures multiset(r) == multiset(s) + multiset{x}
    ensures |r| == |s| + 1
    ensures r[0] == x || (|s| > 0 && r[0] == s[0])
    decreases |s|
  {
    if |s| == 0 then [x]
    else if RankLt(key(x), key(s[0])) then [x] + s
    else
      var rest := InsertSorted(x, s[1..], key);
      assert s == [s[0]] + s[1..];
      assert RankLe(key(s[0]), key(rest[0]));
      ConsSorted(s[0], rest, key);
      [s[0]] + rest
  }

  lemma ConsSorted<T>(x: T, s: seq<T>, key: T -> Rank)
    requires SortedBy(s, key)
    requires |s| > 0 ==> RankLe(key(x), key(s[0]))
    ensures SortedBy([x] + s, key)
  {
    var r := [x] + s;
    forall i, j | 0 <= i < j < |r|
      ensures RankLe(key(r[i]), key(r[j]))
    {
      if i == 0 && j > 1 {
        assert RankLe(key(s[0]), key(s[j - 1]));
      }
    }
  }

  /** A stable insertion sort, ascending by `key`. */
  function SortBy<T>(s: seq<T>, key: T -> Rank): (r: seq<T>)
    ensures SortedBy(r, key)
    ensures multiset(r) == multiset(s)
    ensures |r| == |s|
    decreases |s|
  {
    if |s| == 0 then []
    else
      var init := s[..|s| - 1];
      assert s == init + [s[|s| - 1]];
      InsertSorted(s[|s| - 1], SortBy(init, key), key)
  }

  /** The present results of `f` over `s`, in order. */
  function Somes<T, U>(s: seq<T>, f: T -> Option<U>): (r: seq<U>)
    ensures |r| <= |s|
  {
    if |s| == 0 then []
    else if f(s[0]).Some? then [f(s[0]).value] + Somes(s[1..], f)
    else Somes(s[1..], f)
  }

  /** The k-th present result is that of the k-th element `f` is defined on. */
  lemma {:induction false} SomesPointwise<T, U>(s: seq<T>, f: T -> Option<U>, p: T -> bool)
    requires forall x :: p(x) <==> f(x).Some?
    ensures |Somes(s, f)| == |Filter(s, p)|
    ensures forall k :: 0 <= k < |Somes(s, f)| ==> Some(Somes(s, f)[k]) == f(Filter(s, p)[k])
    decreases |s|
  {
    if |s| > 0 {
      SomesPointwise(s[1..], f, p);
      if p(s[0]) {
        var r, q := Somes(s[1..], f), Filter(s[1..], p);
        forall k | 0 < k < |r| + 1
          ensures Some(([f(s[0]).value] + r)[k]) == f(([s[0]] + q)[k])
        {
          assert ([f(s[0]).value] + r)[k] == r[k - 1] && ([s[0]] + q)[k] == q[k - 1];
        }
      }
    }
  }

  /** Filtering a sequence with one more element at the end. */
  lemma FilterSnoc<T>(s: seq<T>, x: T, p: T -> bool)
    ensures Filter(s + [x], p) == Filter(s, p) + (if p(x) then [x] else [])
  {
    FilterAppend(s, [x], p);
    assert [x][1..] == [];
  }

  /** The elements whose key is exactly `k`. */
  function RankIs<T>(key: T -> Rank, k: Rank): T -> bool {
    (x: T) => key(x) == k
  }

  /** Inserting `x` puts it after every element of its own rank. */
  lemma {:induction false} InsertSortedTies<T>(x: T, s: seq<T>, key: T -> Rank, k: Rank)
    requires SortedBy(s, key)
    ensures Filter(InsertSorted(x, s, key), RankIs(key, k))
      == Filter(s, RankIs(key, k)) + (if key(x) == k then [x] else [])
    decreases |s|
  {
    var p := RankIs(key, k);
    if |s| == 0 {
      assert Filter([x], p) == (if key(x) == k then [x] else []) by {
        assert [x][1..] == [];
      }
    } else if RankLt(key(x), key(s[0])) {
      assert ([x] + s)[1..] == s;
      if key(x) == k {
        forall i | 0 <= i < |s| ensures !p(s[i]) {
          assert RankLe(key(s[0]), key(s[i]));
        }
        FilterNonePass(s, p);
      }
    } else {
      assert SortedBy(s[1..], key);
      InsertSortedTies(x, s[1..], key, k);
      var rest := InsertSorted(x, s[1..], key);
      assert ([s[0]] + rest)[1..] == rest;
    }
  }

  /** The sort is stable: the elements of any one rank keep their order. */
  lemma {:induction false} SortByTies<T>(s: seq<T>, key: T -> Rank, k: Rank)
    ensures Filter(SortBy(s, key), RankIs(key, k)) == Filter(s, RankIs(key, k))
    decreases |s|
  {
    if |s| > 0 {
      var p := RankIs(key, k);
      var init, last := s[..|s| - 1], s[|s| - 1];
      var tail := if key(last) == k then [last] else [];
      assert s == init + [last];
      calc {
        Filter(SortBy(s, key), p);
        Filter(InsertSorted(last, SortBy(init, key), key), p);
        { InsertSortedTies(last, SortBy(init, key), key, k); }
        Filter(SortBy(init, key), p) + tail;
        { SortByTies(init, key, k); }
        Filter(init, p) + tail;
        { FilterSnoc(init, last, p); }
        Filter(s, p);
      }
    }
  }

  /** The first `k` elements of `s` sorted by `key`: `[...s].sort(cmp).slice(0, k)`. */
  function TopBy<T>(s: seq<T>, key: T -> Rank, k: nat): (r: seq<T>)
    ensures |r| == if k < |s| then k else |s|
    ensures SortedBy(r, key)
    ensures multiset(r) <= multiset(s)
  {
    var sorted := SortBy(s, key);
    var n := if k < |s| then k else |s|;
    assert sorted == sorted[..n] + sorted[n..];
    sorted[..n]
  }

  /** Nothing left out of the top `k` ranks below anything kept. */
  lemma TopByKeepsSmallest<T>(s: seq<T>, key: T -> Rank, k: nat, y: T)
    requires y in multiset(s) - multiset(TopBy(s, key, k))
    ensures forall i :: 0 <= i < |TopBy(s, key, k)| ==> RankLe(key(TopBy(s, key, k)[i]), key(y))
  {
    var sorted := SortBy(s, key);
    var r := TopBy(s, key, k);
    var n := |r|;
    var rest := sorted[n..];
    assert r == sorted[..n];
    assert sorted == r + rest;
    assert multiset(s) - multiset(r) == multiset(rest);
    assert y in rest;
    var j :| 0 <= j < |rest| && rest[j] == y;
    forall i | 0 <= i < n
      ensures RankLe(key(r[i]), key(y))
    {
      assert r[i] == sorted[i] && y == sorted[n + j];
    }
  }

  /** The top `k` keep each rank's elements in their order in `s`: they are
      the first of that rank's elements, since the sort is stable. */
  lemma TopByTies<T>(s: seq<T>, key: T -> Rank, k: nat, rank: Rank)
    ensures Filter(TopBy(s, key, k), RankIs(key, rank)) <= Filter(s, RankIs(key, rank))
  {
    var sorted := SortBy(s, key);
    var r := TopBy(s, key, k);
    assert sorted == r + sorted[|r|..];
    FilterAppend(r, sorted[|r|..], RankIs(key, rank));
    SortByTies(s, key, rank);
  }

  // ---------------------------------------------------------------------------
  // Ordered records: a JavaScript object or `Map` as a sequence of bindings.

  /** The value of the last binding of `k`; assigning to an existing key
      replaces its value. */
  function Lookup<V>(m: seq<(string, V)>, k: string): (r: Option<V>)
    ensures r.None? <==> forall i :: 0 <= i < |m| ==> m[i].0 != k
    ensures r.Some? ==> exists i :: 0 <= i < |m| && m[i] == (k, r.value)
    decreases |m|
  {
    if |m| == 0 then None
    else if m[|m| - 1].0 == k then Some(m[|m| - 1].1)
    else
      var r := Lookup(m[..|m| - 1], k);
      assert forall i :: 0 <= i < |m| - 1 ==> m[..|m| - 1][i] == m[i];
      r
  }

  /** `Object.keys(m)`: each key once, in order of first binding. */
  function KeysOf<V>(m: seq<(string, V)>): (ks: seq<string>)
    ensures NoDuplicates(ks)
    ensures forall k :: k in ks <==> Lookup(m, k).Some?
  {
    var raw := seq(|m|, i requires 0 <= i < |m| => m[i].0);
    assert forall i :: 0 <= i < |m| ==> raw[i] == m[i].0;
    Dedup(raw)
  }

  /** `obj[k] = v`: every binding of an existing key takes the new value in
      place (an object holds one binding per key), a new key is appended. */
  function Upsert<V>(m: seq<(string, V)>, k: string, v: V): (r: seq<(string, V)>)
    ensures Lookup(r, k) == Some(v)
    ensures forall k' :: k' != k ==> Lookup(r, k') == Lookup(m, k')
    ensures Lookup(m, k).Some? ==> |r| == |m| && forall i :: 0 <= i < |r| ==> r[i].0 == m[i].0
    ensures Lookup(m, k).None? ==> r == m + [(k, v)]
  {
    if Lookup(m, k).Some? then
      var r := seq(|m|, i requires 0 <= i < |m| => if m[i].0 == k then (k, v) else m[i]);
      assert exists i :: 0 <= i < |r| && r[i].0 == k by {
        var i :| 0 <= i < |m| && m[i] == (k, Lookup(m, k).value);
        assert r[i].0 == k;
      }
      LookupAllSame(r, k, v);
      forall k' | k' != k
        ensures Lookup(r, k') == Lookup(m, k')
      {
        LookupPointwise(m, r, k');
      }
      r
    else
      var r := m + [(k, v)];
      assert r[..|m|] == m;
      r
  }

  /** An object's bindings: one per key. */
  predicate DistinctKeys<V>(m: seq<(string, V)>) {
    forall i, j :: 0 <= i < j < |m| ==> m[i].0 != m[j].0
  }

  /** Setting a key keeps an object's keys distinct. */
  lemma UpsertKeepsDistinct<V>(m: seq<(string, V)>, k: string, v: V)
    requires DistinctKeys(m)
    ensures DistinctKeys(Upsert(m, k, v))
  {
    var r := Upsert(m, k, v);
    if Lookup(m, k).None? {
      forall i, j | 0 <= i < j < |r| ensures r[i].0 != r[j].0 {
        assert r[i] == m[i];
        if j < |m| {
          assert r[j] == m[j];
        }
      }
    }
  }

  /** In an object with distinct keys, every binding is the one `Lookup` finds. */
  lemma LookupIndex<V>(m: seq<(string, V)>, i: int)
    requires 0 <= i < |m| && DistinctKeys(m)
    ensures Lookup(m, m[i].0) == Some(m[i].1)
  {
    LookupAllSame(m, m[i].0, m[i].1);
  }

  /** Reordering an object's bindings keeps its keys distinct and every
      key's value. */
  lemma PermutedRecord<V>(m: seq<(string, V)>, r: seq<(string, V)>, k: string)
    requires DistinctKeys(m) && multiset(r) == multiset(m)
    ensures DistinctKeys(r)
    ensures Lookup(r, k) == Lookup(m, k)
  {
    PermutedKeys(m, r);
    if Lookup(m, k).Some? {
      var a :| 0 <= a < |m| && m[a] == (k, Lookup(m, k).value);
      assert m[a] in multiset(r);
      var i :| 0 <= i < |r| && r[i] == m[a];
      LookupIndex(r, i);
      LookupIndex(m, a);
    } else {
      forall i | 0 <= i < |r|
        ensures r[i].0 != k
      {
        assert r[i] in multiset(m);
      }
    }
  }

  lemma PermutedKeys<V>(m: seq<(string, V)>, r: seq<(string, V)>)
    requires DistinctKeys(m) && multiset(r) == multiset(m)
    ensures DistinctKeys(r)
  {
    assert NoDuplicates(m);
    PermutationKeepsDistinct(m, r);
    forall i, j | 0 <= i < j < |r|
      ensures r[i].0 != r[j].0
    {
      assert r[i] in multiset(m) && r[j] in multiset(m);
      var a :| 0 <= a < |m| && m[a] == r[i];
      var b :| 0 <= b < |m| && m[b] == r[j];
    }
  }

  /** Lookup only sees the bindings of the key it looks for. */
  lemma {:induction false} LookupPointwise<V>(m: seq<(string, V)>, r: seq<(string, V)>, k: string)
    requires |m| == |r|
    requires forall i :: 0 <= i < |m| ==> r[i].0 == m[i].0 && (m[i].0 == k ==> r[i].1 == m[i].1)
    ensures Lookup(r, k) == Lookup(m, k)
    decreases |m|
  {
    if |m| > 0 {
      LookupPointwise(m[..|m| - 1], r[..|r| - 1], k);
    }
  }

  /** When every binding of `k` holds `v`, and there is one, `v` is found. */
  lemma {:induction false} LookupAllSame<V>(m: seq<(string, V)>, k: string, v: V)
    requires exists i :: 0 <= i < |m| && m[i].0 == k
    requires forall i :: 0 <= i < |m| && m[i].0 == k ==> m[i].1 == v
    ensures Lookup(m, k) == Some(v)
    decreases |m|
  {
    if m[|m| - 1].0 != k {
      var init := m[..|m| - 1];
      var i :| 0 <= i < |m| && m[i].0 == k;
      assert init[i].0 == k;
      LookupAllSame(init, k, v);
    }
  }
}
