/**
 * The per-project task counts of hooks/useTaskCountByProject.ts. A fetch
 * returns the `project_id` column of every task row (or fails); the counts
 * are an object from project id to number of rows. Every change to the task
 * table triggers a full fetch again.
 */
module TaskCounts {
  import opened Common

  type Counts = seq<(string, nat)>

  /** JavaScript's truth of a project id: present and not empty. */
  predicate Truthy(id: Option<string>) {
    id.Some? && id.value != ""
  }

  function Counted(id: Option<string>, counts: Counts): (r: Counts) {
    if Truthy(id) then Upsert(counts, id.value, GetOr(Lookup(counts, id.value), 0) + 1) else counts
  }

  /** The fold of `fetchCounts`, row by row. */
  function CountRows(rows: seq<Option<string>>): (c: Counts)
    decreases |rows|
  {
    if |rows| == 0 then [] else Counted(rows[|rows| - 1], CountRows(rows[..|rows| - 1]))
  }

  function Of(id: string): Option<string> -> bool {
    (r: Option<string>) => r == Some(id)
  }

  /** The entry a project id should have: the number of rows naming it, and
      no entry at all for an id no row names. */
  function Expected(rows: seq<Option<string>>, id: string): Option<nat> {
    if Count(rows, Of(id)) == 0 then None else Some(Count(rows, Of(id)))
  }

  lemma CountSnoc(rows: seq<Option<string>>, x: Option<string>, id: string)
    ensures Count(rows + [x], Of(id)) == Count(rows, Of(id)) + (if x == Some(id) then 1 else 0)
  {
    CountIsFilterLength(rows + [x], Of(id));
    CountIsFilterLength(rows, Of(id));
    FilterAppend(rows, [x], Of(id));
    assert [x][1..] == [];
  }

  lemma CountedKey(c: Counts, rows: seq<Option<string>>, x: Option<string>, id: string)
    requires id != ""
    requires Lookup(c, id) == Expected(rows, id)
    ensures Lookup(Counted(x, c), id) == Expected(rows + [x], id)
  {
    var n := Count(rows, Of(id));
    CountSnoc(rows, x, id);
    if Truthy(x) && x.value == id {
      assert GetOr(Lookup(c, id), 0) == n;
    }
  }

  /** The object has one binding per key. */
  lemma {:induction false} CountRowsDistinct(rows: seq<Option<string>>)
    ensures DistinctKeys(CountRows(rows))
    decreases |rows|
  {
    if |rows| > 0 {
      var n := |rows| - 1;
      var prev := CountRows(rows[..n]);
      CountRowsDistinct(rows[..n]);
      if Truthy(rows[n]) {
        UpsertKeepsDistinct(prev, rows[n].value, GetOr(Lookup(prev, rows[n].value), 0) + 1);
      }
    }
  }

  /** Rows without a project count nowhere: the empty id never has an
      entry. */
  lemma {:induction false} CountRowsSkipsEmpty(rows: seq<Option<string>>)
    ensures Lookup(CountRows(rows), "").None?
    decreases |rows|
  {
    if |rows| > 0 {
      CountRowsSkipsEmpty(rows[..|rows| - 1]);
    }
  }

  /** `counts[id]` is the number of fetched rows whose project id is `id`,
      and an id no row names has no entry. */
  lemma {:induction false} CountRowsCounts(rows: seq<Option<string>>, id: string)
    requires id != ""
    ensures Lookup(CountRows(rows), id) == Expected(rows, id)
    decreases |rows|
  {
    if |rows| > 0 {
      var n := |rows| - 1;
      CountRowsCounts(rows[..n], id);
      assert rows == rows[..n] + [rows[n]];
      CountedKey(CountRows(rows[..n]), rows[..n], rows[n], id);
    }
  }

  // ---------------------------------------------------------------------------
  // The hook

  datatype Fetch = Fetched(rows: seq<Option<string>>) | FetchFailed

  /** The counts after a fetch: a failure clears them. Every change event
      leads to a fresh fetch, so the counts shown before play no part. */
  function AfterFetch(f: Fetch): (c: Counts)
    ensures f.FetchFailed? ==> c == []
    ensures f.Fetched? ==> DistinctKeys(c) && Lookup(c, "").None?
    ensures f.Fetched? ==> forall id :: id != "" ==> Lookup(c, id) == Expected(f.rows, id)
  {
    match f
    case Fetched(rows) =>
      CountRowsDistinct(rows);
      CountRowsSkipsEmpty(rows);
      forall id | id != "" ensures Lookup(CountRows(rows), id) == Expected(rows, id) {
        CountRowsCounts(rows, id);
      }
      CountRows(rows)
    case FetchFailed => []
  }
}
