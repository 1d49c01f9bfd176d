/** GET /api/leaderboard: the winning rows of the external results table,
    folded into a name -> number-of-wins map. Only the fold is modelled;
    `rows` holds the Name field of every row the table returns for the
    filter `{Result}=1`, page after page. */
module Leaderboard {
  import opened Options

  /** The key used for a row without a name. */
  const Anonymous: string := "Anonymous"

  /** `r.get("Name") || "Anonymous"`: an absent or empty name counts for
      "Anonymous". */
  function RowKey(name: Option<string>): (k: string)
    ensures k != ""
    ensures name.Some? && name.value != "" ==> k == name.value
    ensures name.None? || name.value == "" ==> k == Anonymous
  {
    match name
    case Some(n) => if n == "" then Anonymous else n
    case None => Anonymous
  }

  /** The number of rows that count for `k`. */
  function CountKey(rows: seq<Option<string>>, k: string): nat {
    if rows == [] then 0
    else CountKey(rows[..|rows| - 1], k) + (if RowKey(rows[|rows| - 1]) == k then 1 else 0)
  }

  /** The sum of all counts of a map. */
  ghost function MapSum(m: map<string, nat>): nat
    decreases |m|
  {
    if m == map[] then 0
    else
      var k :| k in m;
      assert (m - {k}).Keys == m.Keys - {k};
      m[k] + MapSum(m - {k})
  }

  /** The sum does not depend on which key is taken out first. */
  lemma MapSumRemove(m: map<string, nat>, k: string)
    requires k in m
    ensures MapSum(m) == m[k] + MapSum(m - {k})
    decreases |m|
  {
    var j :| j in m && MapSum(m) == m[j] + MapSum(m - {j});
    if j != k {
      assert (m - {j}).Keys == m.Keys - {j};
      assert (m - {k}).Keys == m.Keys - {k};
      MapSumRemove(m - {j}, k);
      MapSumRemove(m - {k}, j);
      assert m - {j} - {k} == m - {k} - {j};
    }
  }

  /** `counts[n] = (counts[n] || 0) + 1` adds one to the total. */
  lemma MapSumBump(m: map<string, nat>, k: string)
    ensures MapSum(m[k := (if k in m then m[k] else 0) + 1]) == MapSum(m) + 1
  {
    var m' := m[k := (if k in m then m[k] else 0) + 1];
    MapSumRemove(m', k);
    assert m' - {k} == m - {k};
    if k in m {
      MapSumRemove(m, k);
    } else {
      assert m - {k} == m;
    }
  }

  /** A key has a positive count exactly when some row has that key. */
  lemma {:induction false} CountKeyPositive(rows: seq<Option<string>>, k: string)
    ensures CountKey(rows, k) > 0 <==> exists i :: 0 <= i < |rows| && RowKey(rows[i]) == k
  {
    if rows != [] {
      var init := rows[..|rows| - 1];
      CountKeyPositive(init, k);
      if exists i :: 0 <= i < |init| && RowKey(init[i]) == k {
        var i :| 0 <= i < |init| && RowKey(init[i]) == k;
        assert rows[i] == init[i];
      }
      if exists i :: 0 <= i < |rows| && RowKey(rows[i]) == k {
        var i :| 0 <= i < |rows| && RowKey(rows[i]) == k;
        if i < |init| {
          assert init[i] == rows[i];
        }
      }
    }
  }

  /** The leaderboard fold. Every row adds exactly one to the count of its
      key: the keys are the keys of the rows, each count is the number of
      rows with that key, and the counts add up to the number of rows. */
  method WinCounts(rows: seq<Option<string>>) returns (counts: map<string, nat>)
    ensures forall k :: k in counts <==> exists i :: 0 <= i < |rows| && RowKey(rows[i]) == k
    ensures forall k :: k in counts ==> counts[k] == CountKey(rows, k)
    ensures MapSum(counts) == |rows|
  {
    counts := map[];
    var i := 0;
    while i < |rows|
      invariant 0 <= i <= |rows|
      invariant forall k :: k in counts ==> counts[k] == CountKey(rows[..i], k) && counts[k] > 0
      invariant forall k :: k !in counts ==> CountKey(rows[..i], k) == 0
      invariant MapSum(counts) == i
    {
      var n := RowKey(rows[i]);
      MapSumBump(counts, n);
      ghost var prefix := rows[..i + 1];
      assert prefix[..i] == rows[..i];
      counts := counts[n := (if n in counts then counts[n] else 0) + 1];
      i := i + 1;
    }
    assert rows[..i] == rows;
    forall k ensures k in counts <==> exists j :: 0 <= j < |rows| && RowKey(rows[j]) == k {
      CountKeyPositive(rows, k);
    }
  }
}
