/**
 What a dictionary filled from a list of rows holds: JavaScript's `forEach`
 writes the rows in order, so a later row overwrites an earlier one with the
 same key.
 */
module KeyedRows {
  import opened Wrappers

  /** The last row of `rows` whose key is `k`, or `None` when no row has it. */
  function LastWithKey<R(==), K(==)>(rows: seq<R>, keyOf: R -> K, k: K): (r: Option<R>)
    ensures r.None? <==> forall u :: u in rows ==> keyOf(u) != k
    ensures r.Some? ==> exists i :: 0 <= i < |rows| && rows[i] == r.value && keyOf(r.value) == k
                                 && forall j :: i < j < |rows| ==> keyOf(rows[j]) != k
  {
    if rows == [] then None
    else if keyOf(rows[|rows| - 1]) == k then Some(rows[|rows| - 1])
    else
      var front := rows[..|rows| - 1];
      assert rows == front + [rows[|rows| - 1]];
      var r := LastWithKey(front, keyOf, k);
      if r.Some? then
        var i :| 0 <= i < |front| && front[i] == r.value && keyOf(r.value) == k
                 && forall j :: i < j < |front| ==> keyOf(front[j]) != k;
        assert rows[i] == front[i];
        r
      else r
  }
}
