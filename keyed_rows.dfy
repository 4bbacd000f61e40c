/**
 * Dictionaries built from query rows, as `{key(r): r for r in rows}` or a
 * loop assigning `d[key(r)] = ...`: a later row replaces an earlier one with
 * the same key, and iteration follows first insertion.
 */
module KeyedRows {

  /** The dictionary built from `rows`: for each key, the last row with that key. */
  function LastWins<T(==)>(rows: seq<T>, key: T -> int): (m: map<int, T>)
    ensures forall k :: k in m <==> exists i :: 0 <= i < |rows| && key(rows[i]) == k
    ensures forall k :: k in m ==> key(m[k]) == k && m[k] in rows
  {
    if rows == [] then map[]
    else
      var prefix, last := rows[..|rows| - 1], rows[|rows| - 1];
      var m := LastWins(prefix, key);
      assert forall i :: 0 <= i < |prefix| ==> prefix[i] == rows[i];
      m[key(last) := last]
  }

  /**
   * The row stored under a key is the last row with that key; in particular,
   * when only one row has the key, it is that row.
   */
  lemma {:induction false} LastWinsIsLast<T>(rows: seq<T>, key: T -> int, i: nat)
    requires i < |rows|
    requires forall j :: i < j < |rows| ==> key(rows[j]) != key(rows[i])
    ensures LastWins(rows, key)[key(rows[i])] == rows[i]
  {
    if i < |rows| - 1 {
      var prefix := rows[..|rows| - 1];
      assert forall j :: 0 <= j < |prefix| ==> prefix[j] == rows[j];
      LastWinsIsLast(prefix, key, i);
    }
  }

  predicate Distinct(ks: seq<int>) {
    forall i, j :: 0 <= i < j < |ks| ==> ks[i] != ks[j]
  }

  /** The keys of `LastWins(rows, key)` in the order the dictionary iterates them. */
  function FirstSeen<T(==)>(rows: seq<T>, key: T -> int): (ks: seq<int>)
    ensures Distinct(ks)
    ensures forall k :: k in ks <==> k in LastWins(rows, key)
  {
    if rows == [] then []
    else
      var prefix, last := rows[..|rows| - 1], rows[|rows| - 1];
      var ks := FirstSeen(prefix, key);
      assert forall i :: 0 <= i < |prefix| ==> prefix[i] == rows[i];
      if key(last) in ks then ks else ks + [key(last)]
  }

  /** Builds the dictionary row by row, keeping its keys in insertion order. */
  method IndexRows<T(==)>(rows: seq<T>, key: T -> int) returns (keys: seq<int>, m: map<int, T>)
    ensures keys == FirstSeen(rows, key) && m == LastWins(rows, key)
  {
    keys, m := [], map[];
    for i := 0 to |rows|
      invariant keys == FirstSeen(rows[..i], key)
      invariant m == LastWins(rows[..i], key)
    {
      assert rows[..i + 1][..i] == rows[..i];
      var k := key(rows[i]);
      if k !in m {
        keys := keys + [k];
      }
      m := m[k := rows[i]];
    }
    assert rows[..|rows|] == rows;
  }
}
