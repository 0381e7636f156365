/** The rows of a paged list, each key shown once. */
module PagedRows {

  /** The row at `k` is the first one with its key. */
  predicate IsFirst<Row>(rows: seq<Row>, keyOf: Row -> string, k: nat)
    requires k < |rows|
  {
    forall i :: 0 <= i < k ==> keyOf(rows[i]) != keyOf(rows[k])
  }

  /** The rows that are the first with their key, in order. */
  function Firsts<Row>(rows: seq<Row>, keyOf: Row -> string): seq<Row> {
    if rows == [] then []
    else
      var n := |rows| - 1;
      Firsts(rows[..n], keyOf) + if IsFirst(rows, keyOf, n) then [rows[n]] else []
  }

  /** `uniqueRows`: a map in order of insertion, filled from the first row to the last. */
  method UniqueRows<Row>(rows: seq<Row>, keyOf: Row -> string) returns (unique: seq<Row>)
    ensures unique == Firsts(rows, keyOf)
  {
    unique := [];
    var keys: set<string> := {};
    for i := 0 to |rows|
      invariant unique == Firsts(rows[..i], keyOf)
      invariant forall key :: key in keys <==> exists j :: 0 <= j < i && keyOf(rows[j]) == key
    {
      assert rows[..i + 1][..i] == rows[..i];
      if keyOf(rows[i]) !in keys {
        unique := unique + [rows[i]];
        keys := keys + {keyOf(rows[i])};
      }
    }
    assert rows[..|rows|] == rows;
  }

  ghost predicate Shows<Row(!new)>(unique: seq<Row>, keyOf: Row -> string, key: string) {
    exists j :: 0 <= j < |unique| && keyOf(unique[j]) == key
  }

  lemma ShowsMore<Row(!new)>(unique: seq<Row>, more: seq<Row>, keyOf: Row -> string, key: string)
    ensures Shows(unique + more, keyOf, key) <==> Shows(unique, keyOf, key) || Shows(more, keyOf, key)
  {
    if Shows(unique, keyOf, key) {
      var j :| 0 <= j < |unique| && keyOf(unique[j]) == key;
      assert (unique + more)[j] == unique[j];
    } else if Shows(more, keyOf, key) {
      var j :| 0 <= j < |more| && keyOf(more[j]) == key;
      assert (unique + more)[|unique| + j] == more[j];
    }
  }

  /** Every key that occurs is shown, and none other. */
  lemma {:induction false} EveryKeyIsShown<Row(!new)>(rows: seq<Row>, keyOf: Row -> string, key: string)
    ensures Shows(Firsts(rows, keyOf), keyOf, key) <==> Shows(rows, keyOf, key)
    decreases |rows|
  {
    if rows != [] {
      var n := |rows| - 1;
      EveryKeyIsShown(rows[..n], keyOf, key);
      assert rows == rows[..n] + [rows[n]];
      ShowsMore(rows[..n], [rows[n]], keyOf, key);
      ShowsMore(Firsts(rows[..n], keyOf), if IsFirst(rows, keyOf, n) then [rows[n]] else [], keyOf, key);
      if !IsFirst(rows, keyOf, n) && keyOf(rows[n]) == key {
        var i :| 0 <= i < n && keyOf(rows[i]) == keyOf(rows[n]);
        assert rows[..n][i] == rows[i];
      }
    }
  }

  /** No key is shown twice. */
  lemma {:induction false} NoKeyTwice<Row(!new)>(rows: seq<Row>, keyOf: Row -> string)
    ensures forall i, j :: 0 <= i < j < |Firsts(rows, keyOf)| ==> keyOf(Firsts(rows, keyOf)[i]) != keyOf(Firsts(rows, keyOf)[j])
    decreases |rows|
  {
    if rows != [] {
      var n := |rows| - 1;
      NoKeyTwice(rows[..n], keyOf);
      EveryKeyIsShown(rows[..n], keyOf, keyOf(rows[n]));
    }
  }

  /** A further page leaves the rows already shown where they are. */
  lemma {:induction false} ShownRowsStay<Row>(rows: seq<Row>, page: seq<Row>, keyOf: Row -> string)
    ensures Firsts(rows, keyOf) <= Firsts(rows + page, keyOf)
    decreases |page|
  {
    if page == [] {
      assert rows + page == rows;
    } else {
      var m := |page| - 1;
      ShownRowsStay(rows, page[..m], keyOf);
      assert (rows + page)[..|rows + page| - 1] == rows + page[..m];
    }
  }
}
