/** The one SQL form the data access objects share: `SELECT … WHERE cond`. */
module Sql {

  /** The rows satisfying `cond`, in table order. */
  function Where<T(!new)>(rows: seq<T>, cond: T -> bool): (r: seq<T>)
    ensures |r| <= |rows|
    ensures forall x :: x in r <==> x in rows && cond(x)
  {
    if |rows| == 0 then []
    else
      assert rows == [rows[0]] + rows[1..];
      if cond(rows[0]) then [rows[0]] + Where(rows[1..], cond)
      else Where(rows[1..], cond)
  }

  /** Where every row satisfies `cond`, nothing is dropped. */
  lemma {:induction false} WhereAll<T(!new)>(rows: seq<T>, cond: T -> bool)
    ensures (forall k :: 0 <= k < |rows| ==> cond(rows[k])) ==> Where(rows, cond) == rows
  {
    if |rows| > 0 && forall k :: 0 <= k < |rows| ==> cond(rows[k]) {
      WhereAll(rows[1..], cond);
    }
  }

  /** A condition and its negation split the rows between them: every row lands in exactly one result. */
  lemma {:induction false} WherePartition<T(!new)>(rows: seq<T>, cond: T -> bool, other: T -> bool)
    requires forall x :: other(x) == !cond(x)
    ensures multiset(Where(rows, cond)) + multiset(Where(rows, other)) == multiset(rows)
    ensures |Where(rows, cond)| + |Where(rows, other)| == |rows|
  {
    if |rows| > 0 {
      WherePartition(rows[1..], cond, other);
      assert rows == [rows[0]] + rows[1..];
    }
  }

  /** Filtering distributes over appending rows. */
  lemma {:induction false} WhereAppend<T(!new)>(rows: seq<T>, more: seq<T>, cond: T -> bool)
    ensures Where(rows + more, cond) == Where(rows, cond) + Where(more, cond)
  {
    if |rows| > 0 {
      assert (rows + more)[1..] == rows[1..] + more;
      WhereAppend(rows[1..], more, cond);
    } else {
      assert rows + more == more;
    }
  }

  /**
   * The primary key an `AUTOINCREMENT` table gives a new row: Room binds an
   * id of 0 as null, and a null key becomes one more than the largest key
   * the table has ever held (`sequence`); any other id is kept.
   */
  function RowId(sequence: int, id: int): (r: int)
    ensures id == 0 ==> r > sequence
    ensures id != 0 ==> r == id
  {
    if id == 0 then sequence + 1 else id
  }
}
