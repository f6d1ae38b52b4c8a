/**
 * The size report: one row per root, ranked by `sort((a, b) => b.size - a.size)`.
 * `Array.prototype.sort` is stable, so rows of equal size keep the order of
 * the roots; the sort is modelled by a stable insertion sort.
 */
module Ranking {
  import opened World

  /** `{ file, size }`: a root and the total size of what it pulls in. */
  datatype SizeRow = SizeRow(file: Path, size: nat)

  /** Largest first. */
  predicate NonIncreasing(rows: seq<SizeRow>)
  {
    forall i, j :: 0 <= i < j < |rows| ==> rows[i].size >= rows[j].size
  }

  /** The rows of size `n`, in order. */
  function WithSize(rows: seq<SizeRow>, n: nat): seq<SizeRow>
  {
    if rows == [] then []
    else if rows[0].size == n then [rows[0]] + WithSize(rows[1..], n)
    else WithSize(rows[1..], n)
  }

  /** Place `x` before the first row that is not larger than it. */
  function Insert(x: SizeRow, rows: seq<SizeRow>): (r: seq<SizeRow>)
    ensures |r| == |rows| + 1
  {
    if rows == [] then [x]
    else if rows[0].size <= x.size then [x] + rows
    else [rows[0]] + Insert(x, rows[1..])
  }

  /** `sizeResults.sort((a, b) => b.size - a.size)`. */
  function SortBySize(rows: seq<SizeRow>): (r: seq<SizeRow>)
    ensures |r| == |rows|
  {
    if rows == [] then [] else Insert(rows[0], SortBySize(rows[1..]))
  }

  lemma {:induction false} InsertPermutes(x: SizeRow, rows: seq<SizeRow>)
    ensures multiset(Insert(x, rows)) == multiset(rows) + multiset{x}
  {
    if rows != [] && rows[0].size > x.size {
      InsertPermutes(x, rows[1..]);
      assert rows == [rows[0]] + rows[1..];
    }
  }

  /** A row no smaller than the head of an ordered list can go in front of it. */
  lemma ConsOrdered(h: SizeRow, rows: seq<SizeRow>)
    requires NonIncreasing(rows) && (|rows| > 0 ==> h.size >= rows[0].size)
    ensures NonIncreasing([h] + rows)
  {
    var r := [h] + rows;
    forall i, j | 0 <= i < j < |r| ensures r[i].size >= r[j].size {
      if i == 0 && j > 1 {
        assert r[j] == rows[j - 1];
      } else if i > 0 {
        assert r[i] == rows[i - 1] && r[j] == rows[j - 1];
      }
    }
  }

  lemma {:induction false} InsertOrders(x: SizeRow, rows: seq<SizeRow>)
    requires NonIncreasing(rows)
    ensures NonIncreasing(Insert(x, rows))
  {
    if rows == [] {
    } else if rows[0].size <= x.size {
      ConsOrdered(x, rows);
    } else {
      var tail := rows[1..];
      InsertOrders(x, tail);
      var ins := Insert(x, tail);
      assert ins[0] == x || ins[0] == tail[0];
      ConsOrdered(rows[0], ins);
    }
  }

  lemma {:induction false} InsertKeepsTies(x: SizeRow, rows: seq<SizeRow>, n: nat)
    ensures WithSize(Insert(x, rows), n) == if x.size == n then [x] + WithSize(rows, n) else WithSize(rows, n)
  {
    if rows == [] {
    } else if rows[0].size <= x.size {
      assert ([x] + rows)[1..] == rows;
    } else {
      InsertKeepsTies(x, rows[1..], n);
      assert ([rows[0]] + Insert(x, rows[1..]))[1..] == Insert(x, rows[1..]);
    }
  }

  /**
   * The ranking is largest first, holds exactly the rows it was given, and
   * keeps rows of equal size in their original order.
   */
  lemma {:induction false} SortBySizeCorrect(rows: seq<SizeRow>)
    ensures NonIncreasing(SortBySize(rows))
    ensures multiset(SortBySize(rows)) == multiset(rows)
    ensures forall n: nat :: WithSize(SortBySize(rows), n) == WithSize(rows, n)
  {
    if rows != [] {
      var tail := rows[1..];
      SortBySizeCorrect(tail);
      InsertOrders(rows[0], SortBySize(tail));
      InsertPermutes(rows[0], SortBySize(tail));
      assert rows == [rows[0]] + tail;
      forall n: nat ensures WithSize(SortBySize(rows), n) == WithSize(rows, n) {
        InsertKeepsTies(rows[0], SortBySize(tail), n);
      }
    }
  }
}
