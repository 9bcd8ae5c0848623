/**
 * The row order of `save_to_csv`: `Counter.most_common()`, the counter's
 * (word, frequency) entries sorted by non-increasing frequency. Writing the
 * rows to a file is outside the model.
 */
module Rows {
  import opened Counters

  type Row = (string, nat)

  predicate NonIncreasing(rows: seq<Row>) {
    forall i, j :: 0 <= i < j < |rows| ==> rows[i].1 >= rows[j].1
  }

  /** No word heads two rows. */
  predicate DistinctWords(rows: seq<Row>) {
    forall i, j :: 0 <= i < j < |rows| ==> rows[i].0 != rows[j].0
  }

  /**
   * Places `row` after every row of at least its frequency and before the
   * first row of lower frequency, so rows of equal frequency keep the order
   * in which they were inserted.
   */
  function Insert(rows: seq<Row>, row: Row): seq<Row> {
    if rows == [] || row.1 > rows[0].1 then [row] + rows
    else [rows[0]] + Insert(rows[1..], row)
  }

  /** Inserting adds exactly the one row. */
  lemma {:induction false} InsertPermutes(rows: seq<Row>, row: Row)
    ensures multiset(Insert(rows, row)) == multiset(rows) + multiset{row}
  {
    if rows != [] && row.1 <= rows[0].1 {
      InsertPermutes(rows[1..], row);
      assert rows == [rows[0]] + rows[1..];
    }
  }

  /** Inserting into rows of non-increasing frequency keeps them so. */
  lemma {:induction false} InsertSorted(rows: seq<Row>, row: Row)
    requires NonIncreasing(rows)
    ensures NonIncreasing(Insert(rows, row))
  {
    if rows != [] && row.1 <= rows[0].1 {
      var rest := Insert(rows[1..], row);
      InsertSorted(rows[1..], row);
      InsertPermutes(rows[1..], row);
      forall i | 0 <= i < |rest| ensures rest[i].1 <= rows[0].1 {
        assert rest[i] in multiset(rows[1..]) + multiset{row};
        if rest[i] != row {
          var k :| 0 <= k < |rows[1..]| && rows[1..][k] == rest[i];
          assert rows[k + 1] == rest[i];
        }
      }
    }
  }

  /** Inserting a row whose word is new keeps every word on one row only. */
  lemma {:induction false} InsertKeepsDistinct(rows: seq<Row>, row: Row)
    requires NonIncreasing(rows) && DistinctWords(rows)
    requires forall i :: 0 <= i < |rows| ==> rows[i].0 != row.0
    ensures DistinctWords(Insert(rows, row))
  {
    if rows != [] && row.1 <= rows[0].1 {
      var rest := Insert(rows[1..], row);
      InsertKeepsDistinct(rows[1..], row);
      assert rows == [rows[0]] + rows[1..];
      InsertPermutes(rows[1..], row);
      forall i | 0 <= i < |rest| ensures rest[i].0 != rows[0].0 {
        assert rest[i] in multiset(rows[1..]) + multiset{row};
      }
    }
  }

  /**
   * `counter.most_common()`: takes the entries one by one and inserts each
   * into the sorted list of rows.
   */
  method MostCommon(counter: Counter) returns (rows: seq<Row>)
    ensures NonIncreasing(rows)
    ensures forall row :: row in rows <==> row.0 in counter && counter[row.0] == row.1
    ensures DistinctWords(rows)
    ensures |rows| == |counter|
  {
    rows := [];
    var remaining := counter.Keys;
    while remaining != {}
      invariant remaining <= counter.Keys
      invariant NonIncreasing(rows) && DistinctWords(rows)
      invariant forall row :: row in rows <==> row.0 in counter && row.0 !in remaining && counter[row.0] == row.1
      invariant |rows| + |remaining| == |counter|
      decreases remaining
    {
      var word :| word in remaining;
      var row := (word, counter[word]);
      ghost var rows' := Insert(rows, row);
      InsertPermutes(rows, row);
      InsertSorted(rows, row);
      forall r | r in rows' ensures r in rows || r == row {
        assert r in multiset(rows');
      }
      forall r | r in rows || r == row ensures r in rows' {
        assert r in multiset(rows');
      }
      InsertKeepsDistinct(rows, row);
      rows := Insert(rows, row);
      remaining := remaining - {word};
    }
  }
}
