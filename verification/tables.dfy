/**
 Abstract tables: an ordered list of column names and a sequence of rows, each row mapping
 columns to nullable values. This module defines the two data operations the sampler is built
 from: selecting rows by key-set membership of one column, and collecting the distinct
 non-null values of one column.
 */
module Tables {

  type ColumnName = string

  /** A cell value. `Null` stands for a missing value (NaN / None in a data frame). */
  datatype Value = Null | Int(i: int) | Text(s: string)

  type Row = map<ColumnName, Value>

  datatype Table = Table(columns: seq<ColumnName>, rows: seq<Row>)

  /** The value of `col` in `row`; a column the row does not carry reads as null. */
  function Cell(row: Row, col: ColumnName): Value
  {
    if col in row then row[col] else Null
  }

  /** Every row carries exactly the table's columns. */
  ghost predicate WellFormed(t: Table)
  {
    forall r :: r in t.rows ==> r.Keys == set c | c in t.columns
  }

  /** The rows of `rows` whose `col` value is in `keys`, in their original order
      (a membership mask such as `df[df[col].isin(keys)]`). */
  function FilterRows(rows: seq<Row>, col: ColumnName, keys: set<Value>): (kept: seq<Row>)
    ensures |kept| <= |rows|
    ensures forall r :: r in kept ==> r in rows && Cell(r, col) in keys
    ensures forall r :: r in rows && Cell(r, col) in keys ==> r in kept
  {
    if rows == [] then []
    else
      assert forall r :: r in rows ==> r == rows[0] || r in rows[1..];
      if Cell(rows[0], col) in keys then [rows[0]] + FilterRows(rows[1..], col, keys)
      else FilterRows(rows[1..], col, keys)
  }

  /** A table restricted to the rows whose `col` value is in `keys`; the column list is kept. */
  function Filter(t: Table, col: ColumnName, keys: set<Value>): (r: Table)
    ensures r.columns == t.columns
    ensures forall row :: row in r.rows ==> row in t.rows && Cell(row, col) in keys
    ensures forall row :: row in t.rows && Cell(row, col) in keys ==> row in r.rows
    ensures WellFormed(t) ==> WellFormed(r)
  {
    Table(t.columns, FilterRows(t.rows, col, keys))
  }

  /** The distinct non-null values of `col` over `rows` (`df[col].dropna().unique()` as a set). */
  function NonNullValues(rows: seq<Row>, col: ColumnName): (vals: set<Value>)
    ensures forall v :: v in vals <==> v != Null && exists r :: r in rows && Cell(r, col) == v
  {
    if rows == [] then {}
    else
      assert forall r :: r in rows <==> r == rows[0] || r in rows[1..];
      var rest := NonNullValues(rows[1..], col);
      if Cell(rows[0], col) == Null then rest else {Cell(rows[0], col)} + rest
  }

  /** `idx` lists positions of `rows` in strictly increasing order. */
  ghost predicate StrictlyIncreasing(idx: seq<nat>)
  {
    forall a, b :: 0 <= a < b < |idx| ==> idx[a] < idx[b]
  }

  /** `kept` is the order-preserving subsequence of `rows` picked out by the positions `idx`,
      and those positions are exactly the rows whose `col` value is in `keys`. */
  ghost predicate IsSelection(rows: seq<Row>, kept: seq<Row>, idx: seq<nat>, col: ColumnName, keys: set<Value>)
  {
    && |idx| == |kept|
    && StrictlyIncreasing(idx)
    && (forall k :: 0 <= k < |idx| ==> idx[k] < |rows| && kept[k] == rows[idx[k]])
    && (forall i :: 0 <= i < |rows| ==> (i in idx <==> Cell(rows[i], col) in keys))
  }

  /** Every position of `sub` moved one place later. */
  function Shift(sub: seq<nat>): (shifted: seq<nat>)
    ensures |shifted| == |sub|
    ensures forall k :: 0 <= k < |sub| ==> shifted[k] == sub[k] + 1
    ensures forall i: nat :: i in shifted <==> i >= 1 && i - 1 in sub
    ensures StrictlyIncreasing(sub) ==> StrictlyIncreasing(shifted)
  {
    var shifted := seq(|sub|, k requires 0 <= k < |sub| => sub[k] + 1);
    assert forall i: nat :: i in shifted ==> i >= 1 && i - 1 in sub by {
      forall i: nat | i in shifted
        ensures i >= 1 && i - 1 in sub
      {
        var k :| 0 <= k < |shifted| && shifted[k] == i;
        assert sub[k] == i - 1;
      }
    }
    assert forall i: nat :: i >= 1 && i - 1 in sub ==> i in shifted by {
      forall i: nat | i >= 1 && i - 1 in sub
        ensures i in shifted
      {
        var k :| 0 <= k < |sub| && sub[k] == i - 1;
        assert shifted[k] == i;
      }
    }
    shifted
  }

  /** A selection over the tail of `rows` extends to `rows` when the head is dropped. */
  lemma SelectionDropHead(rows: seq<Row>, tail: seq<Row>, sub: seq<nat>, col: ColumnName, keys: set<Value>)
    requires rows != [] && Cell(rows[0], col) !in keys
    requires IsSelection(rows[1..], tail, sub, col, keys)
    ensures IsSelection(rows, tail, Shift(sub), col, keys)
  {
    var idx := Shift(sub);
    assert forall k :: 0 <= k < |idx| ==> idx[k] < |rows| && tail[k] == rows[idx[k]];
    forall i | 0 <= i < |rows|
      ensures i in idx <==> Cell(rows[i], col) in keys
    {
      if i > 0 {
        assert rows[i] == rows[1..][i - 1];
      }
    }
  }

  /** Prepending position 0 to a shifted increasing list keeps it increasing. */
  lemma PrependZeroIncreasing(sub: seq<nat>)
    requires StrictlyIncreasing(sub)
    ensures StrictlyIncreasing([0] + Shift(sub))
  {
    var shifted := Shift(sub);
    var idx := [0] + shifted;
    forall a, b | 0 <= a < b < |idx|
      ensures idx[a] < idx[b]
    {
      assert idx[b] == shifted[b - 1];
      if a > 0 {
        assert idx[a] == shifted[a - 1];
      }
    }
  }

  /** A selection over the tail of `rows` extends to `rows` when the head is kept. */
  lemma SelectionKeepHead(rows: seq<Row>, tail: seq<Row>, sub: seq<nat>, col: ColumnName, keys: set<Value>)
    requires rows != [] && Cell(rows[0], col) in keys
    requires IsSelection(rows[1..], tail, sub, col, keys)
    ensures IsSelection(rows, [rows[0]] + tail, [0] + Shift(sub), col, keys)
  {
    var shifted := Shift(sub);
    var idx := [0] + shifted;
    var kept := [rows[0]] + tail;
    PrependZeroIncreasing(sub);
    assert |idx| == |kept|;
    forall k | 0 <= k < |idx|
      ensures idx[k] < |rows| && kept[k] == rows[idx[k]]
    {
      if k > 0 {
        assert idx[k] == sub[k - 1] + 1 && kept[k] == tail[k - 1];
        assert tail[k - 1] == rows[1..][sub[k - 1]];
      }
    }
    forall i | 0 <= i < |rows|
      ensures i in idx <==> Cell(rows[i], col) in keys
    {
      if i > 0 {
        assert rows[i] == rows[1..][i - 1];
        assert i in idx <==> i in shifted;
        assert i in shifted <==> i - 1 in sub;
      }
    }
  }

  /** Filtering is a selection: it returns the positions it kept as a witness. */
  lemma {:induction false} FilterRowsIsSelection(rows: seq<Row>, col: ColumnName, keys: set<Value>)
    returns (idx: seq<nat>)
    ensures IsSelection(rows, FilterRows(rows, col, keys), idx, col, keys)
  {
    if rows == [] {
      idx := [];
    } else {
      var sub := FilterRowsIsSelection(rows[1..], col, keys);
      if Cell(rows[0], col) in keys {
        SelectionKeepHead(rows, FilterRows(rows[1..], col, keys), sub, col, keys);
        idx := [0] + Shift(sub);
      } else {
        SelectionDropHead(rows, FilterRows(rows[1..], col, keys), sub, col, keys);
        idx := Shift(sub);
      }
    }
  }

  /** Two strictly increasing position lists with the same members are equal. */
  lemma {:induction false} IncreasingSameMembersEqual(a: seq<nat>, b: seq<nat>)
    requires StrictlyIncreasing(a) && StrictlyIncreasing(b)
    requires forall x :: x in a <==> x in b
    ensures a == b
    decreases |a|
  {
    assert a != [] ==> a[0] in a;
    assert b != [] ==> b[0] in b;
    if a != [] {
      assert a[0] in b;
      assert b[0] in a;
      assert a[0] == b[0];
      forall x
        ensures x in a[1..] <==> x in b[1..]
      {
        assert x in a[1..] <==> x in a && x != a[0];
        assert x in b[1..] <==> x in b && x != b[0];
      }
      IncreasingSameMembersEqual(a[1..], b[1..]);
      assert a == [a[0]] + a[1..];
      assert b == [b[0]] + b[1..];
    }
  }

  /** A selection is unique: whatever subsequence is selected by the membership predicate
      keeping the input order is the filter's result. */
  lemma SelectionIsFilter(rows: seq<Row>, kept: seq<Row>, idx: seq<nat>, col: ColumnName, keys: set<Value>)
    requires IsSelection(rows, kept, idx, col, keys)
    ensures kept == FilterRows(rows, col, keys)
  {
    var idx' := FilterRowsIsSelection(rows, col, keys);
    var kept' := FilterRows(rows, col, keys);
    forall x
      ensures x in idx <==> x in idx'
    {
      if x in idx {
        var k :| 0 <= k < |idx| && idx[k] == x;
        assert x < |rows|;
      }
      if x in idx' {
        var k :| 0 <= k < |idx'| && idx'[k] == x;
        assert x < |rows|;
      }
    }
    IncreasingSameMembersEqual(idx, idx');
  }

  /** Keys derived from a filtered table are a subset of those derived from the unfiltered one. */
  lemma DerivedFromFilteredIsSubset(rows: seq<Row>, col: ColumnName, keys: set<Value>, srcCol: ColumnName)
    ensures NonNullValues(FilterRows(rows, col, keys), srcCol) <= NonNullValues(rows, srcCol)
  {
  }
}
