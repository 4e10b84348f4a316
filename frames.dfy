/**
 * The two shapes of table the script handles, and the errors it can die with.
 *
 * A `Table` is a data frame indexed by a string row label (the aggregate
 * table of per-sample summaries, indexed by "project-sample"). A `Frame` is a
 * data frame read back from CSV text: the label is an ordinary first column
 * and the index is positional.
 */
module Frames {

  /** The exceptions the script lets escape, one per way it can fail. */
  datatype Error =
    | EmptyListing                                 // `samples[0]` on an empty directory listing
    | MissingSummary(sample: string)               // `pd.read_csv` of a summary file that is not there
    | RowCountMismatch(sample: string, rows: nat)  // `data.index = [label]` on a file without exactly one data row
    | TooFewColumns(columns: nat)                  // `cols[i]` past the end of the column list
    | NotAnInteger                                 // `int(...)` inside the integer converter
    | ColumnCountMismatch(columns: nat)            // `mqdf.columns = [...]` with the wrong number of names

  datatype Result<T> = Ok(value: T) | Err(error: Error) {
    predicate IsFailure() { Err? }

    function PropagateFailure<U>(): Result<U>
      requires Err?
    {
      Err(error)
    }

    function Extract(): T
      requires Ok?
    {
      value
    }
  }

  /** One labelled row of the aggregate table. */
  datatype Row = Row(id: string, cells: seq<string>)

  datatype Table = Table(columns: seq<string>, rows: seq<Row>)

  /** A table read back from text: a header and positional rows. */
  datatype Frame<T> = Frame(columns: seq<string>, rows: seq<seq<T>>)

  /** Every row has one cell per column: one identical schema for all rows. */
  predicate WellFormed(t: Table)
  {
    forall i :: 0 <= i < |t.rows| ==> |t.rows[i].cells| == |t.columns|
  }

  predicate WellFormedFrame<T>(f: Frame<T>)
  {
    forall i :: 0 <= i < |f.rows| ==> |f.rows[i]| == |f.columns|
  }

  /**
   * `pd.concat([a, b], axis=0)` for two tables with one identical schema:
   * the rows of `b` go below those of `a`.
   */
  function Concat(a: Table, b: Table): (r: Table)
    requires a.columns == b.columns
    ensures r.columns == a.columns
    ensures |r.rows| == |a.rows| + |b.rows|
    ensures forall i :: 0 <= i < |a.rows| ==> r.rows[i] == a.rows[i]
    ensures forall j :: 0 <= j < |b.rows| ==> r.rows[|a.rows| + j] == b.rows[j]
    ensures WellFormed(a) && WellFormed(b) ==> WellFormed(r)
  {
    Table(a.columns, a.rows + b.rows)
  }

  /** Pairwise distinct elements. */
  predicate Distinct<T(==)>(s: seq<T>)
  {
    forall i, j :: 0 <= i < j < |s| ==> s[i] != s[j]
  }

  predicate InBounds(idx: seq<nat>, n: nat)
  {
    forall k :: 0 <= k < |idx| ==> idx[k] < n
  }

  /** The elements of `s` at the positions `idx`, in the order of `idx`. */
  function Project<T>(s: seq<T>, idx: seq<nat>): (r: seq<T>)
    requires InBounds(idx, |s|)
    ensures |r| == |idx|
    ensures forall k :: 0 <= k < |idx| ==> r[k] == s[idx[k]]
    ensures forall x :: x in r ==> x in s
  {
    seq(|idx|, k requires 0 <= k < |idx| => s[idx[k]])
  }

  /** Projecting distinct elements at distinct positions yields distinct elements. */
  lemma ProjectDistinct<T>(s: seq<T>, idx: seq<nat>)
    requires InBounds(idx, |s|) && Distinct(s) && Distinct(idx)
    ensures Distinct(Project(s, idx))
  {
    var r := Project(s, idx);
    forall i, j | 0 <= i < j < |r| ensures r[i] != r[j] {
      assert r[i] == s[idx[i]] && r[j] == s[idx[j]];
      assert idx[i] != idx[j];
    }
  }

  /**
   * The text table that `to_csv` writes for a table whose index is named
   * `indexName`, as `read_csv` gives it back: the label becomes the first
   * column, the cells follow in order.
   */
  function WithIndexColumn(t: Table, indexName: string): (f: Frame<string>)
    ensures |f.columns| == |t.columns| + 1 && f.columns[0] == indexName && f.columns[1..] == t.columns
    ensures |f.rows| == |t.rows|
    ensures forall i :: 0 <= i < |t.rows| ==> |f.rows[i]| == |t.rows[i].cells| + 1 && f.rows[i][0] == t.rows[i].id && f.rows[i][1..] == t.rows[i].cells
    ensures WellFormed(t) ==> WellFormedFrame(f)
  {
    Frame([indexName] + t.columns, seq(|t.rows|, i requires 0 <= i < |t.rows| => [t.rows[i].id] + t.rows[i].cells))
  }
}
