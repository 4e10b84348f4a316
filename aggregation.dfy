/**
 * Discovery, aggregation and column selection
 * (bin/ctg-sc-atac-count-metrics-concat.py:35-59).
 *
 * Each sample named in the project's `count-cr/` listing has a summary file
 * under `qc/cellranger/`; its single data row is labelled
 * "<project>-<sample>" and the rows are stacked in listing order. Then a fixed
 * list of 22 source positions picks and orders the columns of the plain CSV.
 */
module Aggregation {
  import opened Frames
  import opened Decimal

  /** One `<sample>.summary.csv` as `pd.read_csv` parses it. */
  datatype Summary = Summary(columns: seq<string>, rows: seq<seq<string>>)

  /**
   * What `pd.read_csv` returns: every row as wide as the header, and no name
   * repeated in the header (pandas renames a repeated name on reading), so that
   * selecting by name at line 56 and by position agree.
   */
  predicate Parsed(s: Summary)
  {
    && Distinct(s.columns)
    && (forall i :: 0 <= i < |s.rows| ==> |s.rows[i]| == |s.columns|)
  }

  /**
   * The summary files of the listed samples that are present, all parsed and
   * sharing one header: the script assumes a homogeneous upstream schema.
   */
  predicate Homogeneous(samples: seq<string>, files: map<string, Summary>)
  {
    && (forall i :: 0 <= i < |samples| && samples[i] in files ==> Parsed(files[samples[i]]))
    && (forall i, j :: 0 <= i < |samples| && 0 <= j < |samples| && samples[i] in files && samples[j] in files ==>
          files[samples[i]].columns == files[samples[j]].columns)
  }

  /** The row label `projid + "-" + sname`. */
  function RowId(projid: string, sample: string): (id: string)
    ensures |id| == |projid| + 1 + |sample|
    ensures id[..|projid|] == projid && id[|projid|] == '-' && id[|projid| + 1..] == sample
  {
    projid + "-" + sample
  }

  /** Within one project, different samples get different labels. */
  lemma RowIdInjective(projid: string, a: string, b: string)
    ensures RowId(projid, a) == RowId(projid, b) ==> a == b
  {
    var n := |projid| + 1;
    assert RowId(projid, a)[n..] == a;
    assert RowId(projid, b)[n..] == b;
  }

  /** The file for `sample` exists and holds exactly one data row. */
  predicate Loadable(files: map<string, Summary>, sample: string)
  {
    sample in files && |files[sample].rows| == 1
  }

  /** The row that `sample` contributes once loaded and labelled. */
  function SampleRow(projid: string, files: map<string, Summary>, sample: string): Row
    requires Loadable(files, sample)
  {
    Row(RowId(projid, sample), files[sample].rows[0])
  }

  /**
   * Lines 42-44 (and 48-50): read the sample's file and set its index to the
   * one label. A missing file raises; so does a label list whose length
   * differs from the number of data rows.
   */
  function Load(projid: string, files: map<string, Summary>, sample: string): (r: Result<Table>)
    ensures r.Ok? <==> Loadable(files, sample)
  {
    if sample !in files then Err(MissingSummary(sample))
    else if |files[sample].rows| != 1 then Err(RowCountMismatch(sample, |files[sample].rows|))
    else Ok(Table(files[sample].columns, [SampleRow(projid, files, sample)]))
  }

  /**
   * The table after the samples of a non-empty listing have been loaded in
   * order: the first starts the table, each later one is appended below it,
   * and the first failing load ends the run.
   */
  function Gathered(projid: string, samples: seq<string>, files: map<string, Summary>): (r: Result<Table>)
    requires |samples| > 0 && Homogeneous(samples, files)
    ensures r.Ok? ==> samples[0] in files && r.value.columns == files[samples[0]].columns && WellFormed(r.value)
    decreases |samples|
  {
    if |samples| == 1 then Load(projid, files, samples[0])
    else
      var final :- Gathered(projid, samples[..|samples| - 1], files);
      var data :- Load(projid, files, samples[|samples| - 1]);
      Ok(Concat(final, data))
  }

  /** Lines 38-51: the aggregate table of a directory listing; `samples[0]` fails on an empty one. */
  function Aggregated(projid: string, samples: seq<string>, files: map<string, Summary>): (r: Result<Table>)
    requires Homogeneous(samples, files)
    ensures r.Ok? ==> WellFormed(r.value)
  {
    if |samples| == 0 then Err(EmptyListing) else Gathered(projid, samples, files)
  }

  lemma {:induction false} GatheredOkIff(projid: string, samples: seq<string>, files: map<string, Summary>)
    requires |samples| > 0 && Homogeneous(samples, files)
    ensures Gathered(projid, samples, files).Ok? <==> forall i :: 0 <= i < |samples| ==> Loadable(files, samples[i])
    decreases |samples|
  {
    if |samples| > 1 {
      var init := samples[..|samples| - 1];
      GatheredOkIff(projid, init, files);
      assert forall i :: 0 <= i < |init| ==> init[i] == samples[i];
    }
  }

  lemma {:induction false} GatheredRows(projid: string, samples: seq<string>, files: map<string, Summary>)
    requires |samples| > 0 && Homogeneous(samples, files)
    requires Gathered(projid, samples, files).Ok?
    ensures var t := Gathered(projid, samples, files).value;
      && WellFormed(t)
      && |t.rows| == |samples|
      && forall i :: 0 <= i < |samples| ==>
           Loadable(files, samples[i]) && t.rows[i] == SampleRow(projid, files, samples[i])
    decreases |samples|
  {
    if |samples| > 1 {
      var init := samples[..|samples| - 1];
      GatheredRows(projid, init, files);
      assert forall i :: 0 <= i < |init| ==> init[i] == samples[i];
    }
  }

  /** A failing run reports the first sample in listing order whose file cannot be loaded. */
  lemma {:induction false} GatheredFirstError(projid: string, samples: seq<string>, files: map<string, Summary>)
    requires |samples| > 0 && Homogeneous(samples, files)
    requires Gathered(projid, samples, files).Err?
    ensures exists k :: (0 <= k < |samples|
      && (forall i :: 0 <= i < k ==> Loadable(files, samples[i]))
      && Load(projid, files, samples[k]) == Gathered(projid, samples, files))
    decreases |samples|
  {
    var n := |samples|;
    if n > 1 {
      var init := samples[..n - 1];
      assert forall i :: 0 <= i < |init| ==> init[i] == samples[i];
      if Gathered(projid, init, files).Err? {
        GatheredFirstError(projid, init, files);
        var k :| 0 <= k < |init|
          && (forall i :: 0 <= i < k ==> Loadable(files, init[i]))
          && Load(projid, files, init[k]) == Gathered(projid, init, files);
        assert samples[k] == init[k];
      } else {
        GatheredOkIff(projid, init, files);
        assert Load(projid, files, samples[n - 1]) == Gathered(projid, samples, files);
      }
    } else {
      assert Load(projid, files, samples[0]) == Gathered(projid, samples, files);
    }
  }

  /** Once a prefix of the listing fails, the whole listing fails the same way. */
  lemma {:induction false} GatheredErrPersists(projid: string, samples: seq<string>, files: map<string, Summary>, n: nat)
    requires Homogeneous(samples, files) && 1 <= n <= |samples|
    requires Gathered(projid, samples[..n], files).Err?
    ensures Gathered(projid, samples, files) == Gathered(projid, samples[..n], files)
    decreases |samples| - n
  {
    if n < |samples| {
      var init := samples[..|samples| - 1];
      assert init[..n] == samples[..n];
      GatheredErrPersists(projid, init, files, n);
    } else {
      assert samples[..n] == samples;
    }
  }

  /** The aggregate exists exactly when the listing is non-empty and every sample's file loads. */
  lemma AggregatedOkIff(projid: string, samples: seq<string>, files: map<string, Summary>)
    requires Homogeneous(samples, files)
    ensures Aggregated(projid, samples, files).Ok? <==>
      |samples| > 0 && forall i :: 0 <= i < |samples| ==> Loadable(files, samples[i])
  {
    if |samples| > 0 {
      GatheredOkIff(projid, samples, files);
    }
  }

  /** One row per sample, in listing order, labelled "<project>-<sample>", under the first sample's header. */
  lemma AggregatedRows(projid: string, samples: seq<string>, files: map<string, Summary>)
    requires Homogeneous(samples, files)
    requires Aggregated(projid, samples, files).Ok?
    ensures var t := Aggregated(projid, samples, files).value;
      && |samples| > 0
      && WellFormed(t)
      && t.columns == files[samples[0]].columns
      && |t.rows| == |samples|
      && forall i :: 0 <= i < |samples| ==>
           Loadable(files, samples[i])
           && t.rows[i].id == projid + "-" + samples[i]
           && t.rows[i].cells == files[samples[i]].rows[0]
  {
    GatheredRows(projid, samples, files);
  }

  /** The error of a failed run: an empty listing, or the first sample whose file cannot be loaded. */
  lemma AggregatedError(projid: string, samples: seq<string>, files: map<string, Summary>)
    requires Homogeneous(samples, files)
    requires Aggregated(projid, samples, files).Err?
    ensures var e := Aggregated(projid, samples, files).error;
      || (|samples| == 0 && e == EmptyListing)
      || exists k :: 0 <= k < |samples|
           && (forall i :: 0 <= i < k ==> Loadable(files, samples[i]))
           && !Loadable(files, samples[k])
           && e == Load(projid, files, samples[k]).error
           && (e == MissingSummary(samples[k]) || (e.RowCountMismatch? && e.sample == samples[k]))
  {
    if |samples| > 0 {
      GatheredFirstError(projid, samples, files);
    }
  }

  /** Distinct sample names (a directory listing has no repeats) give distinct row labels. */
  lemma AggregatedIdsDistinct(projid: string, samples: seq<string>, files: map<string, Summary>)
    requires Homogeneous(samples, files) && Distinct(samples)
    requires Aggregated(projid, samples, files).Ok?
    ensures var t := Aggregated(projid, samples, files).value;
      forall i, j :: 0 <= i < j < |t.rows| ==> t.rows[i].id != t.rows[j].id
  {
    AggregatedRows(projid, samples, files);
    var t := Aggregated(projid, samples, files).value;
    forall i, j | 0 <= i < j < |t.rows| ensures t.rows[i].id != t.rows[j].id {
      RowIdInjective(projid, samples[i], samples[j]);
    }
  }

  /** Lines 47-51: appending one more sample keeps every earlier row and adds exactly its row at the end. */
  lemma AppendSample(projid: string, samples: seq<string>, files: map<string, Summary>, sample: string)
    requires Homogeneous(samples + [sample], files) && |samples| > 0
    requires Aggregated(projid, samples + [sample], files).Ok?
    ensures Aggregated(projid, samples, files).Ok?
    ensures var before, after := Aggregated(projid, samples, files).value, Aggregated(projid, samples + [sample], files).value;
      && after.columns == before.columns
      && after.rows == before.rows + [SampleRow(projid, files, sample)]
  {
    assert (samples + [sample])[..|samples|] == samples;
  }

  /**
   * The loop of lines 41-51, rebinding `final` once per sample. It ends the
   * run at the first failure, as the script's unhandled exceptions do.
   */
  method Aggregate(projid: string, samples: seq<string>, files: map<string, Summary>) returns (r: Result<Table>)
    requires Homogeneous(samples, files)
    ensures r == Aggregated(projid, samples, files)
  {
    if |samples| == 0 {
      return Err(EmptyListing);
    }
    var sname := samples[0];
    var first := Load(projid, files, sname);
    if first.Err? {
      GatheredErrPersists(projid, samples, files, 1);
      return first;
    }
    var final := first.value;
    var i := 1;
    while i < |samples|
      invariant 1 <= i <= |samples|
      invariant Gathered(projid, samples[..i], files) == Ok(final)
    {
      sname := samples[i];
      var data := Load(projid, files, sname);
      assert samples[..i + 1][..i] == samples[..i];
      if data.Err? {
        GatheredErrPersists(projid, samples, files, i + 1);
        return Err(data.error);
      }
      final := Concat(final, data.value);
      i := i + 1;
    }
    assert samples[..i] == samples;
    r := Ok(final);
  }

  // ---------------------------------------------------------------------------
  // Column selection (lines 54-56)

  /** The positions of the per-sample header that the plain CSV keeps, in output order. */
  const SelectedColumns: seq<nat> := [3, 4, 7, 8, 9, 10, 11, 12, 13, 14, 16, 15, 17, 18, 19, 20, 21, 22, 23, 24, 25, 26]

  /** The positions left out of the plain CSV. */
  const DroppedColumns: set<nat> := {0, 1, 2, 5, 6}

  /** Lines 54-56: keep the selected columns, in the selected order, in the header and in every row. */
  function Select(t: Table): (r: Result<Table>)
    requires WellFormed(t)
    ensures r.Ok? <==> |t.columns| >= 27
    ensures r.Err? ==> r.error == TooFewColumns(|t.columns|)
    ensures r.Ok? ==> var s := r.value;
      && WellFormed(s)
      && |s.columns| == 22
      && (forall k :: 0 <= k < 22 ==> s.columns[k] == t.columns[SelectedColumns[k]])
      && |s.rows| == |t.rows|
      && forall i :: 0 <= i < |t.rows| ==>
           s.rows[i].id == t.rows[i].id
           && forall k :: 0 <= k < 22 ==> s.rows[i].cells[k] == t.rows[i].cells[SelectedColumns[k]]
  {
    if |t.columns| < 27 then Err(TooFewColumns(|t.columns|))
    else
      assert InBounds(SelectedColumns, |t.columns|);
      Ok(Table(Project(t.columns, SelectedColumns),
               seq(|t.rows|, i requires 0 <= i < |t.rows| =>
                 Row(t.rows[i].id, Project(t.rows[i].cells, SelectedColumns)))))
  }

  /** Output position k of the selection list, in closed form. */
  function SourcePosition(k: nat): nat
  {
    if k < 2 then k + 3 else if k == 10 then 16 else if k == 11 then 15 else k + 5
  }

  lemma SelectedColumnsClosedForm()
    ensures |SelectedColumns| == 22
    ensures forall k :: 0 <= k < 22 ==> SelectedColumns[k] == SourcePosition(k)
  {
  }

  /**
   * Shape of the selection list: 22 distinct positions below 27, the 16/15
   * swap at output positions 10 and 11, and exactly the positions 0, 1, 2, 5
   * and 6 of the 27-column schema left out.
   */
  lemma SelectedColumnsShape()
    ensures |SelectedColumns| == 22 && Distinct(SelectedColumns) && InBounds(SelectedColumns, 27)
    ensures SelectedColumns[10] == 16 && SelectedColumns[11] == 15
    ensures forall j :: 0 <= j < 27 ==> (j in SelectedColumns <==> j !in DroppedColumns)
  {
    SelectedColumnsClosedForm();
    var s := SelectedColumns;
    forall j | 0 <= j < 27 ensures j in s <==> j !in DroppedColumns {
      if j !in DroppedColumns {
        var k := if j < 5 then j - 3 else if j == 15 then 11 else if j == 16 then 10 else j - 5;
        assert s[k] == j;
      } else {
        forall k | 0 <= k < 22 ensures s[k] != j { }
      }
    }
  }

  /** The positions 0..n-1 that are kept, ascending. */
  function KeptBelow(n: nat): (r: seq<nat>)
    ensures |r| <= n && InBounds(r, n)
  {
    if n == 0 then [] else KeptBelow(n - 1) + (if n - 1 in DroppedColumns then [] else [n - 1])
  }

  lemma {:induction false} KeptBelowClosedForm(n: nat)
    requires n >= 7
    ensures |KeptBelow(n)| == n - 5
    ensures forall k :: 0 <= k < n - 5 ==> KeptBelow(n)[k] == if k < 2 then k + 3 else k + 5
  {
    if n == 7 {
      assert KeptBelow(7) == [3, 4];
    } else {
      KeptBelowClosedForm(n - 1);
    }
  }

  /**
   * Reference reading of the selection list: every kept position in
   * ascending order, except that output positions 10 and 11 are exchanged.
   */
  lemma SelectedColumnsAreSwappedKept()
    ensures var kept := KeptBelow(27);
      && |kept| == |SelectedColumns|
      && forall k :: 0 <= k < |kept| ==>
           SelectedColumns[k] == (if k == 10 then kept[11] else if k == 11 then kept[10] else kept[k])
  {
    SelectedColumnsClosedForm();
    KeptBelowClosedForm(27);
  }

  /**
   * On a header without repeated names (pandas renames repeats on reading),
   * the selected header repeats no name and misses the names at the dropped
   * positions.
   */
  lemma SelectKeepsNamesApart(t: Table)
    requires WellFormed(t) && |t.columns| >= 27 && Distinct(t.columns)
    ensures Select(t).Ok?
    ensures Distinct(Select(t).value.columns)
    ensures forall j :: j in DroppedColumns ==> t.columns[j] !in Select(t).value.columns
  {
    SelectedColumnsShape();
    var s := Select(t).value.columns;
    ProjectDistinct(t.columns, SelectedColumns);
    assert s == Project(t.columns, SelectedColumns);
    forall j | j in DroppedColumns ensures t.columns[j] !in s {
      forall k | 0 <= k < |s| ensures s[k] != t.columns[j] {
        assert SelectedColumns[k] != j;
      }
    }
  }

  // ---------------------------------------------------------------------------
  // The comma replace of line 57

  /**
   * What `final.replace(",", "", regex=True)` returns: a new table with every
   * comma removed from every cell. Line 57 does not assign it to anything.
   */
  function StripCommas(t: Table): (r: Table)
    ensures r.columns == t.columns && |r.rows| == |t.rows|
    ensures forall i :: 0 <= i < |t.rows| ==>
      && r.rows[i].id == t.rows[i].id
      && |r.rows[i].cells| == |t.rows[i].cells|
      && forall k :: 0 <= k < |t.rows[i].cells| ==> r.rows[i].cells[k] == RemoveCommas(t.rows[i].cells[k])
    ensures WellFormed(t) ==> WellFormed(r)
  {
    Table(t.columns, seq(|t.rows|, i requires 0 <= i < |t.rows| =>
      Row(t.rows[i].id, seq(|t.rows[i].cells|, k requires 0 <= k < |t.rows[i].cells| => RemoveCommas(t.rows[i].cells[k])))))
  }

  predicate HasComma(t: Table)
  {
    exists i, k :: 0 <= i < |t.rows| && 0 <= k < |t.rows[i].cells| && ',' in t.rows[i].cells[k]
  }

  /**
   * The discarded replacement would have changed the table exactly when some
   * cell holds a comma; since it is discarded, such commas reach the plain CSV.
   */
  lemma StripCommasChangesIff(t: Table)
    ensures StripCommas(t) != t <==> HasComma(t)
    ensures !HasComma(StripCommas(t))
  {
    var s := StripCommas(t);
    if HasComma(t) {
      var i, k :| 0 <= i < |t.rows| && 0 <= k < |t.rows[i].cells| && ',' in t.rows[i].cells[k];
      assert ',' !in s.rows[i].cells[k];
    } else {
      forall i | 0 <= i < |t.rows| ensures s.rows[i] == t.rows[i] {
        assert s.rows[i].cells == t.rows[i].cells;
      }
      assert s.rows == t.rows;
    }
  }
}
