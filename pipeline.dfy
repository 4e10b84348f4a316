/**
 * The whole run of bin/ctg-sc-atac-count-metrics-concat.py after option
 * parsing (lines 32-95): aggregate, select, write the plain CSV, read it back
 * with converters and rename the columns of the report table.
 */
module Pipeline {
  import opened Frames
  import opened Decimal
  import opened Aggregation
  import opened Report

  /** Line 58: the header of the label column in the plain CSV. */
  const IndexName: string := "Sample"

  /**
   * Lines 38-59: the table the plain CSV holds, read back as text. The comma
   * replace of line 57 is not part of it: its result is never assigned.
   */
  function PlainCsv(projid: string, samples: seq<string>, files: map<string, Summary>): (r: Result<Frame<string>>)
    requires Homogeneous(samples, files)
    ensures r.Ok? ==> WellFormedFrame(r.value)
  {
    var aggregate :- Aggregated(projid, samples, files);
    var selected :- Select(aggregate);
    Ok(WithIndexColumn(selected, IndexName))
  }

  /**
   * The plain CSV exists exactly when the listing is non-empty, every summary
   * loads and the schema has at least 27 columns. It then has the header
   * `Sample` plus the 22 selected names and one row per sample, in listing
   * order: the label "<project>-<sample>" followed by the selected cells as
   * read from its summary.
   */
  lemma PlainCsvShape(projid: string, samples: seq<string>, files: map<string, Summary>)
    requires Homogeneous(samples, files)
    ensures PlainCsv(projid, samples, files).Ok? <==>
      && |samples| > 0
      && (forall i :: 0 <= i < |samples| ==> Loadable(files, samples[i]))
      && |files[samples[0]].columns| >= 27
    ensures PlainCsv(projid, samples, files).Ok? ==> var f := PlainCsv(projid, samples, files).value;
      && f.columns == [IndexName] + Project(files[samples[0]].columns, SelectedColumns)
      && |f.rows| == |samples|
      && forall i :: 0 <= i < |samples| ==>
           f.rows[i] == [projid + "-" + samples[i]] + Project(files[samples[i]].rows[0], SelectedColumns)
  {
    AggregatedOkIff(projid, samples, files);
    var a := Aggregated(projid, samples, files);
    if a.Ok? {
      AggregatedRows(projid, samples, files);
      var t := a.value;
      if |t.columns| >= 27 {
        var sel := Select(t).value;
        var f := WithIndexColumn(sel, IndexName);
        SelectedColumnsShape();
        forall i | 0 <= i < |samples|
          ensures f.rows[i] == [projid + "-" + samples[i]] + Project(files[samples[i]].rows[0], SelectedColumns)
        {
          assert f.rows[i] == [f.rows[i][0]] + f.rows[i][1..];
          assert sel.rows[i].cells == Project(files[samples[i]].rows[0], SelectedColumns);
        }
        assert f.columns == [f.columns[0]] + f.columns[1..];
        assert sel.columns == Project(t.columns, SelectedColumns);
      }
    }
  }

  /** A failed run dies on an empty listing, a summary that does not load, or a schema narrower than 27 columns. */
  lemma PlainCsvError(projid: string, samples: seq<string>, files: map<string, Summary>)
    requires Homogeneous(samples, files)
    requires PlainCsv(projid, samples, files).Err?
    ensures var e := PlainCsv(projid, samples, files).error;
      e.EmptyListing? || e.MissingSummary? || e.RowCountMismatch? || e.TooFewColumns?
  {
    var a := Aggregated(projid, samples, files);
    if a.Err? {
      AggregatedError(projid, samples, files);
    }
  }

  lemma WithIndexColumnInjective(a: Table, b: Table, name: string)
    requires WithIndexColumn(a, name) == WithIndexColumn(b, name)
    ensures a == b
  {
    var fa, fb := WithIndexColumn(a, name), WithIndexColumn(b, name);
    assert a.columns == fa.columns[1..];
    forall i | 0 <= i < |a.rows| ensures a.rows[i] == b.rows[i] {
      assert a.rows[i].id == fa.rows[i][0] && a.rows[i].cells == fa.rows[i][1..];
    }
  }

  /**
   * Line 57 changes nothing: the plain CSV is written from the selected table
   * itself, and it would have been the comma-stripped copy only if no cell
   * held a comma.
   */
  lemma ReplaceIsDiscarded(projid: string, samples: seq<string>, files: map<string, Summary>)
    requires Homogeneous(samples, files)
    requires PlainCsv(projid, samples, files).Ok?
    ensures Aggregated(projid, samples, files).Ok? && Select(Aggregated(projid, samples, files).value).Ok?
    ensures var selected := Select(Aggregated(projid, samples, files).value).value;
      && PlainCsv(projid, samples, files).value == WithIndexColumn(selected, IndexName)
      && (PlainCsv(projid, samples, files).value == WithIndexColumn(StripCommas(selected), IndexName) <==> !HasComma(selected))
  {
    var selected := Select(Aggregated(projid, samples, files).value).value;
    StripCommasChangesIff(selected);
    if WithIndexColumn(selected, IndexName) == WithIndexColumn(StripCommas(selected), IndexName) {
      WithIndexColumnInjective(selected, StripCommas(selected), IndexName);
    }
  }

  /**
   * Given a plain CSV, the report exists exactly when every cell of the three
   * count columns is an integer once its commas are removed (the rename
   * always finds 23 columns). It then has the positional header and one row
   * per sample whose first cell is the sample's label.
   */
  lemma ReportShape(projid: string, samples: seq<string>, files: map<string, Summary>)
    requires Homogeneous(samples, files)
    requires PlainCsv(projid, samples, files).Ok?
    ensures var f := PlainCsv(projid, samples, files).value;
      && |f.rows| == |samples|
      && (ReportTable(f).Ok? <==>
           forall i, j :: 0 <= i < |f.rows| && 0 <= j < |f.columns| && f.columns[j] in CountColumns ==> S2I(f.rows[i][j]).Ok?)
      && (ReportTable(f).Ok? ==>
           && ReportTable(f).value.columns == ReportHeader
           && |ReportTable(f).value.rows| == |samples|
           && forall i :: 0 <= i < |samples| ==> ReportTable(f).value.rows[i][0] == Text(projid + "-" + samples[i]))
  {
    PlainCsvShape(projid, samples, files);
    var f := PlainCsv(projid, samples, files).value;
    ConvertFrameMeaning(f);
    SampleHasNoConverter();
    if ConvertFrame(f).Ok? {
      var g := ConvertFrame(f).value;
      forall i | 0 <= i < |samples| ensures g.rows[i][0] == Text(projid + "-" + samples[i]) {
        assert ConvertCell(f.columns[0], f.rows[i][0]) == Ok(g.rows[i][0]);
      }
    }
  }

  /**
   * An upstream header of at least 27 columns whose 22 selected names are the
   * converter keys of lines 70-91, in that order.
   */
  predicate ConverterSchema(columns: seq<string>)
  {
    |columns| >= 27 && InBounds(SelectedColumns, |columns|) && Project(columns, SelectedColumns) == ConverterNames
  }

  /** Under the converter-name schema, the plain CSV's columns 1, 11 and 18 are source positions 3, 16 and 22. */
  lemma PlainCsvCountCells(projid: string, samples: seq<string>, files: map<string, Summary>)
    requires Homogeneous(samples, files) && |samples| > 0
    requires forall i :: 0 <= i < |samples| ==> Loadable(files, samples[i])
    requires Loadable(files, samples[0]) && ConverterSchema(files[samples[0]].columns)
    ensures PlainCsv(projid, samples, files).Ok?
    ensures var f := PlainCsv(projid, samples, files).value;
      && f.columns == [IndexName] + ConverterNames
      && |f.rows| == |samples|
      && forall i :: 0 <= i < |samples| ==>
           Loadable(files, samples[i]) &&
           var c := files[samples[i]].rows[0];
           && |c| >= 27
           && f.rows[i][0] == projid + "-" + samples[i]
           && f.rows[i][1] == c[3]
           && f.rows[i][11] == c[16]
           && f.rows[i][18] == c[22]
  {
    PlainCsvShape(projid, samples, files);
    var f := PlainCsv(projid, samples, files).value;
    SelectedColumnsClosedForm();
    forall i | 0 <= i < |samples|
      ensures f.rows[i][0] == projid + "-" + samples[i]
      ensures f.rows[i][1] == files[samples[i]].rows[0][3]
      ensures f.rows[i][11] == files[samples[i]].rows[0][16]
      ensures f.rows[i][18] == files[samples[i]].rows[0][22]
    {
      assert f.rows[i] == [projid + "-" + samples[i]] + Project(files[samples[i]].rows[0], SelectedColumns);
    }
  }

  /**
   * When the selected columns of the upstream schema are the converter names
   * in the order of the script, the report exists exactly when every
   * sample's cells at source positions 3, 16 and 22 (estimated cells, peaks,
   * sequenced read pairs) are integers to `s2i`, and its `col2`, `col12` and
   * `col19` then hold those integers.
   */
  lemma ReportCounts(projid: string, samples: seq<string>, files: map<string, Summary>)
    requires Homogeneous(samples, files) && |samples| > 0
    requires forall i :: 0 <= i < |samples| ==> Loadable(files, samples[i])
    requires Loadable(files, samples[0]) && ConverterSchema(files[samples[0]].columns)
    ensures PlainCsv(projid, samples, files).Ok?
    ensures var f := PlainCsv(projid, samples, files).value;
      && |f.rows| == |samples|
      && (ReportTable(f).Ok? <==> forall i :: 0 <= i < |samples| ==>
            Loadable(files, samples[i]) &&
            var c := files[samples[i]].rows[0];
            |c| >= 27 && S2I(c[3]).Ok? && S2I(c[16]).Ok? && S2I(c[22]).Ok?)
      && (ReportTable(f).Ok? ==> forall i :: 0 <= i < |samples| ==>
            Loadable(files, samples[i]) &&
            var c := files[samples[i]].rows[0];
            && |c| >= 27
            && S2I(c[3]).Ok? && S2I(c[16]).Ok? && S2I(c[22]).Ok?
            && ReportTable(f).value.rows[i][1] == Count(S2I(c[3]).value)
            && ReportTable(f).value.rows[i][11] == Count(S2I(c[16]).value)
            && ReportTable(f).value.rows[i][18] == Count(S2I(c[22]).value))
  {
    PlainCsvCountCells(projid, samples, files);
    var f := PlainCsv(projid, samples, files).value;
    ReportOfConverterHeader(f);
    forall i | 0 <= i < |samples|
      ensures S2I(f.rows[i][1]) == S2I(files[samples[i]].rows[0][3])
      ensures S2I(f.rows[i][11]) == S2I(files[samples[i]].rows[0][16])
      ensures S2I(f.rows[i][18]) == S2I(files[samples[i]].rows[0][22])
    {
    }
  }

  /** One sample's estimated-cells count, as written in the plain CSV and as an integer in the report. */
  lemma EstimatedCells(projid: string, samples: seq<string>, files: map<string, Summary>, i: nat)
    requires Homogeneous(samples, files) && |samples| > 0
    requires forall i :: 0 <= i < |samples| ==> Loadable(files, samples[i])
    requires Loadable(files, samples[0]) && ConverterSchema(files[samples[0]].columns)
    requires i < |samples|
    ensures PlainCsv(projid, samples, files).Ok?
    ensures var f := PlainCsv(projid, samples, files).value;
      Loadable(files, samples[i]) &&
      var c := files[samples[i]].rows[0];
      && |c| >= 27 && i < |f.rows| && |f.rows[i]| == 23
      && f.rows[i][0] == projid + "-" + samples[i] && f.rows[i][1] == c[3]
      && (ReportTable(f).Ok? ==> S2I(c[3]).Ok? && ReportTable(f).value.rows[i][1] == Count(S2I(c[3]).value))
  {
    PlainCsvCountCells(projid, samples, files);
    ReportCounts(projid, samples, files);
  }

  /**
   * The script's run: each step rebinds the table it works on, and the first
   * exception ends the run. The plain CSV is produced before the report, so a
   * failing re-read still leaves it written.
   */
  method Summarize(projid: string, samples: seq<string>, files: map<string, Summary>)
    returns (plain: Result<Frame<string>>, report: Result<Frame<Cell>>)
    requires Homogeneous(samples, files)
    ensures plain == PlainCsv(projid, samples, files)
    ensures plain.Err? ==> report == Err(plain.error)
    ensures plain.Ok? ==> report == ReportTable(plain.value)
    ensures plain.Ok? ==> |plain.value.rows| == |samples|
    ensures report.Ok? ==> report.value.columns == ReportHeader && |report.value.rows| == |samples|
  {
    var final := Aggregate(projid, samples, files);
    if final.Err? {
      plain, report := Err(final.error), Err(final.error);
      return;
    }
    var selected := Select(final.value);
    if selected.Err? {
      plain, report := Err(selected.error), Err(selected.error);
      return;
    }
    var discarded := StripCommas(selected.value);
    plain := Ok(WithIndexColumn(selected.value, IndexName));
    PlainCsvShape(projid, samples, files);
    var mqdf := ConvertFrame(plain.value);
    if mqdf.Err? {
      report := Err(mqdf.error);
      return;
    }
    report := Rename(mqdf.value);
  }
}
