/**
 * The report table (bin/ctg-sc-atac-count-metrics-concat.py:61-95): the plain
 * CSV read back with one converter per metric column, then every column
 * renamed to a positional placeholder.
 */
module Report {
  import opened Frames
  import opened Decimal

  /** The two converters of lines 63-67: `s2i` (comma-grouped integer counts) and `p2f` (`float(x) * 100`, on every other metric column). */
  datatype Converter = Int | Pct

  /**
   * A cell of the report table. `Percent` keeps the text that `p2f` scales by
   * 100 as a float; `Text` is a column that no converter touches.
   */
  datatype Cell = Text(text: string) | Count(n: int) | Percent(text: string)

  // ---------------------------------------------------------------------------
  // s2i (lines 66-67)

  /** `int(x.replace(",", ""))`; `int` raising ValueError is `NotAnInteger`. */
  function S2I(x: string): (r: Result<int>)
    ensures r.Ok? <==> IsIntLiteral(RemoveCommas(x))
  {
    match ParseInt(RemoveCommas(x))
    case Some(n) => Ok(n)
    case None => Err(NotAnInteger)
  }

  /** On a comma-free digit string `s2i` is plain decimal parsing. */
  lemma S2IOfDigits(s: string)
    requires s != [] && AllDigits(s)
    ensures S2I(s) == Ok(ParseNat(s))
  {
    DigitsHaveNoComma(s);
    ParseIntOfDigits(s);
  }

  /** Inserting a comma anywhere does not change the result, nor its failure. */
  lemma S2IIgnoresComma(a: string, b: string)
    ensures S2I(a + [','] + b) == S2I(a + b)
  {
    RemoveCommasIgnoresInsertion(a, b);
  }

  /** Removing the commas beforehand does not change the result either. */
  lemma S2IOfStripped(x: string)
    ensures S2I(RemoveCommas(x)) == S2I(x)
  {
    RemoveCommasIdempotent(x);
  }

  /** `s2i` reads back a count rendered with thousands separators. */
  lemma S2IOfGrouped(n: nat)
    ensures S2I(Group(FormatNat(n))) == Ok(n)
  {
    var d := FormatNat(n);
    DigitsHaveNoComma(d);
    GroupThenRemoveCommas(d);
    ParseFormatNat(n);
    ParseIntOfDigits(d);
  }

  /** `s2i` reads back any integer as Python prints it. */
  lemma S2IOfFormatted(n: int)
    ensures S2I(FormatInt(n)) == Ok(n)
  {
    ParseFormatInt(n);
    var s := FormatInt(n);
    if n < 0 {
      DigitsHaveNoComma(FormatNat(-n));
      assert s == ['-'] + FormatNat(-n);
    } else {
      DigitsHaveNoComma(s);
    }
  }

  /** The worked example of a grouped count: "1,234" reads as 1234. */
  lemma S2IExampleGrouped()
    ensures S2I("1,234") == Ok(1234)
  {
    assert FormatNat(12) == "12" by { assert FormatNat(1) == "1"; }
    assert FormatNat(123) == "123";
    assert FormatNat(1234) == "1234";
    assert Group("1234") == "1,234" by { assert "1234"[..1] == "1" && "1234"[1..] == "234"; }
    S2IOfGrouped(1234);
  }

  /** An ungrouped count: "980" reads as 980. */
  lemma S2IExamplePlain()
    ensures S2I("980") == Ok(980)
  {
    assert ParseNat("98") == 98 by { assert "98"[..1] == "9"; }
    assert "980"[..2] == "98";
    S2IOfDigits("980");
  }

  /**
   * On text of digits and commas holding at least one digit, `s2i` is the
   * reference value of the digits left once the commas are removed.
   */
  lemma S2IOfDigitsAndCommas(x: string)
    requires forall i :: 0 <= i < |x| ==> IsDigit(x[i]) || x[i] == ','
    requires exists i :: 0 <= i < |x| && IsDigit(x[i])
    ensures AllDigits(RemoveCommas(x)) && S2I(x) == Ok(ParseNat(RemoveCommas(x)))
  {
    var r := RemoveCommas(x);
    forall i | 0 <= i < |r| ensures IsDigit(r[i]) {
      var c := r[i];
      assert c in multiset(r);
      assert c in multiset(x);
      var j :| 0 <= j < |x| && x[j] == c;
    }
    var j :| 0 <= j < |x| && IsDigit(x[j]);
    assert x[j] in multiset(x);
    assert x[j] in multiset(r);
    S2IOfStripped(x);
    S2IOfDigits(r);
  }

  /** Text `int` rejects: nothing left once commas are removed. */
  lemma S2IRejectsEmpty()
    ensures S2I("").Err? && S2I(",").Err?
  {
    assert RemoveCommas(",") == "";
  }

  /**
   * Text with any ASCII character besides digits, commas, signs and whitespace (a
   * decimal point, a letter, a percent sign) makes `s2i` raise.
   */
  lemma S2IRejects(x: string, c: char)
    requires c in x && (c as int) < 128 && c != ',' && !IsDigit(c) && !IsSpace(c) && c != '+' && c != '-'
    ensures S2I(x) == Err(NotAnInteger)
  {
    assert c in RemoveCommas(x) by {
      assert multiset(RemoveCommas(x))[c] == multiset(x)[c];
    }
    ParseIntRejects(RemoveCommas(x), c);
  }

  // ---------------------------------------------------------------------------
  // The converter map (lines 69-92)

  /** The converter keys in the order the script lists them. */
  const ConverterNames: seq<string> := [
    "Estimated number of cells",
    "Confidently mapped read pairs",
    "Fraction of high-quality fragments in cells",
    "Fraction of high-quality fragments overlapping TSS",
    "Fraction of high-quality fragments overlapping peaks",
    "Fraction of transposition events in peaks in cells",
    "Fragments flanking a single nucleosome",
    "Fragments in nucleosome-free regions",
    "Mean raw read pairs per cell",
    "Median high-quality fragments per cell",
    "Number of peaks",
    "Non-nuclear read pairs",
    "Percent duplicates",
    "Q30 bases in barcode",
    "Q30 bases in read 1",
    "Q30 bases in read 2",
    "Q30 bases in sample index i1",
    "Sequenced read pairs",
    "Sequencing saturation",
    "TSS enrichment score",
    "Unmapped read pairs",
    "Valid barcodes"
  ]

  /** The `converters=` argument of the re-read. */
  const Converters: map<string, Converter> := map[
    "Estimated number of cells" := Int,
    "Confidently mapped read pairs" := Pct,
    "Fraction of high-quality fragments in cells" := Pct,
    "Fraction of high-quality fragments overlapping TSS" := Pct,
    "Fraction of high-quality fragments overlapping peaks" := Pct,
    "Fraction of transposition events in peaks in cells" := Pct,
    "Fragments flanking a single nucleosome" := Pct,
    "Fragments in nucleosome-free regions" := Pct,
    "Mean raw read pairs per cell" := Pct,
    "Median high-quality fragments per cell" := Pct,
    "Number of peaks" := Int,
    "Non-nuclear read pairs" := Pct,
    "Percent duplicates" := Pct,
    "Q30 bases in barcode" := Pct,
    "Q30 bases in read 1" := Pct,
    "Q30 bases in read 2" := Pct,
    "Q30 bases in sample index i1" := Pct,
    "Sequenced read pairs" := Int,
    "Sequencing saturation" := Pct,
    "TSS enrichment score" := Pct,
    "Unmapped read pairs" := Pct,
    "Valid barcodes" := Pct
  ]

  /** The count columns, the only ones read with `s2i`. */
  const CountColumns: set<string> := {"Estimated number of cells", "Number of peaks", "Sequenced read pairs"}

  /** Every converter key is listed once, at its position in the script. */
  lemma ConverterNamesMatchMap()
    ensures |ConverterNames| == 22
    ensures forall k :: 0 <= k < 22 ==> ConverterNames[k] in Converters
    ensures forall n :: n in Converters ==> n in ConverterNames
  {
  }

  /** Enough of a name to tell the converter keys apart. */
  function NameKey(s: string): (nat, char, char, char)
  {
    (|s|, if |s| > 0 then s[0] else ' ', if |s| > 13 then s[13] else ' ', if |s| > 18 then s[18] else ' ')
  }

  /** The dictionary literal repeats no key, so none of its entries is overwritten. */
  lemma ConverterNamesDistinct()
    ensures Distinct(ConverterNames)
  {
    var s := ConverterNames;
    forall i, j | 0 <= i < j < |s| ensures s[i] != s[j] {
      assert NameKey(s[i]) != NameKey(s[j]);
    }
  }

  /** The converter of each listed key: the integer one at positions 0, 10 and 17. */
  lemma ConverterEntries()
    ensures |ConverterNames| == 22
    ensures forall k :: 0 <= k < 22 ==>
      ConverterNames[k] in Converters && Converters[ConverterNames[k]] == (if k == 0 || k == 10 || k == 17 then Int else Pct)
  {
  }

  /** The dictionary has 22 entries. */
  lemma ConvertersSize()
    ensures |Converters| == 22
  {
    ConverterNamesMatchMap();
    ConverterNamesDistinct();
    assert Converters.Keys == set k | 0 <= k < 22 :: ConverterNames[k];
    DistinctCard(ConverterNames);
  }

  /** The integer converter is on exactly the three count columns. */
  lemma ConvertersIntIff()
    ensures CountColumns <= Converters.Keys
    ensures forall n :: n in Converters ==> (Converters[n] == Int <==> n in CountColumns)
  {
    ConverterNamesMatchMap();
    ConverterNamesDistinct();
    ConverterEntries();
    assert CountColumns == {ConverterNames[0], ConverterNames[10], ConverterNames[17]};
    forall n | n in Converters ensures Converters[n] == Int <==> n in CountColumns {
      var k :| 0 <= k < 22 && ConverterNames[k] == n;
    }
  }

  /**
   * 22 keys, one converter each: the integer converter on the three count
   * columns, the percentage converter on the other 19; the label column
   * `Sample` has none.
   */
  lemma ConvertersShape()
    ensures |Converters| == 22
    ensures CountColumns <= Converters.Keys && |CountColumns| == 3
    ensures forall n :: n in Converters ==> (Converters[n] == Int <==> n in CountColumns)
    ensures |set n | n in Converters && Converters[n] == Pct| == 19
    ensures "Sample" !in Converters
  {
    ConvertersSize();
    ConvertersIntIff();
    PctCount();
    SampleHasNoConverter();
  }

  lemma PctCount()
    ensures |set n | n in Converters && Converters[n] == Pct| == 19
  {
    ConvertersSize();
    ConvertersIntIff();
    var pct := set n | n in Converters && Converters[n] == Pct;
    assert pct == Converters.Keys - CountColumns;
    assert |CountColumns| == 3;
  }

  /** The index column's name is not one of the 22 metric names. */
  lemma SampleIsNotAConverterName()
    ensures "Sample" !in ConverterNames
  {
    assert forall k :: 0 <= k < |ConverterNames| ==> |ConverterNames[k]| >= 14;
  }

  lemma SampleHasNoConverter()
    ensures "Sample" !in Converters
  {
    ConverterNamesMatchMap();
    SampleIsNotAConverterName();
  }

  /** The set of a sequence without repeats has as many elements as the sequence. */
  lemma {:induction false} DistinctCard(s: seq<string>)
    requires Distinct(s)
    ensures |set k | 0 <= k < |s| :: s[k]| == |s|
  {
    if s != [] {
      var init := s[..|s| - 1];
      DistinctCard(init);
      var a := set k | 0 <= k < |init| :: init[k];
      var b := set k | 0 <= k < |s| :: s[k];
      assert b == a + {s[|s| - 1]};
      assert s[|s| - 1] !in a;
    }
  }

  /** One cell read back under its column's converter, if any. */
  function ConvertCell(name: string, text: string): (r: Result<Cell>)
    ensures name !in Converters ==> r == Ok(Text(text))
    ensures name in Converters && Converters[name] == Pct ==> r == Ok(Percent(text))
    ensures name in Converters && Converters[name] == Int ==>
      (r.Ok? <==> S2I(text).Ok?) && (r.Ok? ==> r.value == Count(S2I(text).value)) && (r.Err? ==> r.error == NotAnInteger)
  {
    if name !in Converters then Ok(Text(text))
    else match Converters[name]
      case Pct => Ok(Percent(text))
      case Int => match S2I(text) { case Ok(n) => Ok(Count(n)) case Err(e) => Err(e) }
  }

  /** The only cells that can fail to convert are those of integer columns whose text `s2i` rejects. */
  lemma ConvertCellFails(name: string, text: string)
    ensures ConvertCell(name, text).Err? <==> name in CountColumns && S2I(text).Err?
  {
    ConvertersShape();
  }

  /** One row read back: every cell under the converter of its column, in order. */
  function ConvertRow(columns: seq<string>, row: seq<string>): (r: Result<seq<Cell>>)
    requires |row| == |columns|
    ensures r.Ok? <==> forall j :: 0 <= j < |row| ==> ConvertCell(columns[j], row[j]).Ok?
    ensures r.Ok? ==> |r.value| == |row| && forall j :: 0 <= j < |row| ==> ConvertCell(columns[j], row[j]) == Ok(r.value[j])
    decreases |row|
  {
    if row == [] then Ok([])
    else
      var c :- ConvertCell(columns[0], row[0]);
      var rest :- ConvertRow(columns[1..], row[1..]);
      assert forall j :: 1 <= j < |row| ==> columns[1..][j - 1] == columns[j] && row[1..][j - 1] == row[j];
      Ok([c] + rest)
  }

  /** Every row read back, in order; the first row that fails ends the re-read. */
  function ConvertRows(columns: seq<string>, rows: seq<seq<string>>): (r: Result<seq<seq<Cell>>>)
    requires forall i :: 0 <= i < |rows| ==> |rows[i]| == |columns|
    ensures r.Ok? ==> |r.value| == |rows| && forall i :: 0 <= i < |rows| ==> |r.value[i]| == |columns|
    decreases |rows|
  {
    if rows == [] then Ok([])
    else
      var first :- ConvertRow(columns, rows[0]);
      var rest :- ConvertRows(columns, rows[1..]);
      Ok([first] + rest)
  }

  /** The rows convert exactly when each row does, and then row i is the conversion of row i. */
  lemma {:induction false} ConvertRowsMeaning(columns: seq<string>, rows: seq<seq<string>>)
    requires forall i :: 0 <= i < |rows| ==> |rows[i]| == |columns|
    ensures ConvertRows(columns, rows).Ok? <==> forall i :: 0 <= i < |rows| ==> ConvertRow(columns, rows[i]).Ok?
    ensures ConvertRows(columns, rows).Ok? ==>
      forall i :: 0 <= i < |rows| ==> ConvertRow(columns, rows[i]) == Ok(ConvertRows(columns, rows).value[i])
    decreases |rows|
  {
    if rows != [] {
      var tail := rows[1..];
      ConvertRowsMeaning(columns, tail);
      assert forall i :: 1 <= i < |rows| ==> tail[i - 1] == rows[i];
    }
  }

  /** Lines 69-92: `pd.read_csv(out1, converters=...)` on the text of the plain CSV. */
  function ConvertFrame(f: Frame<string>): (r: Result<Frame<Cell>>)
    requires WellFormedFrame(f)
    ensures r.Ok? ==> r.value.columns == f.columns && |r.value.rows| == |f.rows| && WellFormedFrame(r.value)
  {
    var rows :- ConvertRows(f.columns, f.rows);
    Ok(Frame(f.columns, rows))
  }

  /**
   * The re-read fails exactly when some cell of an integer column is not an
   * integer once its commas are removed; otherwise every cell is its column's
   * conversion of the text.
   */
  lemma ConvertFrameMeaning(f: Frame<string>)
    requires WellFormedFrame(f)
    ensures ConvertFrame(f).Ok? <==>
      forall i, j :: 0 <= i < |f.rows| && 0 <= j < |f.columns| && f.columns[j] in CountColumns ==> S2I(f.rows[i][j]).Ok?
    ensures ConvertFrame(f).Ok? ==> var g := ConvertFrame(f).value;
      && WellFormedFrame(g)
      && forall i, j :: 0 <= i < |f.rows| && 0 <= j < |f.columns| ==> ConvertCell(f.columns[j], f.rows[i][j]) == Ok(g.rows[i][j])
  {
    ConvertRowsMeaning(f.columns, f.rows);
    forall i, j | 0 <= i < |f.rows| && 0 <= j < |f.columns| {
      ConvertCellFails(f.columns[j], f.rows[i][j]);
    }
  }

  // ---------------------------------------------------------------------------
  // The positional rename (lines 94-95)

  /** The names of line 95: `SampleID` for the label column, then `col2` .. `col23`. */
  const ReportHeader: seq<string> := [
    "SampleID", "col2", "col3", "col4", "col5", "col6", "col7", "col8", "col9", "col10", "col11", "col12",
    "col13", "col14", "col15", "col16", "col17", "col18", "col19", "col20", "col21", "col22", "col23"
  ]

  /** `mqdf.columns = [...]`: pandas refuses a list whose length is not the number of columns. */
  function Rename<T>(f: Frame<T>): (r: Result<Frame<T>>)
    ensures r.Ok? <==> |f.columns| == |ReportHeader|
    ensures r.Err? ==> r.error == ColumnCountMismatch(|f.columns|)
    ensures r.Ok? ==> r.value.columns == ReportHeader && r.value.rows == f.rows
  {
    if |f.columns| != |ReportHeader| then Err(ColumnCountMismatch(|f.columns|)) else Ok(Frame(ReportHeader, f.rows))
  }

  /** The literal header follows the positional scheme: `SampleID`, then `"col" + (j + 1)` at position j. */
  lemma ReportHeaderScheme()
    ensures |ReportHeader| == 23 && ReportHeader[0] == "SampleID"
    ensures forall j :: 1 <= j < 23 ==> ReportHeader[j] == "col" + FormatNat(j + 1)
  {
    forall j | 1 <= j < 23 ensures ReportHeader[j] == "col" + FormatNat(j + 1) {
      if j + 1 >= 10 {
        assert FormatNat(j + 1) == FormatNat((j + 1) / 10) + [DigitChar((j + 1) % 10)];
      }
    }
  }

  /** 23 names, `SampleID` then `"col" + (j + 1)`, all different. */
  lemma ReportHeaderShape()
    ensures |ReportHeader| == 23 && ReportHeader[0] == "SampleID"
    ensures forall j :: 1 <= j < 23 ==> ReportHeader[j] == "col" + FormatNat(j + 1)
    ensures Distinct(ReportHeader)
  {
    ReportHeaderScheme();
    var h := ReportHeader;
    forall i, j | 0 <= i < j < 23 ensures h[i] != h[j] {
      if i > 0 {
        assert h[i][3..] == FormatNat(i + 1) && h[j][3..] == FormatNat(j + 1);
        ParseFormatNat(i + 1);
        ParseFormatNat(j + 1);
      } else {
        assert h[j][0] == 'c';
      }
    }
  }

  /** In the re-read header `Sample` + converter names, the count columns are at positions 1, 11 and 18. */
  lemma CountColumnPositions()
    ensures forall j :: 0 <= j < 23 ==> ((["Sample"] + ConverterNames)[j] in CountColumns <==> j == 1 || j == 11 || j == 18)
  {
    ConvertersIntIff();
    ConverterEntries();
    SampleHasNoConverter();
    forall j | 0 <= j < 23
      ensures (["Sample"] + ConverterNames)[j] in CountColumns <==> j == 1 || j == 11 || j == 18
    {
      if j > 0 {
        assert (["Sample"] + ConverterNames)[j] == ConverterNames[j - 1];
      }
    }
  }

  /** Under the header `Sample` + converter names, the re-read fails exactly on a non-integer in column 1, 11 or 18. */
  lemma ConvertFrameOfConverterHeader(f: Frame<string>)
    requires WellFormedFrame(f) && f.columns == ["Sample"] + ConverterNames
    ensures ConvertFrame(f).Ok? <==> forall i :: 0 <= i < |f.rows| ==>
      S2I(f.rows[i][1]).Ok? && S2I(f.rows[i][11]).Ok? && S2I(f.rows[i][18]).Ok?
  {
    ConvertFrameMeaning(f);
    CountColumnPositions();
    ConverterEntries();
    if forall i :: 0 <= i < |f.rows| ==> S2I(f.rows[i][1]).Ok? && S2I(f.rows[i][11]).Ok? && S2I(f.rows[i][18]).Ok? {
      forall i, j | 0 <= i < |f.rows| && 0 <= j < |f.columns| && f.columns[j] in CountColumns
        ensures S2I(f.rows[i][j]).Ok?
      {
        assert j == 1 || j == 11 || j == 18;
      }
    }
  }

  /** One cell of the re-read table whose header is `Sample` then the converter names. */
  lemma ReportColumnCell(columns: seq<string>, j: nat, text: string, c: Cell)
    requires columns == ["Sample"] + ConverterNames && j < 23
    requires ConvertCell(columns[j], text) == Ok(c)
    ensures j == 0 ==> c == Text(text)
    ensures j in {1, 11, 18} ==> c.Count? && S2I(text) == Ok(c.n)
    ensures j != 0 && j !in {1, 11, 18} ==> c == Percent(text)
  {
    ConvertersShape();
    ConverterEntries();
    if j > 0 {
      assert columns[j] == ConverterNames[j - 1];
    }
  }

  /** Lines 69-95: the report table derived from the re-read plain CSV. */
  function ReportTable(plain: Frame<string>): (r: Result<Frame<Cell>>)
    requires WellFormedFrame(plain)
    ensures r.Ok? ==> r.value.columns == ReportHeader && |r.value.rows| == |plain.rows| && WellFormedFrame(r.value)
  {
    var mqdf :- ConvertFrame(plain);
    Rename(mqdf)
  }

  /**
   * When the plain CSV carries the converter names in the order of the
   * script, the report's count columns are `col2`, `col12` and `col19`, each
   * holding the `s2i` value of its text; the other metric columns hold
   * percentages and `SampleID` the row label.
   */
  lemma CountColumnsOfReport(f: Frame<string>)
    requires WellFormedFrame(f) && f.columns == ["Sample"] + ConverterNames
    requires ConvertFrame(f).Ok?
    ensures Rename(ConvertFrame(f).value).Ok?
    ensures var rep := Rename(ConvertFrame(f).value).value;
      && rep.columns == ReportHeader
      && |rep.rows| == |f.rows|
      && forall i, j :: 0 <= i < |f.rows| && 0 <= j < 23 ==>
           && (j == 0 ==> rep.rows[i][j] == Text(f.rows[i][j]))
           && (j in {1, 11, 18} ==> rep.rows[i][j].Count? && S2I(f.rows[i][j]) == Ok(rep.rows[i][j].n))
           && (j != 0 && j !in {1, 11, 18} ==> rep.rows[i][j] == Percent(f.rows[i][j]))
  {
    ConvertFrameMeaning(f);
    ConvertersShape();
    ConverterEntries();
    var g := ConvertFrame(f).value;
    forall i, j | 0 <= i < |f.rows| && 0 <= j < 23
      ensures j == 0 ==> g.rows[i][j] == Text(f.rows[i][j])
      ensures j in {1, 11, 18} ==> g.rows[i][j].Count? && S2I(f.rows[i][j]) == Ok(g.rows[i][j].n)
      ensures j != 0 && j !in {1, 11, 18} ==> g.rows[i][j] == Percent(f.rows[i][j])
    {
      ReportColumnCell(f.columns, j, f.rows[i][j], g.rows[i][j]);
    }
  }

  /**
   * The report of a plain CSV headed `Sample` + converter names exists
   * exactly when its columns 1, 11 and 18 are integers to `s2i`; under the
   * names `col2`, `col12` and `col19` it then holds those integers.
   */
  lemma ReportOfConverterHeader(f: Frame<string>)
    requires WellFormedFrame(f) && f.columns == ["Sample"] + ConverterNames
    ensures ReportTable(f).Ok? <==> forall i :: 0 <= i < |f.rows| ==>
      S2I(f.rows[i][1]).Ok? && S2I(f.rows[i][11]).Ok? && S2I(f.rows[i][18]).Ok?
    ensures ReportTable(f).Ok? ==> var rep := ReportTable(f).value;
      && rep.columns == ReportHeader
      && |rep.rows| == |f.rows|
      && forall i :: 0 <= i < |f.rows| ==>
           && |rep.rows[i]| == |ReportHeader|
           && S2I(f.rows[i][1]).Ok? && S2I(f.rows[i][11]).Ok? && S2I(f.rows[i][18]).Ok?
           && rep.rows[i][1] == Count(S2I(f.rows[i][1]).value)
           && rep.rows[i][11] == Count(S2I(f.rows[i][11]).value)
           && rep.rows[i][18] == Count(S2I(f.rows[i][18]).value)
  {
    ConvertFrameOfConverterHeader(f);
    if ConvertFrame(f).Ok? {
      CountColumnsOfReport(f);
    }
  }
}
