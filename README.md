# Count-metrics concatenation for single-cell ATAC projects

`bin/ctg-sc-atac-count-metrics-concat.py` collects the per-sample summary
metrics of a single-cell ATAC counting run into one project-level table and
writes it twice:

- as a plain CSV, with one row per sample labelled `<project>-<sample>` and
  22 of the 27 upstream columns, in a fixed order;
- as a report table for a QC aggregator. This is the plain CSV read back with
  one converter per metric column: the three comma-grouped counts become
  integers, and the other 19 metrics are scaled by 100 by `p2f`. Its columns
  are then renamed `SampleID`, `col2` … `col23`.

The model covers the transform between reading and writing, as operations on
sequences of strings:

- `decimal.dfy` (module `Decimal`): decimal digit strings and their reference
  value `ParseNat`, comma removal, thousands grouping, and the part of
  Python's `int(str)` that `s2i` relies on.
- `frames.dfy` (module `Frames`): the error outcomes of a run, and two table
  shapes. A `Table` is indexed by row label; a `Frame` is a table read back
  from text, with the label as its first column. Also stacking (`pd.concat`),
  positional projection, and the text form of a table written with its index.
- `aggregation.dfy` (module `Aggregation`): loading each sample's summary,
  labelling its row, and stacking the rows in listing order. The loop is the
  method `Aggregate`, proved equal to the recursive specification
  `Aggregated`. Also the fixed column selection, and the comma replace of
  line 57, whose result the script never uses.
- `report.dfy` (module `Report`): `s2i`, the converter dictionary, the
  conversion of a re-read frame, and the positional rename.
- `pipeline.dfy` (module `Pipeline`): the whole run as the method
  `Summarize`, with end-to-end properties of the plain CSV and of the report.

Inputs the script takes from the environment are parameters of the model:

- `projid`: the project name, which the script derives from the project
  directory;
- `samples`: the directory listing, in the order it is returned;
- `files`: the parsed summary files, a map from sample name to header and
  data rows. A sample without a file is absent from the map.

The plain CSV is modelled by the text table that reading it back yields: its
header is `Sample` followed by the selected names, and each row is the label
followed by the selected cells.

Two details of the code shape the plain CSV:

- Line 57 computes a comma-free copy of the table but never assigns it, so
  the plain CSV keeps each cell's commas ("1,200" stays "1,200").
  `Pipeline.ReplaceIsDiscarded` states this. Only the report's integer
  columns lose their commas, inside `s2i`.
- The index list at line 55 picks 22 columns, so the plain CSV has the label
  column and 22 metric columns.

## Model

| member | source | states |
|---|---|---|
| Decimal.RemoveCommas | bin/ctg-sc-atac-count-metrics-concat.py:67 | the result holds no comma, and every other character occurs exactly as often as in the input; comma-free text is unchanged |
| Decimal.IsSpace | bin/ctg-sc-atac-count-metrics-concat.py:67 | the C-locale ASCII whitespace that `int()` skips around a number: space and tab through carriage return |
| Decimal.Strip | bin/ctg-sc-atac-count-metrics-concat.py:67 | the whitespace `int()` skips: the result is one contiguous piece of the input, everything before and after it is whitespace, and it neither starts nor ends with whitespace |
| Decimal.RemoveCommasIdempotent | bin/ctg-sc-atac-count-metrics-concat.py:67 | removing commas twice is removing them once |
| Decimal.RemoveCommasIgnoresInsertion | bin/ctg-sc-atac-count-metrics-concat.py:67 | inserting a comma anywhere leaves the comma-free text unchanged |
| Decimal.GroupThenRemoveCommas | bin/ctg-sc-atac-count-metrics-concat.py:67 | removing commas undoes thousands grouping of comma-free text |
| Decimal.ParseInt | bin/ctg-sc-atac-count-metrics-concat.py:67 | `int()` succeeds exactly on an integer literal: surrounding whitespace, an optional sign, one or more digits; its value on every such literal is stated by `Decimal.ParseIntOfLiteral` |
| Decimal.StripPadded | bin/ctg-sc-atac-count-metrics-concat.py:67 | text padded with whitespace on both sides strips to exactly the text, when it neither starts nor ends with whitespace |
| Decimal.ParseIntOfSigned | bin/ctg-sc-atac-count-metrics-concat.py:67 | once the whitespace is stripped, an optional sign and digits give the digits' value, negated for `-` |
| Decimal.ParseIntOfLiteral | bin/ctg-sc-atac-count-metrics-concat.py:67 | on whitespace, an optional `+` or `-`, digits (leading zeros allowed) and whitespace, `int()` gives `ParseNat` of the digits, negated for `-`: " 42" and "+42" give 42, "-042" gives -42, "-0" gives 0 |
| Decimal.ParseIntOfDigits | bin/ctg-sc-atac-count-metrics-concat.py:67 | on a digit string, `int()` is the reference value `ParseNat` |
| Decimal.ParseFormatInt | bin/ctg-sc-atac-count-metrics-concat.py:67 | `int(str(n)) == n` for every integer, negative ones included |
| Decimal.ParseIntRejects | bin/ctg-sc-atac-count-metrics-concat.py:67 | an ASCII character that is not a digit, a sign or whitespace makes `int()` fail |
| Frames.Concat | bin/ctg-sc-atac-count-metrics-concat.py:51 | stacking keeps the header, keeps the upper rows in place, puts the lower rows after them, and keeps one cell per column |
| Frames.Project | bin/ctg-sc-atac-count-metrics-concat.py:55 | `list(cols[i] for i in idx)`: one element per index, element k being the one at position `idx[k]` |
| Frames.ProjectDistinct | bin/ctg-sc-atac-count-metrics-concat.py:55 | projecting distinct names at distinct positions gives distinct names |
| Frames.WithIndexColumn | bin/ctg-sc-atac-count-metrics-concat.py:58-59 | the written table's header is the index name, then the columns; each row is its label, then its cells |
| Aggregation.RowId | bin/ctg-sc-atac-count-metrics-concat.py:44 | the label is the project name, a `-`, then the sample name |
| Aggregation.RowIdInjective | bin/ctg-sc-atac-count-metrics-concat.py:44 | within one project, equal labels mean equal sample names |
| Aggregation.Load | bin/ctg-sc-atac-count-metrics-concat.py:42-44 | loading a sample succeeds exactly when its file exists and has exactly one data row |
| Aggregation.Gathered | bin/ctg-sc-atac-count-metrics-concat.py:41-51 | a successful gathering is under the first sample's header and has one cell per column in every row |
| Aggregation.GatheredOkIff | bin/ctg-sc-atac-count-metrics-concat.py:41-51 | gathering succeeds exactly when every listed sample loads |
| Aggregation.GatheredRows | bin/ctg-sc-atac-count-metrics-concat.py:41-51 | row i of the gathered table is sample i's labelled row, one row per sample |
| Aggregation.GatheredFirstError | bin/ctg-sc-atac-count-metrics-concat.py:41-51 | a failure is the load failure of the first sample that does not load, every earlier one loading |
| Aggregation.GatheredErrPersists | bin/ctg-sc-atac-count-metrics-concat.py:47-51 | once a prefix of the listing fails, later samples do not change the failure |
| Aggregation.Aggregated | bin/ctg-sc-atac-count-metrics-concat.py:38-51 | a successful aggregate has one cell per column in every row |
| Aggregation.AggregatedOkIff | bin/ctg-sc-atac-count-metrics-concat.py:38-51 | the aggregate exists exactly when the listing is non-empty and every sample loads |
| Aggregation.AggregatedRows | bin/ctg-sc-atac-count-metrics-concat.py:41-51 | one row per sample in listing order; row i is labelled `projid + "-" + samples[i]` and holds that sample's data row |
| Aggregation.AggregatedError | bin/ctg-sc-atac-count-metrics-concat.py:38-51 | a failure is an empty listing, or the `Load` error (a missing file or wrong row count) of the first sample that does not load: every earlier sample loads and that one does not |
| Aggregation.AggregatedIdsDistinct | bin/ctg-sc-atac-count-metrics-concat.py:41-51 | distinct sample names give distinct row labels |
| Aggregation.AppendSample | bin/ctg-sc-atac-count-metrics-concat.py:47-51 | one more sample keeps the header and the earlier rows, and adds exactly its row at the end |
| Aggregation.Aggregate | bin/ctg-sc-atac-count-metrics-concat.py:41-51 | the rebinding loop returns exactly the aggregate, or its error |
| Aggregation.Select | bin/ctg-sc-atac-count-metrics-concat.py:54-56 | selection succeeds exactly on at least 27 columns (else `TooFewColumns`); output column k is source column `SelectedColumns[k]` in the header and in every row, and labels are kept |
| Aggregation.SelectedColumns | bin/ctg-sc-atac-count-metrics-concat.py:55 | the index list of line 55, entry by entry; its shape is stated by `Aggregation.SelectedColumnsShape` |
| Aggregation.SelectedColumnsClosedForm | bin/ctg-sc-atac-count-metrics-concat.py:55 | the index list in closed form: 3, 4, then k + 5, with 16 and 15 at output positions 10 and 11 |
| Aggregation.SelectedColumnsShape | bin/ctg-sc-atac-count-metrics-concat.py:55 | 22 distinct positions below 27; positions 10 and 11 are 16 and 15; exactly 0, 1, 2, 5 and 6 are left out |
| Aggregation.KeptBelowClosedForm | bin/ctg-sc-atac-count-metrics-concat.py:55 | the kept positions below n, ascending, are 3, 4, 7, 8, … |
| Aggregation.SelectedColumnsAreSwappedKept | bin/ctg-sc-atac-count-metrics-concat.py:55 | the index list is the kept positions in ascending order, with output positions 10 and 11 exchanged |
| Aggregation.SelectKeepsNamesApart | bin/ctg-sc-atac-count-metrics-concat.py:54-56 | on a header without repeats, the selected header has no repeats and none of the dropped names |
| Aggregation.StripCommas | bin/ctg-sc-atac-count-metrics-concat.py:57 | the table `final.replace(",", "", regex=True)` returns: same header, labels and shape, each cell with its commas removed |
| Aggregation.StripCommasChangesIff | bin/ctg-sc-atac-count-metrics-concat.py:57 | the discarded comma replace would change the table exactly when some cell holds a comma, and would leave none |
| Report.S2I | bin/ctg-sc-atac-count-metrics-concat.py:66-67 | `s2i` succeeds exactly when the text without commas is an integer literal |
| Report.S2IOfDigits | bin/ctg-sc-atac-count-metrics-concat.py:66-67 | on a comma-free digit string, `s2i` is the reference value `ParseNat` |
| Report.S2IIgnoresComma | bin/ctg-sc-atac-count-metrics-concat.py:66-67 | inserting a comma anywhere changes neither the result nor a failure |
| Report.S2IOfStripped | bin/ctg-sc-atac-count-metrics-concat.py:66-67 | removing the commas beforehand changes nothing |
| Report.S2IOfGrouped | bin/ctg-sc-atac-count-metrics-concat.py:66-67 | `s2i` inverts thousands grouping of the decimal rendering of every count |
| Report.S2IOfFormatted | bin/ctg-sc-atac-count-metrics-concat.py:66-67 | `s2i` inverts Python's `str` on every integer |
| Report.S2IExampleGrouped | bin/ctg-sc-atac-count-metrics-concat.py:66-67 | "1,234" reads as 1234 |
| Report.S2IExamplePlain | bin/ctg-sc-atac-count-metrics-concat.py:66-67 | "980" reads as 980 |
| Report.S2IOfDigitsAndCommas | bin/ctg-sc-atac-count-metrics-concat.py:66-67 | on digits and commas holding a digit, `s2i` is `ParseNat` of the text with its commas removed |
| Report.S2IRejectsEmpty | bin/ctg-sc-atac-count-metrics-concat.py:66-67 | "" and "," raise |
| Report.S2IRejects | bin/ctg-sc-atac-count-metrics-concat.py:66-67 | text holding a decimal point, a letter or any other ASCII character besides digits, commas, signs and whitespace raises |
| Report.ConverterNames | bin/ctg-sc-atac-count-metrics-concat.py:70-91 | the 22 converter keys in the order the dictionary lists them |
| Report.Converters | bin/ctg-sc-atac-count-metrics-concat.py:69-92 | the `converters=` dictionary, each key mapped to `Int` (`s2i`) or `Pct` (`p2f`); its shape is stated by `Report.ConvertersShape` |
| Report.ConverterNamesMatchMap | bin/ctg-sc-atac-count-metrics-concat.py:69-92 | the 22 listed names are exactly the dictionary's keys |
| Report.ConverterNamesDistinct | bin/ctg-sc-atac-count-metrics-concat.py:69-92 | the dictionary literal repeats no key |
| Report.ConverterEntries | bin/ctg-sc-atac-count-metrics-concat.py:69-92 | the k-th listed key maps to `s2i` at k = 0, 10 and 17, and to `p2f` otherwise |
| Report.ConvertersSize | bin/ctg-sc-atac-count-metrics-concat.py:69-92 | the dictionary has 22 keys |
| Report.ConvertersIntIff | bin/ctg-sc-atac-count-metrics-concat.py:69-92 | a key maps to `s2i` exactly when it is one of the three count columns |
| Report.PctCount | bin/ctg-sc-atac-count-metrics-concat.py:69-92 | 19 keys map to `p2f` |
| Report.ConvertersShape | bin/ctg-sc-atac-count-metrics-concat.py:69-92 | 22 keys; `s2i` on exactly the three count columns and `p2f` on the other 19; no converter for `Sample` |
| Report.SampleIsNotAConverterName | bin/ctg-sc-atac-count-metrics-concat.py:69-92 | the label column's name is not a metric name |
| Report.SampleHasNoConverter | bin/ctg-sc-atac-count-metrics-concat.py:69-92 | the label column has no converter |
| Report.ConvertCell | bin/ctg-sc-atac-count-metrics-concat.py:69-92 | a column without a converter keeps its text; a `p2f` column gives a percentage of its text; an `s2i` column gives the `s2i` integer, or raises exactly when `s2i` does |
| Report.ConvertCellFails | bin/ctg-sc-atac-count-metrics-concat.py:69-92 | a cell fails to convert exactly when it is in a count column and `s2i` rejects it |
| Report.ConvertRow | bin/ctg-sc-atac-count-metrics-concat.py:69-92 | a row converts exactly when each of its cells does, and then cell j is the conversion of cell j |
| Report.ConvertRows | bin/ctg-sc-atac-count-metrics-concat.py:69-92 | a successful re-read has one converted row per row, each with one cell per column |
| Report.ConvertRowsMeaning | bin/ctg-sc-atac-count-metrics-concat.py:69-92 | the rows convert exactly when each row does, and then row i is the conversion of row i |
| Report.ConvertFrame | bin/ctg-sc-atac-count-metrics-concat.py:69-92 | the re-read keeps the header and the number of rows, with one cell per column |
| Report.ConvertFrameMeaning | bin/ctg-sc-atac-count-metrics-concat.py:69-92 | the re-read fails exactly when some count-column cell is not an integer to `s2i`; otherwise each cell is its column's conversion |
| Report.ReportHeader | bin/ctg-sc-atac-count-metrics-concat.py:95 | the 23 names of line 95; their scheme is stated by `Report.ReportHeaderShape` |
| Report.Rename | bin/ctg-sc-atac-count-metrics-concat.py:95 | renaming succeeds exactly on 23 columns (else `ColumnCountMismatch`), replaces the header and keeps the rows |
| Report.ReportHeaderScheme | bin/ctg-sc-atac-count-metrics-concat.py:95 | the 23 names are `SampleID`, then `"col" + (j + 1)` at position j |
| Report.ReportHeaderShape | bin/ctg-sc-atac-count-metrics-concat.py:95 | 23 distinct names: `SampleID`, then `"col" + (j + 1)` at position j |
| Report.CountColumnPositions | bin/ctg-sc-atac-count-metrics-concat.py:69-92 | under `Sample` and the converter names, the count columns are exactly positions 1, 11 and 18 |
| Report.ConvertFrameOfConverterHeader | bin/ctg-sc-atac-count-metrics-concat.py:69-92 | under that header, the re-read fails exactly on a non-integer in column 1, 11 or 18 |
| Report.ReportColumnCell | bin/ctg-sc-atac-count-metrics-concat.py:69-92 | under that header, column 0 is text, columns 1, 11 and 18 are `s2i` integers, and the others are percentages |
| Report.ReportTable | bin/ctg-sc-atac-count-metrics-concat.py:69-95 | a report has the positional header, one row per plain-CSV row and one cell per column |
| Report.CountColumnsOfReport | bin/ctg-sc-atac-count-metrics-concat.py:69-95 | after the rename, `SampleID` holds the label, `col2`, `col12` and `col19` hold the `s2i` integers, and the rest hold percentages |
| Report.ReportOfConverterHeader | bin/ctg-sc-atac-count-metrics-concat.py:69-95 | the report exists exactly when columns 1, 11 and 18 parse, and then holds their integers |
| Pipeline.PlainCsv | bin/ctg-sc-atac-count-metrics-concat.py:38-59 | a plain CSV has one cell per column in every row |
| Pipeline.PlainCsvShape | bin/ctg-sc-atac-count-metrics-concat.py:38-59 | the plain CSV exists exactly when the listing is non-empty, every sample loads and there are at least 27 columns; it is then `Sample` plus the selected names, and one row per sample in listing order with its label and the selected cells as read from its summary |
| Pipeline.PlainCsvError | bin/ctg-sc-atac-count-metrics-concat.py:38-56 | a failed run dies on an empty listing, a missing file, a wrong row count or too few columns |
| Pipeline.WithIndexColumnInjective | bin/ctg-sc-atac-count-metrics-concat.py:58-59 | different tables are written as different text |
| Pipeline.ReplaceIsDiscarded | bin/ctg-sc-atac-count-metrics-concat.py:56-59 | the written table is the selected table itself; it equals the comma-stripped one exactly when no cell holds a comma |
| Pipeline.ReportShape | bin/ctg-sc-atac-count-metrics-concat.py:58-95 | the report exists exactly when every count-column cell parses; it then has the positional header and one row per sample, first cell the label |
| Pipeline.PlainCsvCountCells | bin/ctg-sc-atac-count-metrics-concat.py:54-59 | when every listed sample loads and the selected names are the converter keys, plain-CSV columns 1, 11 and 18 are source positions 3, 16 and 22 of each sample's row |
| Pipeline.ReportCounts | bin/ctg-sc-atac-count-metrics-concat.py:54-95 | the report exists exactly when each sample's source cells 3, 16 and 22 parse, and then `col2`, `col12` and `col19` hold their integers |
| Pipeline.EstimatedCells | bin/ctg-sc-atac-count-metrics-concat.py:54-95 | for any listed sample, its estimated-cells text (source position 3) is column 1 of its plain-CSV row, and when the report exists that cell is the text's `s2i` integer |
| Pipeline.Summarize | bin/ctg-sc-atac-count-metrics-concat.py:38-95 | the run yields the plain CSV, then its report; the first error ends it |

## Left out

- File and directory I/O: the directory listing, `read_csv`, `to_csv`, and the append-mode report file. These are library calls and filesystem effects. The listing, the parsed summaries and the project name are parameters instead.
- Cell text through the three CSV passes: each summary is read with `read_csv` (lines 43 and 49), the selected table is written with `to_csv` (line 59) and read back (line 69). The model treats all three as keeping each cell's text. pandas infers numeric types on reading and `to_csv` renders numbers in its own form ("0.950" is written "0.95", "007" as "7", and an integer column holding a missing value as "1200.0"), and quoting of embedded separators is library behaviour too. The plain CSV of the model therefore holds the summary's cell text, not pandas' re-rendering of it.
- Report.ConvertCell: `p2f` (`float(x) * 100`) is floating-point arithmetic. A percentage cell keeps its text under the `Percent` tag, and a `float()` failure is not modelled: in the script `float(x)` at line 64 raises on text such as "" or "1,234" in any of the 19 `p2f` columns. So the "exactly when the count cells parse" of Report.ConvertCellFails, Report.ConvertFrameMeaning, Report.ConvertFrameOfConverterHeader, Report.ReportOfConverterHeader, Pipeline.ReportShape and Pipeline.ReportCounts holds only under this abstraction; in the script a `p2f` cell can also make the report fail.
- Report.ConvertCell: pandas' own type inference on columns without a converter is not modelled; such cells stay text.
- Decimal.ParseInt: models Python's `int(str)` only on ASCII text. Unicode digits, Unicode whitespace and digit-separating underscores are not modelled; underscores are not accepted by the Python 3.4 interpreter the script names.
- Aggregation.Aggregated: requires the summaries of the listed samples to share one header without repeated names (pandas renames a repeated name on reading, so selecting by name at line 56 and by position agree). pandas aligns differing headers by name and fills the gaps with NaN; that case is not modelled.
- Report.ConvertRows: when several cells fail, the error is not tied to the first failing cell. The order in which pandas applies converters is library detail, and the error carries no position.
- The static `#` metadata preamble of the report (lines 98-240): it is constant text with no logic.
- Option parsing, usage text and exit codes (lines 14-30): command-line plumbing over `getopt`.
- Deriving the project name with `normpath` and `basename` (line 35): library path handling. The project name is an input.
