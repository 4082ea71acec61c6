/**
 * `process_pdfs`: one record per PDF of the input directory, each document under its own
 * error boundary, and the output columns in the canonical order, restricted to those
 * that occur. The directory listing, the text extraction and the spreadsheet writer
 * are inputs of the model.
 */
module Batch {
  import opened Wrappers
  import opened PyText
  import opened Fields
  import opened TextPatterns
  import opened Extractor

  /** A PDF found in the input directory: its file name, the text extracted from it, and
      the message of the exception raised while it was processed, if one was. */
  datatype Document = Document(name: string, text: string, failure: Option<string>)

  /** What the run produced: nothing when the directory is missing or holds no PDF,
      otherwise the table handed to the spreadsheet writer and whether the save worked. */
  datatype Outcome =
    | DirectoryMissing
    | NoDocuments
    | Written(columns: seq<Column>, rows: seq<Record>, saved: bool)

  /** The record of one document: the extracted record, or `FileName` and `Error` when
      processing raised. */
  function DocumentRecord(d: Document, search: Oracle): (r: Record)
    ensures FileName in r && r[FileName] == d.name
    ensures d.failure.Some? ==> r.Keys == {FileName, Error} && r[Error] == d.failure.value
    ensures Error in r <==> d.failure.Some? || d.text == ""
  {
    match d.failure
    case Some(msg) => map[FileName := d.name, Error := msg]
    case None =>
      RecordShape(d.name, d.text, search);
      ExtractRecord(d.name, d.text, search)
  }

  /** The records of all documents, in order. */
  function Results(docs: seq<Document>, search: Oracle): (rows: seq<Record>)
    ensures |rows| == |docs|
    ensures forall k | 0 <= k < |docs| :: rows[k] == DocumentRecord(docs[k], search)
  {
    seq(|docs|, k requires 0 <= k < |docs| => DocumentRecord(docs[k], search))
  }

  /** Some row has the column `col` (pandas creates a column for every key of any row). */
  predicate HasColumn(rows: seq<Record>, col: Column) {
    exists k | 0 <= k < |rows| :: col in rows[k]
  }

  /** `[col for col in cols if col in df.columns]` */
  function Present(cols: seq<Column>, rows: seq<Record>): (r: seq<Column>)
    ensures forall c :: c in r <==> c in cols && HasColumn(rows, c)
    ensures IsSubsequence(r, cols)
    ensures Distinct(cols) ==> Distinct(r)
    decreases |cols|
  {
    if cols == [] then []
    else
      var rest := Present(cols[1..], rows);
      assert forall c :: c in cols <==> c == cols[0] || c in cols[1..];
      if HasColumn(rows, cols[0]) then
        assert Distinct(cols) ==> cols[0] !in cols[1..];
        assert Distinct(cols) ==> Distinct(cols[1..]);
        assert ([cols[0]] + rest)[1..] == rest;
        [cols[0]] + rest
      else
        assert Distinct(cols) ==> Distinct(cols[1..]);
        rest
  }

  /** The output columns: the canonical order, restricted to the columns that occur. */
  function PresentColumns(rows: seq<Record>): seq<Column> {
    Present(ColumnOrder, rows)
  }

  /** `df[columns]` on one row. */
  function Project(row: Record, columns: seq<Column>): Record {
    map k | k in row && k in columns :: row[k]
  }

  function ProjectAll(rows: seq<Record>, columns: seq<Column>): (r: seq<Record>)
    ensures |r| == |rows|
    ensures forall k | 0 <= k < |rows| :: r[k] == Project(rows[k], columns)
  {
    seq(|rows|, k requires 0 <= k < |rows| => Project(rows[k], columns))
  }

  /** The result of `process_pdfs` for a directory holding `docs`. */
  function ProcessResult(directoryExists: bool, docs: seq<Document>, search: Oracle, saveSucceeds: bool): Outcome {
    if !directoryExists then DirectoryMissing
    else if docs == [] then NoDocuments
    else
      var rows := Results(docs, search);
      var columns := PresentColumns(rows);
      Written(columns, ProjectAll(rows, columns), saveSucceeds)
  }

  /** The body of the document loop: extraction under the per-document error boundary. */
  method ProcessDocument(d: Document, search: Oracle) returns (data: Record)
    ensures data == DocumentRecord(d, search)
  {
    if d.failure.Some? {
      data := map[FileName := d.name, Error := d.failure.value];
    } else {
      data := ExtractDataFromPdf(d.name, d.text, search);
    }
  }

  /** The document loop of `process_pdfs`: one record per document, in order. */
  method CollectResults(docs: seq<Document>, search: Oracle) returns (results: seq<Record>)
    ensures results == Results(docs, search)
  {
    results := [];
    var i := 0;
    while i < |docs|
      invariant 0 <= i <= |docs|
      invariant |results| == i
      invariant forall k | 0 <= k < i :: results[k] == DocumentRecord(docs[k], search)
    {
      var data := ProcessDocument(docs[i], search);
      results := results + [data];
      i := i + 1;
    }
  }

  /** `process_pdfs`. `ok` is the value the Python function returns. */
  method ProcessPdfs(directoryExists: bool, docs: seq<Document>, search: Oracle, saveSucceeds: bool)
    returns (ok: bool, outcome: Outcome)
    ensures outcome == ProcessResult(directoryExists, docs, search, saveSucceeds)
    ensures ok <==> outcome.Written? && outcome.saved
  {
    if !directoryExists {
      return false, DirectoryMissing;
    }
    if docs == [] {
      return false, NoDocuments;
    }
    var results := CollectResults(docs, search);
    var columns := PresentColumns(results);
    outcome := Written(columns, ProjectAll(results, columns), saveSucceeds);
    ok := saveSucceeds;
  }

  /** The output columns are the canonical ones that occur, each once, in canonical order. */
  lemma {:induction false} ColumnsInOrder(rows: seq<Record>)
    ensures var cols := PresentColumns(rows);
      (forall c :: c in cols <==> c in ColumnOrder && HasColumn(rows, c))
      && IsSubsequence(cols, ColumnOrder) && Distinct(cols)
  {
    OrdersDistinct();
  }

  /** When there is at least one row, `FileName` is the first column. */
  lemma {:induction false} FileNameFirst(docs: seq<Document>, search: Oracle)
    requires docs != []
    ensures var cols := PresentColumns(Results(docs, search));
      cols != [] && cols[0] == FileName
  {
    var rows := Results(docs, search);
    assert FileName in rows[0];
    assert HasColumn(rows, ColumnOrder[0]);
  }

  /** Restricting the rows to the output columns loses nothing: every key of every
      record is a canonical column that occurs. */
  lemma {:induction false} NoValueLost(docs: seq<Document>, search: Oracle)
    ensures var rows := Results(docs, search);
      ProjectAll(rows, PresentColumns(rows)) == rows
  {
    var rows := Results(docs, search);
    var cols := PresentColumns(rows);
    ColumnsInOrder(rows);
    forall k | 0 <= k < |rows| ensures Project(rows[k], cols) == rows[k] {
      forall c | c in rows[k] ensures c in cols {
        ColumnPlaces(c);
        assert HasColumn(rows, c);
      }
      ProjectKeeps(rows[k], cols);
    }
  }

  lemma {:induction false} ProjectKeeps(row: Record, columns: seq<Column>)
    requires forall c | c in row :: c in columns
    ensures Project(row, columns) == row
  {
    assert Project(row, columns).Keys == row.Keys;
  }

  /** The `Error` column appears exactly when some document raised or gave no text. */
  lemma {:induction false} ErrorColumn(docs: seq<Document>, search: Oracle)
    ensures var rows := Results(docs, search);
      Error in PresentColumns(rows) <==>
        exists k | 0 <= k < |docs| :: docs[k].failure.Some? || docs[k].text == ""
  {
    var rows := Results(docs, search);
    if Error in PresentColumns(rows) {
      var k :| 0 <= k < |rows| && Error in rows[k];
    }
    if exists k | 0 <= k < |docs| :: docs[k].failure.Some? || docs[k].text == "" {
      var k :| 0 <= k < |docs| && (docs[k].failure.Some? || docs[k].text == "");
      assert Error in rows[k];
      ColumnPlaces(Error);
    }
  }
}
