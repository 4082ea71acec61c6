/**
 * The fixed configuration of the extractor: the output columns, the ordered regular
 * expressions tried for each field (`PATTERNS`), the static defaults
 * (`DEFAULT_VALUES`) and the canonical column order of the output table.
 */
module Fields {

  /** The keys a record can hold. `Label` gives the exact key text. */
  datatype Column =
    | FileName
    | TokenNumber
    | DeductorName
    | Date
    | Tan
    | FormNo
    | ReceiptNo
    | StatementType
    | FinancialYear
    | Periodicity
    | Total
    | Error

  /** The key text of each column, as it appears in the record and the table header. */
  function Label(c: Column): string {
    match c
    case FileName => "FileName"
    case TokenNumber => "Tax Invoice cum Token Number"
    case DeductorName => "Name of Deductor"
    case Date => "Date"
    case Tan => "TAN"
    case FormNo => "Form No"
    case ReceiptNo => "Receipt no.(to be quoted on TDS)"
    case StatementType => "Type of Statement"
    case FinancialYear => "Financial Year"
    case Periodicity => "Periodicity"
    case Total => "Total (Rounded off)"
    case Error => "Error"
  }

  /** The keys of `PATTERNS`, in declaration order (the order the extractor visits them). */
  const PatternFields: seq<Column> :=
    [TokenNumber, DeductorName, Date, Tan, FormNo, ReceiptNo, StatementType, FinancialYear, Periodicity, Total]

  /** The fields resolved before the pattern loop, which the loop does not overwrite. */
  const PreResolved: seq<Column> := [TokenNumber, DeductorName, ReceiptNo]

  /** The output columns, in order. */
  const ColumnOrder: seq<Column> :=
    [FileName, TokenNumber, DeductorName, Date, Tan, FormNo, ReceiptNo, StatementType,
     FinancialYear, Periodicity, Total, Error]

  /** `DEFAULT_VALUES` */
  const Defaults: map<Column, string> := map[
    FormNo := "26Q",
    StatementType := "Regular",
    FinancialYear := "2024-25",
    Periodicity := "Q4",
    Total := "59.00"
  ]

  const Rupee := "\U{20B9}"

  /** `PATTERNS.get(field, [])`: the text of the regular expressions for `field`, most
      specific first. */
  function PatternTexts(field: Column): (ps: seq<string>)
    ensures ps == [] <==> field == FileName || field == Error
  {
    match field
    case TokenNumber => TokenNumberPatterns
    case DeductorName => DeductorNamePatterns
    case Date => DatePatterns
    case Tan => TanPatterns
    case FormNo => FormNoPatterns
    case ReceiptNo => ReceiptNoPatterns
    case StatementType => StatementTypePatterns
    case FinancialYear => FinancialYearPatterns
    case Periodicity => PeriodicityPatterns
    case Total => TotalPatterns
    case FileName => []
    case Error => []
  }

  // The patterns of each field, in the order they are tried.

  const TokenNumberPatterns: seq<string> :=
    [@"Token Number\s+(097979\d{9})",
     @"(097979\d{9})"]

  const DeductorNamePatterns: seq<string> :=
    [@"Name of Deductor\s+([A-Z][A-Z0-9\s&\.]+)(?:\s+NA\s+QVZ)",
     @"Name of Deductor\s+([A-Z][A-Z0-9\s&\.]+(?:REALTORS|INFRA|LLP|ASSOCIATES|PVT|LTD))",
     @"Name of Deductor\s+([A-Z][A-Z0-9\s&\.]+)"]

  const DatePatterns: seq<string> :=
    [@"Date\s+(\d{1,2}\s+[A-Za-z]+\s+\d{4})",
     @"\bDate\b[^0-9]*(\d{1,2}\s+[A-Za-z]+\s+\d{4})"]

  const TanPatterns: seq<string> :=
    [@"TAN\s+([A-Z]{4}\d{5}[A-Z])",
     @"\bTAN\b[^A-Z]*([A-Z]{4}\d{5}[A-Z])",
     @"([A-Z]{4}\d{5}[A-Z])",
     @"(MUMS79818E)",
     @"(PNEA\d{5}[A-Z])",
     @"(PNES\d{5}[A-Z])",
     @"(PNEJ\d{5}[A-Z])",
     @"(PNEM\d{5}[A-Z])"]

  const FormNoPatterns: seq<string> :=
    [@"Form No\s+(26Q)",
     @"\bForm No\b[^0-9]*(26Q)",
     @"(26Q)"]

  const ReceiptNoPatterns: seq<string> :=
    [@"be quoted on TDS\s+(QVZ[A-Z]{5})",
     @"be quoted on TDS\s+([A-Z0-9]+)",
     @"Receipt no\.\(note i\)[^A-Z]*\(to be quoted on TDS\s+(QVZ[A-Z]{5})",
     @"(QVZ[A-Z]{5})"]

  const StatementTypePatterns: seq<string> :=
    [@"Type of Statement\s+(Regular|Correction)",
     @"\bType of Statement\b[^A-Za-z]*(Regular|Correction)",
     @"(Regular)"]

  const FinancialYearPatterns: seq<string> :=
    [@"Financial Year\s+(2024-25)",
     @"\bFinancial Year\b[^0-9]*(2024-25)",
     @"(2024-25)"]

  const PeriodicityPatterns: seq<string> :=
    [@"Periodicity\s+(Q4)",
     @"\bPeriodicity\b[^A-Z0-9]*(Q4)",
     @"(Q4)"]

  const TotalPatterns: seq<string> :=
    [@"Total \(Rounded off\)[^0-9]*\(" + Rupee + @"\)\s*([\d.]+)",
     @"Total \(Rounded off\)[^0-9]*\(" + Rupee + @"\)([\d.]+)",
     @"Total \(Rounded off\)[^0-9]*([\d.]+)",
     @"Total \(Rounded off\)\s+\(\" + Rupee + @"\) ([\d.]+)",
     @"Total \(Rounded off\)\s+\(" + Rupee + @"\) ([\d.]+)",
     @"Total\s*\(Rounded off\)\s+\(" + Rupee + @"\) ([\d.]+)",
     @"Total \(Rounded off\)\s+\(" + Rupee + @"\)([\d.]+)",
     @"(59\.00)"]

  /** A regular expression handed to `re.search`: the pattern at index `rank` of the
      table's list for `field`, or one a caller supplies as text. */
  datatype Regex = Listed(field: Column, rank: nat) | Given(source: string)

  /** The text of a regular expression. */
  function Source(r: Regex): string
    requires r.Listed? ==> r.rank < |PatternTexts(r.field)|
  {
    match r
    case Listed(field, rank) => PatternTexts(field)[rank]
    case Given(source) => source
  }

  /** The length of each list of the pattern table. */
  function PatternCount(field: Column): nat {
    match field
    case TokenNumber => 2
    case DeductorName => 3
    case Date => 2
    case Tan => 8
    case FormNo => 3
    case ReceiptNo => 4
    case StatementType => 3
    case FinancialYear => 3
    case Periodicity => 3
    case Total => 8
    case FileName => 0
    case Error => 0
  }

  /** The patterns tried for `field`, in table order. */
  function PatternsFor(field: Column): (ps: seq<Regex>)
    ensures |ps| == PatternCount(field)
    ensures forall i | 0 <= i < |ps| :: ps[i] == Listed(field, i)
  {
    seq(PatternCount(field), i requires 0 <= i => Listed(field, i))
  }

  /** The listed patterns are exactly the table's: one per entry, each with the entry's
      text, and none for the filename and the error column. */
  lemma {:induction false} PatternsListed(field: Column)
    ensures |PatternsFor(field)| == |PatternTexts(field)|
    ensures forall i | 0 <= i < |PatternTexts(field)| :: Source(PatternsFor(field)[i]) == PatternTexts(field)[i]
    ensures PatternsFor(field) == [] <==> field == FileName || field == Error
  {
    match field
    case TokenNumber => assert |TokenNumberPatterns| == 2;
    case DeductorName => assert |DeductorNamePatterns| == 3;
    case Date => assert |DatePatterns| == 2;
    case Tan => assert |TanPatterns| == 8;
    case FormNo => assert |FormNoPatterns| == 3;
    case ReceiptNo => assert |ReceiptNoPatterns| == 4;
    case StatementType => assert |StatementTypePatterns| == 3;
    case FinancialYear => assert |FinancialYearPatterns| == 3;
    case Periodicity => assert |PeriodicityPatterns| == 3;
    case Total => assert |TotalPatterns| == 8;
    case FileName =>
    case Error =>
  }

  /** A column is visited by the pattern loop exactly when it is neither the filename
      nor the error, and every column has its place in the output order. */
  lemma {:induction false} ColumnPlaces(c: Column)
    ensures c in ColumnOrder
    ensures c in PatternFields <==> c != FileName && c != Error
    ensures c in PreResolved <==> c == TokenNumber || c == DeductorName || c == ReceiptNo
    ensures c in Defaults <==> c == FormNo || c == StatementType || c == FinancialYear || c == Periodicity || c == Total
    ensures c in Defaults ==> Defaults[c] != ""
  {
    OrderPlace(c);
    PatternPlace(c);
    PreResolvedPlace(c);
    DefaultPlace(c);
  }

  lemma {:induction false} OrderPlace(c: Column)
    ensures c in ColumnOrder
  {
    assert ColumnOrder[Position(c)] == c;
  }

  lemma {:induction false} PatternPlace(c: Column)
    ensures c in PatternFields <==> c != FileName && c != Error
  {
    if c != FileName && c != Error {
      assert PatternFields[Position(c) - 1] == c;
    } else {
      assert forall i | 0 <= i < |PatternFields| :: PatternFields[i] != c;
    }
  }

  lemma {:induction false} PreResolvedPlace(c: Column)
    ensures c in PreResolved <==> c == TokenNumber || c == DeductorName || c == ReceiptNo
  {
    assert forall i | 0 <= i < |PreResolved| :: PreResolved[i] == TokenNumber || PreResolved[i] == DeductorName || PreResolved[i] == ReceiptNo;
    if c == TokenNumber { assert PreResolved[0] == c; }
    if c == DeductorName { assert PreResolved[1] == c; }
    if c == ReceiptNo { assert PreResolved[2] == c; }
  }

  lemma {:induction false} DefaultPlace(c: Column)
    ensures c in Defaults <==> c == FormNo || c == StatementType || c == FinancialYear || c == Periodicity || c == Total
    ensures c in Defaults ==> Defaults[c] != ""
  {
  }

  /** No two entries of `cs` are equal. */
  predicate Distinct(cs: seq<Column>) {
    forall i, j | 0 <= i < j < |cs| :: cs[i] != cs[j]
  }

  /** The index of a column in `ColumnOrder`. */
  function Position(c: Column): nat {
    match c
    case FileName => 0
    case TokenNumber => 1
    case DeductorName => 2
    case Date => 3
    case Tan => 4
    case FormNo => 5
    case ReceiptNo => 6
    case StatementType => 7
    case FinancialYear => 8
    case Periodicity => 9
    case Total => 10
    case Error => 11
  }

  /** Neither the output order nor the pattern table names a column twice. */
  lemma {:induction false} OrdersDistinct()
    ensures Distinct(ColumnOrder)
    ensures Distinct(PatternFields)
  {
    assert forall i | 0 <= i < |ColumnOrder| :: Position(ColumnOrder[i]) == i;
    assert forall i | 0 <= i < |PatternFields| :: Position(PatternFields[i]) == i + 1;
  }
}
