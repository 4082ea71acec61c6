# TDS receipt extractor: field resolution, modelled in Dafny

`pdf_extractor.py` reads the text of TDS (tax deducted at source) token receipts and
turns each document into a record that maps column names to strings: the
"Tax Invoice cum Token Number", the "Name of Deductor", the date, the TAN, the form
number, the receipt number, the statement type, the financial year, the periodicity and
the rounded total. It then writes one spreadsheet row per document. This project models
how those fields are resolved and proves the priority rules the extractor applies.

The modules follow the program:

- `PyText` (`text.dfy`) holds the Python string semantics the extractor relies on:
  `str.isspace` and the regex `\s` class, `strip()`, `split()`, `split('\n')`, `join`,
  substring `in`, and the whitespace collapse `re.sub(r'\s+', ' ', text)`.
- `Fields` (`fields.dfy`) holds the columns, the `PATTERNS` table (verbatim), the
  `DEFAULT_VALUES` table and the canonical column order.
- `NameCleaner` (`cleaner.dfy`) is `clean_deductor_name`: four noise substitutions,
  each followed by `strip()`, then a rejection on length or placeholder.
- `TextPatterns` (`text_patterns.dfy`) is `extract_field_from_text`, the ordered pattern
  matcher. Python's regular-expression engine is not modelled. `re.search`, as wrapped by
  `safe_regex_search`, is an oracle the caller passes in. It is asked about a `Regex`:
  either an entry of the table or a caller-supplied pattern text.
- `Matchers` (`matchers.dfy`) holds the matchers whose patterns are simple enough to state
  exactly:
  - `extract_receipt_number`, which finds `QVZ` and five capitals;
  - both patterns of `extract_field_from_filename`, with the backtracking of
    `\d+\s+(.+?)\.pdf$` and the `$` that also matches before a final newline;
  - the line and word loops of `extract_field_from_row`.
- `Extractor` (`extractor.dfy`) is `extract_data_from_pdf`. A method builds the record
  key by key, and it is proved equal to a function `ExtractRecord`. The priority
  lemmas are stated about `ExtractRecord`.
- `Batch` (`batch.dfy`) is `process_pdfs`: the per-document error boundary, the
  collection of records and the column filter.

The extracted text, the directory listing, any exception raised while a document is
processed, and whether the spreadsheet save succeeds are all inputs of the model.

The cleaner is not idempotent: the trailing-number substitution `\s+\d+$` removes one
number per call, so "ACME 1 2" cleans to "ACME 1", and cleaning that again gives "ACME"
(`NameCleaner.CleanNotIdempotent`). What does hold is that an already clean name is a
fixed point (`NameCleaner.CleanKeepsCleanName`). Each of the four substitutions removes
what it targets and nothing else: a leading "Token Number" or "Deductor/Collector"
(`NameCleaner.DenoisedDropsBoilerplate`), a receipt-number tail
(`NameCleaner.DenoisedDropsReceiptTail`), a final "be quoted on TDS"
(`NameCleaner.DenoisedDropsQuoted`) and a single trailing number
(`NameCleaner.DenoisedDropsNumber`), each after a name with no other noise. Whatever the
input, the cleaner only deletes characters (`NameCleaner.DenoisedDeletes`).

## Model

| member | source | states |
|---|---|---|
| Fields.PatternsListed | pdf_extractor.py:25-85 | the pattern handles of a field are exactly the entries of its `PATTERNS` list, in order and with their texts; only `FileName` and `Error` have none |
| Fields.ColumnPlaces | pdf_extractor.py:88-94 | every column has its place in the output order; the pattern loop visits exactly the fields other than `FileName` and `Error`; exactly five fields have a `DEFAULT_VALUES` entry, each non-empty |
| Fields.OrdersDistinct | pdf_extractor.py:328-341 | neither the canonical column order nor the pattern table names a column twice |
| PyText.Strip | pdf_extractor.py:125 | `strip()` leaves no leading or trailing whitespace, takes a slice whose removed ends are all whitespace, and leaves a stripped string unchanged |
| PyText.WordsKeepText | pdf_extractor.py:174 | the words of `split()` concatenate to exactly the non-whitespace characters of the line |
| PyText.WordsShape | pdf_extractor.py:174 | every word of `split()` is non-empty and holds no whitespace |
| PyText.JoinSplit | pdf_extractor.py:169 | joining the pieces of `split('\n')` with `'\n'` gives the text back |
| PyText.CollapseIsCollapsed | pdf_extractor.py:238 | after the collapse, every whitespace character is a single space not followed by whitespace |
| PyText.CollapseKeepsText | pdf_extractor.py:238 | the collapse keeps every non-whitespace character, in order |
| PyText.CollapseIdempotent | pdf_extractor.py:238 | collapsing twice is the same as collapsing once |
| PyText.CollapseFixesCollapsed | pdf_extractor.py:238 | a text already in collapsed form is unchanged by the collapse |
| PyText.CollapseAtRun | pdf_extractor.py:238 | a whitespace run between two non-whitespace characters becomes exactly one space, and the text on either side is collapsed on its own |
| PyText.Split | pdf_extractor.py:169 | `split('\n')` gives at least one piece and no piece holds the separator |
| PyText.WordsCons | pdf_extractor.py:174 | a word followed by whitespace is the first word of `split()`, and the split goes on after the whitespace |
| PyText.WordsSkipSpace | pdf_extractor.py:174 | leading whitespace does not change the words of `split()` |
| PyText.RemoveAll | pdf_extractor.py:125 | `re.sub` with literal alternatives never lengthens the text and leaves it unchanged when no alternative occurs in it |
| PyText.RemoveAllShortens | pdf_extractor.py:125 | when an alternative occurs in the text, the deletion makes it strictly shorter |
| PyText.RemoveAllKeepsHead | pdf_extractor.py:125 | text in which no alternative starts is kept whole in front of what the deletion makes of the rest |
| PyText.RemoveAllDeletes | pdf_extractor.py:125 | deleting literal alternatives leaves the text's characters in order, with some left out |
| PyText.StripDeletes | pdf_extractor.py:125 | `strip()` leaves the text's characters in order, with some left out |
| NameCleaner.CleanDeductorName | pdf_extractor.py:119-140 | the empty name comes back as `""`; any other name is rejected (`None`) exactly when its denoised form is shorter than 3, longer than 100 or a placeholder |
| NameCleaner.Denoised | pdf_extractor.py:125-134 | the text after the four substitutions is stripped and no longer than the input; what each substitution removes is stated by the lemmas below |
| NameCleaner.CleanedNameShape | pdf_extractor.py:136-140 | an accepted name has 3 to 100 characters, is not a placeholder and has no surrounding whitespace |
| NameCleaner.CleanKeepsCleanName | pdf_extractor.py:119-140 | a name with nothing to remove and of acceptable length is returned unchanged |
| NameCleaner.CleanRejectsPlaceholders | pdf_extractor.py:121-122 | `"0"`, `"NA"` and `"None"` are rejected; `""` is returned as `""`, not `None` |
| NameCleaner.CleanNotIdempotent | pdf_extractor.py:134 | cleaning "ACME 1 2" gives "ACME 1" and cleaning that gives "ACME": one trailing number goes per call |
| NameCleaner.RemoveReceiptTails | pdf_extractor.py:128 | the substitution never lengthens the name and leaves a name without a receipt tail unchanged |
| NameCleaner.ReceiptTailWhole | pdf_extractor.py:128 | `\s+NA\s+QVZ[A-Z0-9]+` matches the whole of whitespace, `NA`, whitespace, `QVZ` and a run of capitals and digits, and the substitution removes all of it |
| NameCleaner.RemoveReceiptTailsHead | pdf_extractor.py:128 | text with no receipt tail that ends in a non-space is kept whole in front of whatever follows, when what follows starts with whitespace not followed by `Q` |
| NameCleaner.ReceiptTailLocal | pdf_extractor.py:128 | a match starting in such a text is the same whether or not anything follows it |
| NameCleaner.NoTailWithoutQ | pdf_extractor.py:128 | without a `Q` no receipt tail starts anywhere |
| NameCleaner.DropTrailingNumber | pdf_extractor.py:134 | the substitution removes exactly the matched trailing whitespace and digits, keeping a final newline, and nothing when there is no match |
| NameCleaner.DropTrailingDigits | pdf_extractor.py:134 | a name ending in a non-space, then whitespace, then digits loses exactly the whitespace and the digits |
| NameCleaner.DenoisedDropsReceiptTail | pdf_extractor.py:125-134 | a receipt tail after a name with no noise is cut off and the name is then cleaned as if it stood alone; with no trailing number the result is the name |
| NameCleaner.DenoisedDropsNumber | pdf_extractor.py:125-134 | one whitespace-separated number after a name with no noise is removed and nothing else is |
| NameCleaner.DenoisedDropsBoilerplate | pdf_extractor.py:125 | a leading "Token Number" or "Deductor/Collector", with the whitespace after it, is removed, and the rest is cleaned as if it stood alone |
| NameCleaner.DenoisedDropsQuoted | pdf_extractor.py:125-134 | "be quoted on TDS" after a name with no noise, with the whitespace before it, is removed, and the name is cleaned as if it stood alone |
| NameCleaner.QuotedAtEnd | pdf_extractor.py:131 | the third substitution deletes a final "be quoted on TDS" and keeps everything before it, when the phrase does not otherwise occur |
| NameCleaner.CleanDropsReceiptTail | pdf_extractor.py:119-140 | cleaning an acceptable name with no noise and no trailing number, followed by a receipt tail, returns the name |
| NameCleaner.CleanDropsNumber | pdf_extractor.py:119-140 | cleaning an acceptable name with no noise, followed by a whitespace-separated number, returns the name |
| NameCleaner.CleanDropsBoilerplate | pdf_extractor.py:119-140 | cleaning a non-empty name behind a leading boilerplate phrase gives what cleaning the name gives |
| NameCleaner.CleanDropsQuoted | pdf_extractor.py:119-140 | cleaning a name with no noise followed by "be quoted on TDS" gives what cleaning the name gives |
| NameCleaner.CleanDropsReceiptTailExample | pdf_extractor.py:127-128 | "EXAMPLE REALTORS LLP NA QVZABCDE" cleans to "EXAMPLE REALTORS LLP" |
| NameCleaner.CleanDropsLastNumber | pdf_extractor.py:133-134 | "ACME 12" and "ACME 1" clean to "ACME", and "ACME 1 2" to "ACME 1" |
| NameCleaner.NoNoiseWithout | pdf_extractor.py:125-131 | a stripped name without `r`, `b` and `Q` holds neither noise phrase nor a receipt tail |
| NameCleaner.RemoveReceiptTailsDeletes | pdf_extractor.py:128 | removing receipt tails only deletes characters |
| NameCleaner.DropTrailingNumberDeletes | pdf_extractor.py:134 | dropping the trailing number only deletes characters |
| NameCleaner.DenoisedDeletes | pdf_extractor.py:125-134 | the four substitutions and the strips only delete characters: the result is a subsequence of the name |
| NameCleaner.CleanedDeletes | pdf_extractor.py:119-140 | an accepted name is a subsequence of the input: cleaning never adds or reorders characters |
| TextPatterns.TryPattern | pdf_extractor.py:148-160 | no match moves on to the next pattern; a decisive attempt yields a stripped value, and for any field but the name it always yields a value |
| TextPatterns.FirstMatch | pdf_extractor.py:147-162 | every value the pattern loop returns is stripped |
| TextPatterns.FieldFromText | pdf_extractor.py:142-162 | the result is stripped, and a field with no patterns gives `None` |
| TextPatterns.ExtractFieldFromText | pdf_extractor.py:142-162 | the loop with early return computes the first decisive pattern attempt over the given patterns, or over the field's table list when none are given |
| TextPatterns.FirstMatchDecides | pdf_extractor.py:147-160 | the first pattern, in declared order, that matches with a capture (or with no groups) decides the result; later patterns are never consulted |
| TextPatterns.FirstMatchNone | pdf_extractor.py:147-162 | when no pattern is decisive the result is `None` |
| TextPatterns.NameDoesNotFallThrough | pdf_extractor.py:154-156 | for the deductor name, a first match that the cleaner rejects gives `None`: no later pattern is tried |
| TextPatterns.UnknownFieldNotFound | pdf_extractor.py:144-145 | a field with no table entry finds nothing |
| Matchers.ExtractReceiptNumber | pdf_extractor.py:190-196 | a receipt number that is found is eight characters long |
| Matchers.ReceiptNumberFound | pdf_extractor.py:190-196 | a receipt number is found exactly when `QVZ` and five capitals occur; it is the leftmost occurrence, eight characters, starting with `QVZ` |
| Matchers.FindReceiptLeftmost | pdf_extractor.py:193 | the scan finds a match, skips none, and reports none only when there is none |
| Matchers.LeadingDigits | pdf_extractor.py:200-203 | the filename token exists exactly when the name starts with a digit, and it is the maximal leading digit run |
| Matchers.PdfSuffixAt | pdf_extractor.py:205 | `\.pdf$` matches exactly when the name ends in `.pdf`, or in `.pdf` and a newline, and then at that `.pdf` |
| Matchers.NameGroupFrom | pdf_extractor.py:205-206 | a captured filename name is non-empty, has no newline and ends right before the `.pdf` suffix |
| Matchers.NameGroupFromLeftmost | pdf_extractor.py:205 | the capture comes from the leftmost start that matches; `None` means that no start matches |
| Matchers.NameGroupFromSkip | pdf_extractor.py:205 | starts that are not digits are passed over |
| Matchers.BuiltNameGroup | pdf_extractor.py:205-206 | the match at the first digit of a built filename captures exactly the name |
| Matchers.ExtractFieldFromFilename | pdf_extractor.py:198-209 | for a field other than the token and the name the result is `None` |
| Matchers.FilenameNameRoundTrip | pdf_extractor.py:204-207 | a filename built from a prefix without digits, digits, whitespace, a name and `.pdf` yields exactly that name, cleaned: the text between the first digit run with its whitespace and the final `.pdf` |
| Matchers.UntilNA | pdf_extractor.py:178-181 | the collected words are a prefix of the row's words that holds no `"NA"`, and they stop at the first `"NA"` |
| Matchers.CollectUntilNA | pdf_extractor.py:177-181 | the word loop with `break` collects the words before the first `"NA"` |
| Matchers.LineNameWords | pdf_extractor.py:173-181 | the body of the line loop: no words unless the token is in the line and in its first word and there is more than one word |
| Matchers.FirstNameRow | pdf_extractor.py:171-188 | the line loop returns the cleaned join of the first name row's words, or `None` when no line is a name row |
| Matchers.ExtractFieldFromRow | pdf_extractor.py:164-188 | `extract_field_from_row` computes `RowName`: `None` for a falsy token, otherwise the first name row of the raw text decides |
| Matchers.RowNameInFirst | pdf_extractor.py:171-186 | the first line that is a name row decides the result, even when the cleaner rejects it; later lines are not consulted |
| Matchers.RowNameInNone | pdf_extractor.py:171-188 | without a name row there is no name |
| Matchers.RowNameLength | pdf_extractor.py:164-188 | a falsy token gives `None`; a name read from a row is never `""` but has 3 to 100 characters |
| Extractor.ExtractDataFromPdf | pdf_extractor.py:211-290 | the method that builds the record in place returns `ExtractRecord` |
| Extractor.FillPatternFields | pdf_extractor.py:272-282 | the loop over `PATTERNS.keys()`, with its skip and default branches, computes `FillFields` over the table's fields |
| Extractor.StepAt | pdf_extractor.py:272-282 | one iteration of the field loop changes only the visited key, and sets it to `FieldValue` of its old value |
| Extractor.FillFieldsAt | pdf_extractor.py:272-282 | the loop resolves each field on its own: a visited field gets `FieldValue` of the value it held before the loop, and every other key is untouched |
| Extractor.NoTextRecord | pdf_extractor.py:225-228 | with no text the record has exactly `FileName` (the name) and `Error` = "No text extracted", and no field key |
| Extractor.PreliminaryGet | pdf_extractor.py:240-269 | before the loop the record holds the filename and, when truthy, the token, the name and the receipt, and nothing else |
| Extractor.RecordGet | pdf_extractor.py:211-290 | the final value of every key, given by the sources that feed it |
| Extractor.TokenPriority | pdf_extractor.py:240-249 | the token comes from the text patterns when they give a non-empty value, else from the filename, else it is absent |
| Extractor.NamePriority | pdf_extractor.py:251-264 | the name comes from the table row searched with the resolved token, else from the text patterns, else from the filename, else it is absent |
| Extractor.ReceiptPriority | pdf_extractor.py:266-282 | the receipt comes from the `QVZ` scan, else from the receipt patterns, else it is absent; once set it is not overwritten |
| Extractor.DefaultsPresent | pdf_extractor.py:272-282 | every field with a default is present, holding its first pattern match when non-empty and its default otherwise |
| Extractor.MatchedOnly | pdf_extractor.py:272-282 | the date and the TAN are present exactly when their patterns give a non-empty value, and then hold it |
| Extractor.RecordShape | pdf_extractor.py:215-290 | the filename is always present; `Error` is present exactly when there is no text; every other value is non-empty |
| Batch.DocumentRecord | pdf_extractor.py:312-323 | a failed document gives exactly `{FileName, Error}` with the exception message; `Error` is present exactly when the document failed or had no text |
| Batch.Results | pdf_extractor.py:310-323 | one record per document, in the order of the listing |
| Batch.ProcessDocument | pdf_extractor.py:313-323 | the body of the document loop is extraction under the per-document error boundary |
| Batch.CollectResults | pdf_extractor.py:310-323 | the appending loop computes `Results` |
| Batch.ProcessPdfs | pdf_extractor.py:292-354 | a missing directory and an empty listing give `False` with nothing written; otherwise the filtered table is written and the result is whether the save succeeded |
| Batch.Present | pdf_extractor.py:344 | the filter keeps exactly the canonical columns that occur, in canonical order and without repeats |
| Batch.ColumnsInOrder | pdf_extractor.py:328-345 | the output columns are the canonical ones that occur, each once, in canonical order |
| Batch.FileNameFirst | pdf_extractor.py:328-345 | when there is a document, `FileName` is the first output column |
| Batch.NoValueLost | pdf_extractor.py:344-345 | restricting the rows to the output columns drops no value |
| Batch.ErrorColumn | pdf_extractor.py:311-345 | the `Error` column appears exactly when some document raised or gave no text |

## Left out

- Text extraction with pdfplumber (`extract_text_from_pdf`) is a foreign library. Its output is the `text` input of the model.
- Logging, the warning filter and the debug sidecar file are side effects only.
- The pandas DataFrame and `to_excel` are left out. A row is the record restricted to the output columns, and a cell pandas fills with NaN is simply absent. Whether the save succeeds is an input.
- `main` (argument scanning, directory creation, copying PDFs, `input()`) is command-line plumbing.
- setup.py holds packaging metadata only.
- The general semantics of Python's `re` engine are not modelled. The table patterns are consulted through an oracle, which may also report a pattern that does not compile as no match, as `safe_regex_search` does. Only the receipt, filename and row patterns are stated exactly.
- TextPatterns.ExtractFieldFromText: the oracle is keyed by the pattern handle, not the pattern text. Two handles with the same text could therefore be answered differently, and no property here depends on that.
- `os.path.basename` is left out. The filename is given already reduced to its last component.
- The order of `Path.glob` is an input, the order of `docs`.
- Exceptions raised while a document is processed are an input: each document carries an optional exception message. A pdfplumber failure does not reach that boundary, since `extract_text_from_pdf` catches it and returns `""` (pdf_extractor.py:106-108), which gives the "No text extracted" record. What can raise to the boundary at pdf_extractor.py:316 is the debug sidecar write (pdf_extractor.py:231-235), which is left out.
- Matchers.LeadingDigits, Matchers.NameGroupAt, NameCleaner.NumberSuffix: `\d` (in `^(\d+)`, `\d+\s+` and `\s+\d+$`) is modelled as ASCII `0`-`9`. Python's `\d` also accepts the other Unicode decimal digits.
- PyText.IsSpace: `str.isspace` is modelled by the fixed list of Unicode whitespace characters that `\s` matches. Unicode normalisation is not modelled.
- Field names are a datatype of the twelve columns. `Fields.Label` gives each one's exact key text, so a caller cannot pass an unknown field name as a string. For the pattern loop, a field without a table entry behaves like one (`TextPatterns.UnknownFieldNotFound`).
