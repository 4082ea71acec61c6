/**
 * `extract_data_from_pdf`: the record of one document, built key by key from the token
 * number, the deductor name, the receipt number and then every field of the pattern
 * table, each with its own order of sources.
 */
module Extractor {
  import opened Wrappers
  import opened PyText
  import opened Fields
  import opened NameCleaner
  import opened TextPatterns
  import opened Matchers

  /** A record: column name to value, as the Python dictionary holds it. */
  type Record = map<Column, string>

  const NoTextError := "No text extracted"

  /** `record.get(key)` */
  function Get(r: Record, key: Column): Option<string> {
    if key in r then Some(r[key]) else None
  }

  /** Python's `a or b` on two optional strings: the first one that is truthy. */
  function FirstTruthy(a: Option<string>, b: Option<string>): Option<string> {
    if Truthy(a) then a else b
  }

  /** `if value: record[key] = value` */
  function SetIfTruthy(r: Record, key: Column, value: Option<string>): Record {
    if Truthy(value) then r[key := value.value] else r
  }

  /** The token number: the text patterns first, then the filename. */
  function TokenValue(filename: string, clean: string, search: Oracle): Option<string> {
    FirstTruthy(FieldFromText(TokenNumber, clean, search, []), ExtractFieldFromFilename(TokenNumber, filename))
  }

  /** The deductor name: the table row of the raw text, then the text patterns, then the
      filename. */
  function NameValue(filename: string, text: string, clean: string, token: Option<string>, search: Oracle): Option<string> {
    FirstTruthy(RowName(text, token),
      FirstTruthy(FieldFromText(DeductorName, clean, search, []), ExtractFieldFromFilename(DeductorName, filename)))
  }

  /** The record before the pattern loop: the filename and the three fields resolved first. */
  function Preliminary(filename: string, text: string, search: Oracle): Record {
    var clean := Collapse(text);
    var token := TokenValue(filename, clean, search);
    var r := SetIfTruthy(map[FileName := filename], TokenNumber, token);
    var r := SetIfTruthy(r, DeductorName, NameValue(filename, text, clean, token, search));
    SetIfTruthy(r, ReceiptNo, ExtractReceiptNumber(clean))
  }

  /** The value `field` holds once the pattern loop has visited it, given the value it
      held before and `v`, what its patterns give. */
  function FieldValue(current: Option<string>, field: Column, v: Option<string>): Option<string> {
    if field in PreResolved && current.Some? then current
    else if Truthy(v) then v
    else if field in Defaults then Some(Defaults[field])
    else current
  }

  /** One iteration of the pattern loop of pdf_extractor.py:273-282, where `v` is what
      `extract_field_from_text(field, clean_text)` gives. */
  function Step(r: Record, field: Column, v: Option<string>): Record {
    if field in PreResolved && field in r then r
    else if Truthy(v) then r[field := v.value]
    else if field in Defaults then r[field := Defaults[field]]
    else r
  }

  /** The pattern loop over `fields`, in order. */
  function FillFields(r: Record, fields: seq<Column>, clean: string, search: Oracle): Record
    decreases |fields|
  {
    if fields == [] then r else FillFields(Step(r, fields[0], FieldFromText(fields[0], clean, search, [])), fields[1..], clean, search)
  }

  /** The record `extract_data_from_pdf` returns for a document named `filename` whose
      extracted text is `text`. */
  function ExtractRecord(filename: string, text: string, search: Oracle): Record {
    if text == "" then map[FileName := filename, Error := NoTextError]
    else FillFields(Preliminary(filename, text, search), PatternFields, Collapse(text), search)
  }

  /** `extract_data_from_pdf`, with the text extraction done by the caller. */
  method ExtractDataFromPdf(filename: string, text: string, search: Oracle) returns (result: Record)
    ensures result == ExtractRecord(filename, text, search)
  {
    result := map[FileName := filename];
    if text == "" {
      result := result[Error := NoTextError];
      return;
    }
    var clean := Collapse(text);

    var token := ExtractFieldFromText(TokenNumber, clean, search, []);
    if !Truthy(token) {
      token := ExtractFieldFromFilename(TokenNumber, filename);
    }
    if Truthy(token) {
      result := result[TokenNumber := token.value];
    }

    var name := ExtractFieldFromRow(text, token);
    if !Truthy(name) {
      name := ExtractFieldFromText(DeductorName, clean, search, []);
    }
    if !Truthy(name) {
      name := ExtractFieldFromFilename(DeductorName, filename);
    }
    if Truthy(name) {
      result := result[DeductorName := name.value];
    }

    var receipt := ExtractReceiptNumber(clean);
    if Truthy(receipt) {
      result := result[ReceiptNo := receipt.value];
    }

    result := FillPatternFields(result, clean, search);
  }

  /** The loop of `extract_data_from_pdf` over the fields of the pattern table: a field
      already resolved first is skipped, otherwise its first pattern match is stored, or
      its default when it has one. */
  method FillPatternFields(record: Record, clean: string, search: Oracle) returns (result: Record)
    ensures result == FillFields(record, PatternFields, clean, search)
  {
    result := record;
    var i := 0;
    while i < |PatternFields|
      invariant 0 <= i <= |PatternFields|
      invariant FillFields(result, PatternFields[i..], clean, search) == FillFields(record, PatternFields, clean, search)
    {
      var field := PatternFields[i];
      FillFieldsFirst(result, PatternFields, i, clean, search);
      if field in PreResolved && field in result {
        i := i + 1;
        continue;
      }
      var value := ExtractFieldFromText(field, clean, search, []);
      if Truthy(value) {
        result := result[field := value.value];
      } else if field in Defaults {
        result := result[field := Defaults[field]];
      }
      i := i + 1;
    }
  }

  /** The loop over `fields[i..]` is the visit of `fields[i]` followed by the loop over the rest. */
  lemma {:induction false} FillFieldsFirst(r: Record, fields: seq<Column>, i: nat, clean: string, search: Oracle)
    requires i < |fields|
    ensures FillFields(r, fields[i..], clean, search) ==
      FillFields(Step(r, fields[i], FieldFromText(fields[i], clean, search, [])), fields[i + 1..], clean, search)
  {
    assert fields[i..][0] == fields[i] && fields[i..][1..] == fields[i + 1..];
  }

  /** A visit of `field` changes no other key, and leaves `field` with `FieldValue`. */
  lemma {:induction false} StepAt(r: Record, field: Column, v: Option<string>, key: Column)
    ensures Get(Step(r, field, v), key) == if key == field then FieldValue(Get(r, field), field, v) else Get(r, key)
  {
    if key == field {
      StepOwn(r, field, v);
    } else {
      StepOther(r, field, v, key);
    }
  }

  /** The visited field ends with `FieldValue`. */
  lemma {:induction false} StepOwn(r: Record, field: Column, v: Option<string>)
    ensures Get(Step(r, field, v), field) == FieldValue(Get(r, field), field, v)
  {
  }

  /** Every other key is untouched. */
  lemma {:induction false} StepOther(r: Record, field: Column, v: Option<string>, key: Column)
    requires key != field
    ensures Get(Step(r, field, v), key) == Get(r, key)
  {
  }

  /** The pattern loop resolves every field independently: a field of the list ends with
      `FieldValue` of the value it held before the loop, every other key is untouched. */
  lemma {:induction false} FillFieldsAt(r: Record, fields: seq<Column>, clean: string, search: Oracle, key: Column)
    requires Distinct(fields)
    ensures key !in fields ==> Get(FillFields(r, fields, clean, search), key) == Get(r, key)
    ensures key in fields ==>
      Get(FillFields(r, fields, clean, search), key) ==
        FieldValue(Get(r, key), key, FieldFromText(key, clean, search, []))
    decreases |fields|
  {
    if fields != [] {
      var v := FieldFromText(fields[0], clean, search, []);
      var r' := Step(r, fields[0], v);
      assert Distinct(fields[1..]);
      FillFieldsAt(r', fields[1..], clean, search, key);
      StepAt(r, fields[0], v, key);
      if key in fields && key != fields[0] {
        assert key in fields[1..];
      }
      if key == fields[0] {
        assert key !in fields[1..];
      }
    }
  }

  /** A field of the pattern table in the final record, given by the value it held before the loop. */
  lemma {:induction false} RecordAt(filename: string, text: string, search: Oracle, key: Column)
    requires text != ""
    ensures var rec := ExtractRecord(filename, text, search);
      var pre := Preliminary(filename, text, search);
      (key in PatternFields ==> Get(rec, key) == FieldValue(Get(pre, key), key, FieldFromText(key, Collapse(text), search, [])))
      && (key !in PatternFields ==> Get(rec, key) == Get(pre, key))
  {
    OrdersDistinct();
    ColumnPlaces(key);
    FillFieldsAt(Preliminary(filename, text, search), PatternFields, Collapse(text), search, key);
  }

  /** With no text the record holds the filename and the error, and nothing else. */
  lemma {:induction false} NoTextRecord(filename: string, search: Oracle)
    ensures var rec := ExtractRecord(filename, "", search);
      rec.Keys == {FileName, Error} && rec[FileName] == filename && rec[Error] == NoTextError
      && forall f | f in PatternFields :: f !in rec
  {
    var rec := ExtractRecord(filename, "", search);
    forall f | f in PatternFields ensures f !in rec {
      assert f != FileName && f != Error;
    }
  }

  /** A conditional store changes at most its own key. */
  lemma {:induction false} SetIfTruthyGet(r: Record, k: Column, v: Option<string>, key: Column)
    ensures Get(SetIfTruthy(r, k, v), key) == if key == k && Truthy(v) then v else Get(r, key)
  {
  }

  /** The record before the pattern loop, key by key. */
  lemma {:induction false} PreliminaryGet(filename: string, text: string, search: Oracle, key: Column)
    ensures var clean := Collapse(text);
      var token := TokenValue(filename, clean, search);
      var name := NameValue(filename, text, clean, token, search);
      var receipt := ExtractReceiptNumber(clean);
      Get(Preliminary(filename, text, search), key) ==
        if key == TokenNumber then (if Truthy(token) then token else None)
        else if key == DeductorName then (if Truthy(name) then name else None)
        else if key == ReceiptNo then receipt
        else if key == FileName then Some(filename)
        else None
  {
    var clean := Collapse(text);
    var token := TokenValue(filename, clean, search);
    var name := NameValue(filename, text, clean, token, search);
    var receipt := ExtractReceiptNumber(clean);
    var r0: Record := map[FileName := filename];
    var r1 := SetIfTruthy(r0, TokenNumber, token);
    var r2 := SetIfTruthy(r1, DeductorName, name);
    SetIfTruthyGet(r0, TokenNumber, token, key);
    SetIfTruthyGet(r1, DeductorName, name, key);
    SetIfTruthyGet(r2, ReceiptNo, receipt, key);
    assert receipt.Some? ==> Truthy(receipt);
  }

  /** A key of the final record, given by the sources that feed it. */
  lemma {:induction false} RecordGet(filename: string, text: string, search: Oracle, key: Column)
    requires text != ""
    ensures var clean := Collapse(text);
      var token := TokenValue(filename, clean, search);
      var name := NameValue(filename, text, clean, token, search);
      var v := FieldFromText(key, clean, search, []);
      Get(ExtractRecord(filename, text, search), key) ==
        if key == TokenNumber then (if Truthy(token) then token else None)
        else if key == DeductorName then (if Truthy(name) then name else None)
        else if key == ReceiptNo then
          (if ExtractReceiptNumber(clean).Some? then ExtractReceiptNumber(clean) else if Truthy(v) then v else None)
        else if key == FileName then Some(filename)
        else if key == Error then None
        else if Truthy(v) then v
        else if key in Defaults then Some(Defaults[key])
        else None
  {
    var clean := Collapse(text);
    var token := TokenValue(filename, clean, search);
    var name := NameValue(filename, text, clean, token, search);
    var receipt := ExtractReceiptNumber(clean);
    var v := FieldFromText(key, clean, search, []);
    RecordAt(filename, text, search, key);
    PreliminaryGet(filename, text, search, key);
    assert key == TokenNumber && !Truthy(token) ==> !Truthy(v);
    assert key == DeductorName && !Truthy(name) ==> !Truthy(v);
    ResolveKey(filename, token, name, receipt, v, Get(Preliminary(filename, text, search), key), key);
  }

  /** The case analysis of `RecordGet`, on the values alone. */
  lemma {:induction false} ResolveKey(filename: string, token: Option<string>, name: Option<string>,
                                      receipt: Option<string>, v: Option<string>, current: Option<string>, key: Column)
    requires current ==
      if key == TokenNumber then (if Truthy(token) then token else None)
      else if key == DeductorName then (if Truthy(name) then name else None)
      else if key == ReceiptNo then receipt
      else if key == FileName then Some(filename)
      else None
    requires receipt.Some? ==> Truthy(receipt)
    requires key == TokenNumber && !Truthy(token) ==> !Truthy(v)
    requires key == DeductorName && !Truthy(name) ==> !Truthy(v)
    ensures (if key in PatternFields then FieldValue(current, key, v) else current) ==
      if key == TokenNumber then (if Truthy(token) then token else None)
      else if key == DeductorName then (if Truthy(name) then name else None)
      else if key == ReceiptNo then (if receipt.Some? then receipt else if Truthy(v) then v else None)
      else if key == FileName then Some(filename)
      else if key == Error then None
      else if Truthy(v) then v
      else if key in Defaults then Some(Defaults[key])
      else None
  {
    ColumnPlaces(key);
  }

  /** The token number comes from the text patterns when they give a non-empty value,
      otherwise from the filename, otherwise it is absent. */
  lemma {:induction false} TokenPriority(filename: string, text: string, search: Oracle)
    requires text != ""
    ensures var rec := ExtractRecord(filename, text, search);
      var fromText := FieldFromText(TokenNumber, Collapse(text), search, []);
      var fromName := ExtractFieldFromFilename(TokenNumber, filename);
      (Truthy(fromText) ==> Get(rec, TokenNumber) == fromText)
      && (!Truthy(fromText) && Truthy(fromName) ==> Get(rec, TokenNumber) == fromName)
      && (!Truthy(fromText) && !Truthy(fromName) ==> TokenNumber !in rec)
  {
    RecordGet(filename, text, search, TokenNumber);
  }

  /** The deductor name comes from the table row (searched with the token number the
      record holds), then from the text patterns, then from the filename; it is absent
      when none gives a non-empty value. */
  lemma {:induction false} NamePriority(filename: string, text: string, search: Oracle)
    requires text != ""
    ensures var rec := ExtractRecord(filename, text, search);
      var fromRow := RowName(text, Get(rec, TokenNumber));
      var fromText := FieldFromText(DeductorName, Collapse(text), search, []);
      var fromName := ExtractFieldFromFilename(DeductorName, filename);
      (Truthy(fromRow) ==> Get(rec, DeductorName) == fromRow)
      && (!Truthy(fromRow) && Truthy(fromText) ==> Get(rec, DeductorName) == fromText)
      && (!Truthy(fromRow) && !Truthy(fromText) && Truthy(fromName) ==> Get(rec, DeductorName) == fromName)
      && (!Truthy(fromRow) && !Truthy(fromText) && !Truthy(fromName) ==> DeductorName !in rec)
  {
    var clean := Collapse(text);
    var token := TokenValue(filename, clean, search);
    RecordGet(filename, text, search, TokenNumber);
    RecordGet(filename, text, search, DeductorName);
    var rec := ExtractRecord(filename, text, search);
    assert RowName(text, Get(rec, TokenNumber)) == RowName(text, token);
  }

  /** The receipt number comes from the scan for `QVZ` and five capitals, then from the
      receipt patterns; it is absent when neither finds one. */
  lemma {:induction false} ReceiptPriority(filename: string, text: string, search: Oracle)
    requires text != ""
    ensures var rec := ExtractRecord(filename, text, search);
      var fromScan := ExtractReceiptNumber(Collapse(text));
      var fromText := FieldFromText(ReceiptNo, Collapse(text), search, []);
      (fromScan.Some? ==> Get(rec, ReceiptNo) == fromScan)
      && (fromScan.None? && Truthy(fromText) ==> Get(rec, ReceiptNo) == fromText)
      && (fromScan.None? && !Truthy(fromText) ==> ReceiptNo !in rec)
  {
    RecordGet(filename, text, search, ReceiptNo);
  }

  /** Every field with a default is present: its first pattern match when that is
      non-empty, its default otherwise. */
  lemma {:induction false} DefaultsPresent(filename: string, text: string, search: Oracle, field: Column)
    requires text != "" && field in Defaults
    ensures var rec := ExtractRecord(filename, text, search);
      var v := FieldFromText(field, Collapse(text), search, []);
      field in rec && rec[field] == (if Truthy(v) then v.value else Defaults[field])
  {
    ColumnPlaces(field);
    RecordGet(filename, text, search, field);
  }

  /** The date and the TAN have no default: each is present exactly when its patterns give
      a non-empty value, and then holds that value. */
  lemma {:induction false} MatchedOnly(filename: string, text: string, search: Oracle, field: Column)
    requires text != "" && (field == Date || field == Tan)
    ensures var rec := ExtractRecord(filename, text, search);
      var v := FieldFromText(field, Collapse(text), search, []);
      (field in rec <==> Truthy(v)) && (field in rec ==> rec[field] == v.value)
  {
    ColumnPlaces(field);
    RecordGet(filename, text, search, field);
  }

  /** The filename is always there; the error key is there exactly when no text was
      extracted; every other value is non-empty. */
  lemma {:induction false} RecordShape(filename: string, text: string, search: Oracle)
    ensures var rec := ExtractRecord(filename, text, search);
      FileName in rec && rec[FileName] == filename
      && (Error in rec <==> text == "")
      && (text != "" ==> forall k | k in rec && k != FileName :: rec[k] != "")
  {
    if text != "" {
      var rec := ExtractRecord(filename, text, search);
      forall k | k in rec && k != FileName ensures rec[k] != "" {
        ColumnPlaces(k);
        RecordGet(filename, text, search, k);
        assert Get(rec, k) == Some(rec[k]);
      }
      RecordGet(filename, text, search, FileName);
      RecordGet(filename, text, search, Error);
    }
  }
}
