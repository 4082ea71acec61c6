/**
 * The matchers whose patterns are simple enough to state exactly: the receipt-number
 * scan, the two filename patterns, and the table-row reader for the deductor name.
 */
module Matchers {
  import opened Wrappers
  import opened PyText
  import opened Fields
  import opened NameCleaner

  const ReceiptPrefix := "QVZ"
  const ReceiptLength := 8

  /** `QVZ[A-Z]{5}` matches at position `i` of `s`. */
  predicate ReceiptAt(s: string, i: nat) {
    i + ReceiptLength <= |s| && s[i..i + 3] == ReceiptPrefix
    && forall k | i + 3 <= k < i + ReceiptLength :: IsUpper(s[k])
  }

  /** The leftmost position at or after `from` where `QVZ[A-Z]{5}` matches. */
  function FindReceipt(s: string, from: nat): Option<nat>
    decreases |s| - from
  {
    if from + ReceiptLength > |s| then None
    else if ReceiptAt(s, from) then Some(from)
    else FindReceipt(s, from + 1)
  }

  /** The scan finds a match, none is skipped, and when it finds nothing there is none. */
  lemma {:induction false} FindReceiptLeftmost(s: string, from: nat)
    ensures var r := FindReceipt(s, from);
      (r.Some? ==> from <= r.value && ReceiptAt(s, r.value))
      && (r.Some? ==> forall j | from <= j < r.value :: !ReceiptAt(s, j))
      && (r.None? ==> forall j: nat | from <= j :: !ReceiptAt(s, j))
    decreases |s| - from
  {
    if from + ReceiptLength <= |s| && !ReceiptAt(s, from) {
      FindReceiptLeftmost(s, from + 1);
    }
  }

  /** `extract_receipt_number(text)`: the leftmost `QVZ` followed by five capital letters. */
  function ExtractReceiptNumber(text: string): (r: Option<string>)
    ensures r.Some? ==> |r.value| == ReceiptLength
  {
    match FindReceipt(text, 0)
    case Some(i) =>
      FindReceiptLeftmost(text, 0);
      Some(text[i..i + ReceiptLength])
    case None => None
  }

  /** A receipt number is found exactly when `QVZ` and five capitals occur; it is the
      leftmost such occurrence, eight characters starting with `QVZ`. */
  lemma {:induction false} ReceiptNumberFound(text: string)
    ensures var r := ExtractReceiptNumber(text);
      (r.Some? <==> exists i: nat :: ReceiptAt(text, i))
      && (r.Some? ==> |r.value| == ReceiptLength && r.value[..3] == ReceiptPrefix)
      && (r.Some? ==> forall k | 3 <= k < ReceiptLength :: IsUpper(r.value[k]))
      && (r.Some? ==> exists i: nat :: (ReceiptAt(text, i) && r.value == text[i..i + ReceiptLength]
                                       && forall j | 0 <= j < i :: !ReceiptAt(text, j)))
  {
    FindReceiptLeftmost(text, 0);
    var r := ExtractReceiptNumber(text);
    if r.Some? {
      var i := FindReceipt(text, 0).value;
      assert r.value == text[i..i + ReceiptLength];
      assert r.value[..3] == text[i..i + 3];
      forall k | 3 <= k < ReceiptLength ensures IsUpper(r.value[k]) {
        assert r.value[k] == text[i + k];
      }
    }
  }

  /** `re.search(r'^(\d+)', filename)`: the maximal run of digits the name starts with. */
  function LeadingDigits(filename: string): (r: Option<string>)
    ensures r.Some? <==> filename != [] && IsDigit(filename[0])
    ensures r.Some? ==> StartsWith(filename, r.value) && forall k | 0 <= k < |r.value| :: IsDigit(r.value[k])
    ensures r.Some? && |r.value| < |filename| ==> !IsDigit(filename[|r.value|])
  {
    var n := Run(filename, IsDigit);
    if n == 0 then None else Some(filename[..n])
  }

  /** The position where `\.pdf$` matches: four characters from the end, or five when the
      name ends in a newline (`$` also matches just before a final newline). */
  function PdfSuffixAt(f: string): (r: Option<nat>)
    ensures r.Some? ==> r.value + 4 <= |f| && f[r.value..r.value + 4] == ".pdf"
    ensures r.Some? ==> r.value + 4 == |f| || (r.value + 5 == |f| && f[|f| - 1] == '\n')
    ensures r.Some? <==> (|f| >= 4 && f[|f| - 4..] == ".pdf") || (|f| >= 5 && f[|f| - 5..] == ".pdf\n")
  {
    if |f| >= 4 && f[|f| - 4..] == ".pdf" then Some(|f| - 4)
    else if |f| >= 5 && f[|f| - 5..] == ".pdf\n" then Some(|f| - 5)
    else None
  }

  /**
   * The capture of `\d+\s+(.+?)\.pdf$` for a match starting at `i`. `\d+` and `\s+` are
   * greedy; `.+?` takes no newline and needs one character, so when the whitespace run
   * reaches `.pdf` itself, `\s+` gives back its last character to the capture.
   */
  function NameGroupAt(f: string, i: nat): (r: Option<string>)
    ensures r.Some? ==> r.value != [] && '\n' !in r.value
    ensures r.Some? ==> (PdfSuffixAt(f).Some? && |r.value| <= PdfSuffixAt(f).value
      && f[PdfSuffixAt(f).value - |r.value|..PdfSuffixAt(f).value] == r.value)
  {
    if i >= |f| || !IsDigit(f[i]) then None
    else
      var j := i + Run(f[i..], IsDigit);
      var k := j + Run(f[j..], IsSpace);
      match PdfSuffixAt(f)
      case None => None
      case Some(q) =>
        if k == j || k > q then None
        else if k < q then (if '\n' in f[k..q] then None else Some(f[k..q]))
        else if k - j >= 2 && f[k - 1] != '\n' then
          assert f[k - 1..q] == [f[k - 1]];
          Some(f[k - 1..q])
        else None
  }

  /** `re.search(r'\d+\s+(.+?)\.pdf$', f)` scanning from position `i`: the leftmost start
      that matches decides the capture. */
  function NameGroupFrom(f: string, i: nat): (r: Option<string>)
    decreases |f| - i
    ensures r.Some? ==> r.value != [] && '\n' !in r.value
    ensures r.Some? ==> (PdfSuffixAt(f).Some? && |r.value| <= PdfSuffixAt(f).value
      && f[PdfSuffixAt(f).value - |r.value|..PdfSuffixAt(f).value] == r.value)
  {
    if i >= |f| then None
    else match NameGroupAt(f, i)
      case Some(g) => Some(g)
      case None => NameGroupFrom(f, i + 1)
  }

  /** `extract_field_from_filename(field, filename)` */
  function ExtractFieldFromFilename(field: Column, filename: string): (r: Option<string>)
    ensures field != TokenNumber && field != DeductorName ==> r == None
  {
    if field == TokenNumber then LeadingDigits(filename)
    else if field == DeductorName then
      match NameGroupFrom(filename, 0)
      case Some(g) => CleanDeductorName(g)
      case None => None
    else None
  }

  /** `NameGroupFrom` reports the match at the leftmost start from `i` on; `None` means
      that no start from `i` on matches. */
  lemma {:induction false} NameGroupFromLeftmost(f: string, i: nat)
    ensures var r := NameGroupFrom(f, i);
      r.Some? ==> exists j | i <= j < |f| :: NameGroupAt(f, j) == r
                    && forall k | i <= k < j :: NameGroupAt(f, k).None?
    ensures NameGroupFrom(f, i).None? ==> forall j: nat | i <= j :: NameGroupAt(f, j).None?
  {
    if NameGroupFrom(f, i).Some? {
      var j := NameGroupFromFound(f, i);
    } else {
      NameGroupFromNone(f, i);
    }
  }

  /** A capture comes from the start `j`, and every start from `i` up to `j` fails. */
  lemma {:induction false} NameGroupFromFound(f: string, i: nat) returns (j: nat)
    requires NameGroupFrom(f, i).Some?
    ensures i <= j < |f| && NameGroupAt(f, j) == NameGroupFrom(f, i)
    ensures forall k | i <= k < j :: NameGroupAt(f, k).None?
    decreases |f| - i
  {
    if NameGroupAt(f, i).None? {
      j := NameGroupFromFound(f, i + 1);
    } else {
      j := i;
    }
  }

  /** No capture means that no start from `i` on matches. */
  lemma {:induction false} NameGroupFromNone(f: string, i: nat)
    requires NameGroupFrom(f, i).None?
    ensures forall j: nat | i <= j :: NameGroupAt(f, j).None?
    decreases |f| - i
  {
    if i < |f| {
      NameGroupFromNone(f, i + 1);
    }
  }

  /**
   * A filename built as a prefix without digits, digits, whitespace, a name and `.pdf`
   * yields that name, cleaned: the capture is the text between the first digit run with
   * its whitespace and the final `.pdf`.
   */
  lemma {:induction false} FilenameNameRoundTrip(pre: string, digits: string, gap: string, name: string)
    requires forall k | 0 <= k < |pre| :: !IsDigit(pre[k])
    requires digits != [] && forall k | 0 <= k < |digits| :: IsDigit(digits[k])
    requires gap != [] && AllSpace(gap)
    requires name != [] && !IsSpace(name[0]) && '\n' !in name
    ensures NameGroupFrom(pre + digits + gap + name + ".pdf", 0) == Some(name)
    ensures ExtractFieldFromFilename(DeductorName, pre + digits + gap + name + ".pdf")
      == CleanDeductorName(name)
  {
    var f := pre + digits + gap + name + ".pdf";
    BuiltNameGroup(pre, digits, gap, name);
    forall k | 0 <= k < |pre| ensures !IsDigit(f[k]) {
      assert f[k] == pre[k];
    }
    NameGroupFromSkip(f, 0, |pre|);
  }

  /** Starts that are not digits do not match, so the scan passes over them. */
  lemma {:induction false} NameGroupFromSkip(f: string, i: nat, m: nat)
    requires i <= m < |f|
    requires forall k | i <= k < m :: !IsDigit(f[k])
    ensures NameGroupFrom(f, i) == NameGroupFrom(f, m)
    decreases m - i
  {
    if i < m {
      NameGroupFromSkip(f, i + 1, m);
    }
  }

  /** The match at the first digit of such a filename captures exactly the name. */
  lemma {:induction false} BuiltNameGroup(pre: string, digits: string, gap: string, name: string)
    requires digits != [] && forall k | 0 <= k < |digits| :: IsDigit(digits[k])
    requires gap != [] && AllSpace(gap)
    requires name != [] && !IsSpace(name[0]) && '\n' !in name
    ensures NameGroupAt(pre + digits + gap + name + ".pdf", |pre|) == Some(name)
  {
    var f := pre + digits + gap + name + ".pdf";
    BuiltRuns(f, pre, digits, gap, name);
    BuiltSuffix(f, pre, digits, gap, name);
    NameGroupAtDigit(f, |pre|, |digits|, |gap|);
  }

  /** The digit run and the whitespace run of such a filename. */
  lemma {:induction false} BuiltRuns(f: string, pre: string, digits: string, gap: string, name: string)
    requires f == pre + digits + gap + name + ".pdf"
    requires digits != [] && forall k | 0 <= k < |digits| :: IsDigit(digits[k])
    requires gap != [] && AllSpace(gap)
    requires name != [] && !IsSpace(name[0])
    ensures |pre| < |f| && IsDigit(f[|pre|]) && Run(f[|pre|..], IsDigit) == |digits|
    ensures Run(f[|pre| + |digits|..], IsSpace) == |gap|
  {
    var rest := name + ".pdf";
    assert f[|pre|..] == digits + (gap + rest);
    RunOfPrefix(digits, gap + rest, IsDigit);
    assert f[|pre| + |digits|..] == gap + rest;
    RunOfPrefix(gap, rest, IsSpace);
  }

  /** `\.pdf$` matches at the end of such a filename, right after the name. */
  lemma {:induction false} BuiltSuffix(f: string, pre: string, digits: string, gap: string, name: string)
    requires f == pre + digits + gap + name + ".pdf"
    requires '\n' !in name
    ensures |pre| + |digits| + |gap| + |name| + 4 == |f| && PdfSuffixAt(f) == Some(|f| - 4)
    ensures f[|pre| + |digits| + |gap|..|f| - 4] == name
  {
    assert f[|f| - 4..] == ".pdf";
    assert f[|pre| + |digits| + |gap|..|f| - 4] == name;
  }

  /** The match at position `i` when the digit run, the whitespace run and the suffix are
      known. */
  lemma {:induction false} NameGroupAtDigit(f: string, i: nat, d: nat, g: nat)
    requires 0 < d && 0 < g && i + d + g < |f| - 4
    requires IsDigit(f[i]) && Run(f[i..], IsDigit) == d && Run(f[i + d..], IsSpace) == g
    requires PdfSuffixAt(f) == Some(|f| - 4) && '\n' !in f[i + d + g..|f| - 4]
    ensures NameGroupAt(f, i) == Some(f[i + d + g..|f| - 4])
  {
  }

  /** The words of `ws` up to, and not including, the first `"NA"`. */
  function UntilNA(ws: seq<string>): (r: seq<string>)
    ensures |r| <= |ws| && r == ws[..|r|] && "NA" !in r
    ensures |r| < |ws| ==> ws[|r|] == "NA"
  {
    if ws == [] || ws[0] == "NA" then [] else [ws[0]] + UntilNA(ws[1..])
  }

  /** The candidate name words of one line: when the token occurs in the line and in its
      first word, the following words up to the first `"NA"`; otherwise none. */
  function RowNameWords(line: string, token: string): seq<string> {
    var parts := Words(line);
    if Contains(token, line) && |parts| > 1 && Contains(token, parts[0]) then UntilNA(parts[1..]) else []
  }

  predicate IsNameRow(line: string, token: string) {
    RowNameWords(line, token) != []
  }

  /** `extract_field_from_row` on the lines of the text: the first name row decides. */
  function RowNameIn(lines: seq<string>, token: string): Option<string> {
    if lines == [] then None
    else if IsNameRow(lines[0], token) then CleanDeductorName(Join(RowNameWords(lines[0], token), " "))
    else RowNameIn(lines[1..], token)
  }

  /** The first line that is a name row decides the result: its words joined by single
      spaces and cleaned, even when the cleaner rejects them. Later lines are not
      consulted. */
  lemma {:induction false} RowNameInFirst(lines: seq<string>, token: string, i: nat)
    requires i < |lines| && IsNameRow(lines[i], token)
    requires forall k | 0 <= k < i :: !IsNameRow(lines[k], token)
    ensures RowNameIn(lines, token) == CleanDeductorName(Join(RowNameWords(lines[i], token), " "))
    decreases i
  {
    if i > 0 {
      assert !IsNameRow(lines[0], token);
      assert lines[1..][i - 1] == lines[i];
      forall k | 0 <= k < i - 1 ensures !IsNameRow(lines[1..][k], token) {
        assert lines[1..][k] == lines[k + 1];
      }
      RowNameInFirst(lines[1..], token, i - 1);
    }
  }

  /** Without a name row there is no name. */
  lemma {:induction false} RowNameInNone(lines: seq<string>, token: string)
    requires forall i | 0 <= i < |lines| :: !IsNameRow(lines[i], token)
    ensures RowNameIn(lines, token) == None
    decreases |lines|
  {
    if lines != [] {
      assert !IsNameRow(lines[0], token);
      forall k | 0 <= k < |lines| - 1 ensures !IsNameRow(lines[1..][k], token) {
        assert lines[1..][k] == lines[k + 1];
      }
      RowNameInNone(lines[1..], token);
    }
  }

  /** `extract_field_from_row(text, token_number)`, as a value. */
  function RowName(text: string, token: Option<string>): Option<string> {
    if !Truthy(token) then None else RowNameIn(Split(text, '\n'), token.value)
  }

  lemma {:induction false} JoinNonEmpty(ws: seq<string>, sep: string)
    requires ws != [] && ws[0] != []
    ensures Join(ws, sep) != []
  {
  }

  /** The words a name row contributes are non-empty, so their join is never `""`. */
  lemma {:induction false} RowNameWordsNonEmpty(line: string, token: string)
    requires IsNameRow(line, token)
    ensures Join(RowNameWords(line, token), " ") != []
  {
    var parts := Words(line);
    var ws := RowNameWords(line, token);
    assert ws == UntilNA(parts[1..]);
    assert ws[0] == parts[1..][0] == parts[1];
    WordsShape(line, 1);
    JoinNonEmpty(ws, " ");
  }

  lemma {:induction false} RowNameInLength(lines: seq<string>, token: string)
    ensures var r := RowNameIn(lines, token); r.Some? ==> MinLength <= |r.value| <= MaxLength
    decreases |lines|
  {
    if lines != [] {
      if IsNameRow(lines[0], token) {
        RowNameWordsNonEmpty(lines[0], token);
      } else {
        RowNameInLength(lines[1..], token);
      }
    }
  }

  /** A name read from a row is never the empty string: it is either rejected or between
      3 and 100 characters long. */
  lemma {:induction false} RowNameLength(text: string, token: Option<string>)
    ensures var r := RowName(text, token);
      (!Truthy(token) ==> r == None) && (r.Some? ==> MinLength <= |r.value| <= MaxLength)
  {
    if Truthy(token) {
      RowNameInLength(Split(text, '\n'), token.value);
    }
  }

  /** One step of the line loop: a name row decides, any other line is passed over. */
  lemma {:induction false} RowNameInStep(lines: seq<string>, i: nat, token: string)
    requires i < |lines|
    ensures RowNameIn(lines[i..], token) ==
      if IsNameRow(lines[i], token) then CleanDeductorName(Join(RowNameWords(lines[i], token), " "))
      else RowNameIn(lines[i + 1..], token)
  {
    assert lines[i..][0] == lines[i];
    assert lines[i..][1..] == lines[i + 1..];
  }

  /** The inner loop of `extract_field_from_row`: the words taken before the first `"NA"`. */
  method CollectUntilNA(words: seq<string>) returns (nameParts: seq<string>)
    ensures nameParts == UntilNA(words)
  {
    nameParts := [];
    var j := 0;
    while j < |words|
      invariant 0 <= j <= |words|
      invariant nameParts == words[..j]
      invariant "NA" !in nameParts
    {
      if words[j] == "NA" {
        break;
      }
      nameParts := nameParts + [words[j]];
      j := j + 1;
    }
    UntilNAPrefix(words, j);
  }

  /** The body of the line loop of `extract_field_from_row`: the name words `line` offers. */
  method LineNameWords(line: string, token: string) returns (nameParts: seq<string>)
    ensures nameParts == RowNameWords(line, token)
  {
    nameParts := [];
    if Contains(token, line) {
      var parts := Words(line);
      if |parts| > 1 && Contains(token, parts[0]) {
        nameParts := CollectUntilNA(parts[1..]);
      }
    }
  }

  /** The line loop of `extract_field_from_row`: the first name row decides. */
  method FirstNameRow(lines: seq<string>, token: string) returns (r: Option<string>)
    ensures r == RowNameIn(lines, token)
  {
    var i := 0;
    while i < |lines|
      invariant 0 <= i <= |lines|
      invariant RowNameIn(lines[i..], token) == RowNameIn(lines, token)
    {
      RowNameInStep(lines, i, token);
      var nameParts := LineNameWords(lines[i], token);
      if nameParts != [] {
        r := CleanDeductorName(Join(nameParts, " "));
        return;
      }
      i := i + 1;
    }
    r := None;
  }

  /** `extract_field_from_row(text, token_number)` */
  method ExtractFieldFromRow(text: string, token: Option<string>) returns (r: Option<string>)
    ensures r == RowName(text, token)
  {
    if !Truthy(token) {
      return None;
    }
    r := FirstNameRow(Split(text, '\n'), token.value);
  }

  lemma {:induction false} UntilNAPrefix(ws: seq<string>, k: nat)
    requires k <= |ws| && "NA" !in ws[..k]
    requires k == |ws| || ws[k] == "NA"
    ensures UntilNA(ws) == ws[..k]
    decreases k
  {
    if k > 0 {
      assert ws[0] == ws[..k][0];
      assert ws[1..][..k - 1] == ws[1..k];
      UntilNAPrefix(ws[1..], k - 1);
      assert ws[..k] == [ws[0]] + ws[1..k];
    }
  }
}
