/**
 * `extract_field_from_text`: the ordered pattern matcher. Python's regular-expression
 * engine is not modelled; `re.search` is an oracle passed in by the caller.
 */
module TextPatterns {
  import opened Wrappers
  import opened PyText
  import opened Fields
  import opened NameCleaner

  /** What `re.search` reports: the whole match and each capture group, `None` for a
      group that did not take part in the match. */
  datatype RegexMatch = RegexMatch(whole: string, groups: seq<Option<string>>)

  /** `safe_regex_search(Source(pattern), text)`: the match, or `None` when there is no
      match or the pattern does not compile. */
  type Oracle = (Regex, string) -> Option<RegexMatch>

  /** Outcome of trying one pattern: `Next` goes on to the following pattern, `Return(v)`
      ends the search with `v`. */
  datatype Attempt = Next | Return(v: Option<string>)

  /** One iteration of the pattern loop of pdf_extractor.py:147-160. */
  function TryPattern(field: Column, pattern: Regex, text: string, search: Oracle): (a: Attempt)
    ensures search(pattern, text).None? ==> a.Next?
    ensures a.Return? && a.v.Some? ==> IsStripped(a.v.value)
    ensures a.Return? && field != DeductorName ==> a.v.Some?
  {
    match search(pattern, text)
    case None => Next
    case Some(m) =>
      if |m.groups| > 0 then
        match m.groups[0]
        case None => Next  // `None.strip()` raises AttributeError, which is skipped
        case Some(g) =>
          var value := Strip(g);
          Return(if field == DeductorName then CleanDeductorName(value) else Some(value))
      else Return(Some(Strip(m.whole)))
  }

  /** The pattern list used: the one given, or the field's own when none is given. */
  function PatternList(field: Column, patterns: seq<Regex>): seq<Regex> {
    if patterns == [] then PatternsFor(field) else patterns
  }

  /** The pattern loop as a value: the first decisive attempt ends it. */
  function FirstMatch(field: Column, patterns: seq<Regex>, text: string, search: Oracle): (r: Option<string>)
    ensures r.Some? ==> IsStripped(r.value)
  {
    if patterns == [] then None
    else match TryPattern(field, patterns[0], text, search)
      case Return(v) => v
      case Next => FirstMatch(field, patterns[1..], text, search)
  }

  /** The first pattern, in order, whose attempt ends the search decides the result;
      later patterns are not consulted. */
  lemma {:induction false} FirstMatchDecides(field: Column, patterns: seq<Regex>, text: string, search: Oracle, k: nat)
    requires k < |patterns| && TryPattern(field, patterns[k], text, search).Return?
    requires forall j | 0 <= j < k :: TryPattern(field, patterns[j], text, search).Next?
    ensures FirstMatch(field, patterns, text, search) == TryPattern(field, patterns[k], text, search).v
    decreases k
  {
    if k > 0 {
      assert TryPattern(field, patterns[0], text, search).Next?;
      assert patterns[1..][k - 1] == patterns[k];
      forall j | 0 <= j < k - 1 ensures TryPattern(field, patterns[1..][j], text, search).Next? {
        assert patterns[1..][j] == patterns[j + 1];
      }
      FirstMatchDecides(field, patterns[1..], text, search, k - 1);
    }
  }

  /** When no pattern is decisive, nothing is found. */
  lemma {:induction false} FirstMatchNone(field: Column, patterns: seq<Regex>, text: string, search: Oracle)
    requires forall k | 0 <= k < |patterns| :: TryPattern(field, patterns[k], text, search).Next?
    ensures FirstMatch(field, patterns, text, search) == None
    decreases |patterns|
  {
    if patterns != [] {
      assert TryPattern(field, patterns[0], text, search).Next?;
      forall j | 0 <= j < |patterns| - 1 ensures TryPattern(field, patterns[1..][j], text, search).Next? {
        assert patterns[1..][j] == patterns[j + 1];
      }
      FirstMatchNone(field, patterns[1..], text, search);
    }
  }

  /** `extract_field_from_text(field, text, patterns)`, as a value. */
  function FieldFromText(field: Column, text: string, search: Oracle, patterns: seq<Regex>): (r: Option<string>)
    ensures r.Some? ==> IsStripped(r.value)
    ensures PatternList(field, patterns) == [] ==> r.None?
  {
    FirstMatch(field, PatternList(field, patterns), text, search)
  }

  /** `extract_field_from_text`: the loop with early return. */
  method ExtractFieldFromText(field: Column, text: string, search: Oracle, patterns: seq<Regex>)
    returns (r: Option<string>)
    ensures r == FieldFromText(field, text, search, patterns)
  {
    var ps := if patterns == [] then PatternsFor(field) else patterns;
    var i := 0;
    while i < |ps|
      invariant 0 <= i <= |ps|
      invariant FirstMatch(field, ps[i..], text, search) == FirstMatch(field, ps, text, search)
    {
      var found := search(ps[i], text);
      if found.Some? {
        var m := found.value;
        if |m.groups| > 0 {
          if m.groups[0].Some? {
            var value := Strip(m.groups[0].value);
            if field == DeductorName {
              r := CleanDeductorName(value);
            } else {
              r := Some(value);
            }
            return;
          }
        } else {
          r := Some(Strip(m.whole));
          return;
        }
      }
      assert ps[i..][1..] == ps[i + 1..];
      i := i + 1;
    }
    r := None;
  }

  /** For the deductor name the first matching pattern's cleaned capture stands even when
      the cleaner rejects it: later patterns are not consulted. */
  lemma {:induction false} NameDoesNotFallThrough(patterns: seq<Regex>, text: string, search: Oracle, k: nat)
    requires k < |patterns|
    requires forall j | 0 <= j < k :: TryPattern(DeductorName, patterns[j], text, search).Next?
    requires search(patterns[k], text).Some?
    requires var m := search(patterns[k], text).value;
      |m.groups| > 0 && m.groups[0].Some? && CleanDeductorName(Strip(m.groups[0].value)).None?
    ensures FirstMatch(DeductorName, patterns, text, search) == None
  {
    assert TryPattern(DeductorName, patterns[k], text, search) == Return(None);
    FirstMatchDecides(DeductorName, patterns, text, search, k);
  }

  /** A field the table does not know has no patterns, so nothing is found for it. */
  lemma {:induction false} UnknownFieldNotFound(field: Column, text: string, search: Oracle)
    requires field !in PatternFields
    ensures FieldFromText(field, text, search, []) == None
  {
    ColumnPlaces(field);
  }
}
