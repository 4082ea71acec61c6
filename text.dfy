/**
 * The parts of Python's `str` methods and of `re` on literal patterns that the
 * extractor relies on: `str.isspace`, `strip`, `split()`, `split(sep)`, `join`,
 * the `in` operator, `re.sub` with literal alternatives, and the whitespace
 * collapse `re.sub(r'\s+', ' ', text)`.
 */
module PyText {
  import opened Wrappers

  /** `str.isspace()` on one character; `\s` in a `str` pattern matches the same set. */
  predicate IsSpace(c: char) {
    ('\t' <= c <= '\r') || ('\U{1C}' <= c <= '\U{1F}') || c == ' ' || c == '\U{85}' || c == '\U{A0}'
    || c == '\U{1680}' || ('\U{2000}' <= c <= '\U{200A}') || c == '\U{2028}' || c == '\U{2029}'
    || c == '\U{202F}' || c == '\U{205F}' || c == '\U{3000}'
  }

  predicate IsWordChar(c: char) { !IsSpace(c) }

  /** ASCII digit (see README for `\d` on other scripts). */
  predicate IsDigit(c: char) { '0' <= c <= '9' }

  /** `[A-Z]` */
  predicate IsUpper(c: char) { 'A' <= c <= 'Z' }

  /** Python truthiness of a `str | None` value: present and non-empty. */
  predicate Truthy(o: Option<string>) { o.Some? && o.value != "" }

  predicate AllSpace(s: string) { forall i | 0 <= i < |s| :: IsSpace(s[i]) }

  predicate NoSpace(s: string) { forall i | 0 <= i < |s| :: !IsSpace(s[i]) }

  /** Length of the longest prefix of `s` whose characters satisfy `p`. */
  function Run(s: string, p: char -> bool): (n: nat)
    ensures n <= |s|
    ensures forall i | 0 <= i < n :: p(s[i])
    ensures n < |s| ==> !p(s[n])
  {
    if s != [] && p(s[0]) then 1 + Run(s[1..], p) else 0
  }

  /** Length of the longest suffix of `s` whose characters satisfy `p`. */
  function RunBack(s: string, p: char -> bool): (n: nat)
    ensures n <= |s|
    ensures forall i | |s| - n <= i < |s| :: p(s[i])
    ensures n < |s| ==> !p(s[|s| - n - 1])
  {
    if s != [] && p(s[|s| - 1]) then 1 + RunBack(s[..|s| - 1], p) else 0
  }

  predicate StartsWith(s: string, prefix: string) {
    |prefix| <= |s| && s[..|prefix|] == prefix
  }

  /** Python's `needle in hay` on strings. */
  predicate Contains(needle: string, hay: string)
    decreases |hay|
  {
    StartsWith(hay, needle) || (hay != [] && Contains(needle, hay[1..]))
  }

  /** No leading and no trailing whitespace. */
  predicate IsStripped(s: string) {
    s == [] || (!IsSpace(s[0]) && !IsSpace(s[|s| - 1]))
  }

  function TrimStart(s: string): (r: string)
    ensures r != [] ==> !IsSpace(r[0])
  {
    s[Run(s, IsSpace)..]
  }

  /** `str.strip()`: the string less its leading and trailing whitespace. */
  function Strip(s: string): (r: string)
    ensures IsStripped(r) && |r| <= |s|
    ensures exists i, j | 0 <= i <= j <= |s| :: r == s[i..j] && AllSpace(s[..i]) && AllSpace(s[j..])
    ensures IsStripped(s) ==> r == s
  {
    var i := Run(s, IsSpace);
    var t := s[i..];
    var k := RunBack(t, IsSpace);
    var j := |s| - k;
    assert s[i..j] == t[..|t| - k];
    assert AllSpace(s[..i]) by {
      forall m | 0 <= m < i ensures IsSpace(s[..i][m]) {
        assert s[..i][m] == s[m];
      }
    }
    assert AllSpace(s[j..]) by {
      forall m | 0 <= m < k ensures IsSpace(s[j..][m]) {
        assert s[j..][m] == t[|t| - k + m];
      }
    }
    assert i < j ==> s[i..j][0] == s[i] && s[i..j][j - i - 1] == t[|t| - k - 1];
    s[i..j]
  }

  /** `str.split()` with no argument: the maximal runs of non-whitespace characters. */
  function Words(s: string): seq<string>
    decreases |s|
  {
    var t := TrimStart(s);
    if t == [] then []
    else
      var n := Run(t, IsWordChar);
      assert n > 0 by { assert IsWordChar(t[0]); }
      [t[..n]] + Words(t[n..])
  }

  /** Every word is non-empty and holds no whitespace. */
  lemma {:induction false} WordsShape(s: string, k: nat)
    requires k < |Words(s)|
    ensures Words(s)[k] != [] && NoSpace(Words(s)[k])
    decreases |s|
  {
    var t := TrimStart(s);
    assert t != [];
    var n := Run(t, IsWordChar);
    var w := t[..n];
    var rest := Words(t[n..]);
    assert Words(s) == [w] + rest;
    if k == 0 {
      forall i | 0 <= i < |w| ensures !IsSpace(w[i]) {
        assert w[i] == t[i] && IsWordChar(t[i]);
      }
    } else {
      assert ([w] + rest)[k] == rest[k - 1];
      WordsShape(t[n..], k - 1);
    }
  }

  function Concat(ws: seq<string>): string {
    if ws == [] then "" else ws[0] + Concat(ws[1..])
  }

  /** The characters of `s` that are not whitespace, in order. */
  function NonSpace(s: string): (r: string)
    ensures NoSpace(r)
  {
    if s == [] then "" else (if IsSpace(s[0]) then "" else [s[0]]) + NonSpace(s[1..])
  }

  lemma {:induction false} NonSpaceAppend(a: string, b: string)
    ensures NonSpace(a + b) == NonSpace(a) + NonSpace(b)
  {
    if a != [] {
      assert (a + b)[0] == a[0];
      assert (a + b)[1..] == a[1..] + b;
      NonSpaceAppend(a[1..], b);
      var h := if IsSpace(a[0]) then "" else [a[0]];
      assert NonSpace(a + b) == h + (NonSpace(a[1..]) + NonSpace(b));
      assert h + (NonSpace(a[1..]) + NonSpace(b)) == (h + NonSpace(a[1..])) + NonSpace(b);
    } else {
      assert a + b == b;
    }
  }

  lemma {:induction false} NonSpaceOfSpaces(s: string)
    requires AllSpace(s)
    ensures NonSpace(s) == ""
  {
    if s != [] { NonSpaceOfSpaces(s[1..]); }
  }

  lemma {:induction false} NonSpaceOfWord(s: string)
    requires NoSpace(s)
    ensures NonSpace(s) == s
  {
    if s != [] { NonSpaceOfWord(s[1..]); }
  }

  /** A word followed by whitespace is the first word, and the split goes on after the
      whitespace. */
  lemma {:induction false} WordsCons(w: string, g: string, rest: string)
    requires w != [] && NoSpace(w)
    requires g != [] && AllSpace(g)
    ensures Words(w + g + rest) == [w] + Words(rest)
  {
    var s := w + g + rest;
    assert s == w + (g + rest);
    assert s[0] == w[0];
    assert TrimStart(s) == s by {
      assert !IsSpace(s[0]);
    }
    assert (g + rest)[0] == g[0];
    RunOfPrefix(w, g + rest, IsWordChar);
    assert s[..|w|] == w && s[|w|..] == g + rest;
    WordsSkipSpace(g, rest);
  }

  /** Leading whitespace does not change the words. */
  lemma {:induction false} WordsSkipSpace(g: string, rest: string)
    requires AllSpace(g)
    ensures Words(g + rest) == Words(rest)
  {
    var n := Run(rest, IsSpace);
    var r0, b := rest[..n], rest[n..];
    assert g + rest == (g + r0) + b;
    assert AllSpace(g + r0) by {
      forall m | 0 <= m < |g + r0| ensures IsSpace((g + r0)[m]) {
        if m >= |g| {
          assert (g + r0)[m] == rest[m - |g|];
        }
      }
    }
    TrimStartSpaces(g + r0, b);
  }

  /** Splitting on whitespace loses exactly the whitespace: the words, put back together,
      are the non-whitespace characters of the input. */
  lemma {:induction false} WordsKeepText(s: string)
    ensures Concat(Words(s)) == NonSpace(s)
    decreases |s|
  {
    var t := TrimStart(s);
    if t == [] {
      assert Words(s) == [];
      NonSpaceOfSpaces(s);
    } else {
      var n := Run(t, IsWordChar);
      assert IsWordChar(t[0]);
      WordsKeepText(t[n..]);
      WordsKeepTextStep(s);
    }
  }

  /** One word of `WordsKeepText`: the claim for `s` from the claim for the text after
      its first word. */
  lemma {:induction false} WordsKeepTextStep(s: string)
    requires TrimStart(s) != []
    requires var t := TrimStart(s); var n := Run(t, IsWordChar);
      Concat(Words(t[n..])) == NonSpace(t[n..])
    ensures Concat(Words(s)) == NonSpace(s)
  {
    var t := TrimStart(s);
    var n := Run(t, IsWordChar);
    NonSpaceAfterRun(s, Run(s, IsSpace));
    NonSpaceWordHead(t, n);
    ConcatWords(s);
  }

  /** Leading whitespace contributes nothing to `NonSpace`. */
  lemma {:induction false} NonSpaceAfterRun(s: string, i: nat)
    requires i <= |s| && forall m | 0 <= m < i :: IsSpace(s[m])
    ensures NonSpace(s) == NonSpace(s[i..])
  {
    assert s == s[..i] + s[i..];
    NonSpaceAppend(s[..i], s[i..]);
    assert AllSpace(s[..i]) by {
      forall m | 0 <= m < i ensures IsSpace(s[..i][m]) {
        assert s[..i][m] == s[m];
      }
    }
    NonSpaceOfSpaces(s[..i]);
  }

  /** A leading word is kept whole by `NonSpace`. */
  lemma {:induction false} NonSpaceWordHead(t: string, n: nat)
    requires n <= |t| && forall m | 0 <= m < n :: IsWordChar(t[m])
    ensures NonSpace(t) == t[..n] + NonSpace(t[n..])
  {
    assert t == t[..n] + t[n..];
    NonSpaceAppend(t[..n], t[n..]);
    assert NoSpace(t[..n]) by {
      forall m | 0 <= m < n ensures !IsSpace(t[..n][m]) {
        assert t[..n][m] == t[m] && IsWordChar(t[m]);
      }
    }
    NonSpaceOfWord(t[..n]);
  }

  /** The first word followed by the rest. */
  lemma {:induction false} ConcatWords(s: string)
    requires TrimStart(s) != []
    ensures var t := TrimStart(s); var n := Run(t, IsWordChar);
      Concat(Words(s)) == t[..n] + Concat(Words(t[n..]))
  {
    var t := TrimStart(s);
    var n := Run(t, IsWordChar);
    var ws := [t[..n]] + Words(t[n..]);
    assert Words(s) == ws;
    assert ws[0] == t[..n] && ws[1..] == Words(t[n..]);
  }


  /** `s.split(sep)` for a one-character separator. */
  function Split(s: string, sep: char): (parts: seq<string>)
    ensures |parts| >= 1
    ensures forall k | 0 <= k < |parts| :: sep !in parts[k]
  {
    if s == [] then [""]
    else
      var rest := Split(s[1..], sep);
      if s[0] == sep then [""] + rest else [[s[0]] + rest[0]] + rest[1..]
  }

  /** `sep.join(parts)` */
  function Join(parts: seq<string>, sep: string): string {
    if parts == [] then ""
    else if |parts| == 1 then parts[0]
    else parts[0] + sep + Join(parts[1..], sep)
  }

  lemma {:induction false} JoinConsFirst(c: char, parts: seq<string>, sep: string)
    requires parts != []
    ensures Join([[c] + parts[0]] + parts[1..], sep) == [c] + Join(parts, sep)
  {
    var ps := [[c] + parts[0]] + parts[1..];
    assert ps[1..] == parts[1..];
  }

  /** Joining the pieces of a split with the separator gives back the original text. */
  lemma {:induction false} JoinSplit(s: string, sep: char)
    ensures Join(Split(s, sep), [sep]) == s
  {
    if s != [] {
      var rest := Split(s[1..], sep);
      JoinSplit(s[1..], sep);
      if s[0] == sep {
        var ps := [""] + rest;
        assert ps[1..] == rest;
        assert s == [sep] + s[1..];
      } else {
        JoinConsFirst(s[0], rest, [sep]);
        assert s == [s[0]] + s[1..];
      }
    }
  }

  /** Whitespace occurs only as lone `' '` characters. */
  predicate IsCollapsed(s: string) {
    forall i | 0 <= i < |s| :: IsSpace(s[i]) ==> s[i] == ' ' && (i + 1 < |s| ==> !IsSpace(s[i + 1]))
  }

  /** `re.sub(r'\s+', ' ', s)`: every maximal run of whitespace becomes one space. */
  function Collapse(s: string): (r: string)
    decreases |s|
  {
    if s == [] then ""
    else if IsSpace(s[0]) then " " + Collapse(TrimStart(s))
    else [s[0]] + Collapse(s[1..])
  }

  lemma {:induction false} CollapseFirst(s: string)
    ensures |Collapse(s)| <= |s|
    ensures s != [] ==> Collapse(s) != [] && (IsSpace(Collapse(s)[0]) <==> IsSpace(s[0]))
    decreases |s|
  {
    if s != [] {
      if IsSpace(s[0]) { CollapseFirst(TrimStart(s)); } else { CollapseFirst(s[1..]); }
    }
  }

  /** The collapsed text has no whitespace but single `' '` characters. */
  lemma {:induction false} CollapseIsCollapsed(s: string)
    ensures IsCollapsed(Collapse(s))
    decreases |s|
  {
    if s != [] {
      if IsSpace(s[0]) {
        var t := TrimStart(s);
        CollapseIsCollapsed(t);
        CollapseFirst(t);
      } else {
        CollapseIsCollapsed(s[1..]);
      }
    }
  }

  /** Collapsing whitespace keeps every other character, in order. */
  lemma {:induction false} CollapseKeepsText(s: string)
    ensures NonSpace(Collapse(s)) == NonSpace(s)
    decreases |s|
  {
    if s != [] {
      if IsSpace(s[0]) {
        var t := TrimStart(s);
        CollapseKeepsText(t);
        assert s == s[..|s| - |t|] + t;
        NonSpaceAppend(s[..|s| - |t|], t);
        NonSpaceOfSpaces(s[..|s| - |t|]);
        NonSpaceAppend(" ", Collapse(t));
      } else {
        CollapseKeepsText(s[1..]);
        NonSpaceAppend([s[0]], Collapse(s[1..]));
      }
    }
  }

  lemma {:induction false} RunAppend(a: string, b: string, p: char -> bool)
    requires Run(a, p) < |a|
    ensures Run(a + b, p) == Run(a, p)
  {
    assert (a + b)[0] == a[0];
    if p(a[0]) {
      assert (a + b)[1..] == a[1..] + b;
      RunAppend(a[1..], b, p);
    }
  }

  /** A run that covers all of `a` and stops at the first character of `b`. */
  lemma {:induction false} RunOfPrefix(a: string, b: string, p: char -> bool)
    requires forall k | 0 <= k < |a| :: p(a[k])
    requires b == [] || !p(b[0])
    ensures Run(a + b, p) == |a|
    decreases |a|
  {
    if a == [] {
      assert a + b == b;
    } else {
      assert (a + b)[1..] == a[1..] + b;
      RunOfPrefix(a[1..], b, p);
    }
  }

  /** A run that stops inside `a`, or covers `a` and finds no match at the start of `b`,
      is the same run in `a + b`. */
  lemma {:induction false} RunStops(a: string, b: string, p: char -> bool)
    requires Run(a, p) < |a| || b == [] || !p(b[0])
    ensures Run(a + b, p) == Run(a, p)
    decreases |a|
  {
    if Run(a, p) < |a| {
      RunAppend(a, b, p);
    } else if a == [] {
      assert a + b == b;
    } else {
      assert (a + b)[1..] == a[1..] + b;
      RunStops(a[1..], b, p);
    }
  }

  /** A run from the end that covers all of `b` and stops at the last character of `a`. */
  lemma {:induction false} RunBackOfSuffix(a: string, b: string, p: char -> bool)
    requires forall k | 0 <= k < |b| :: p(b[k])
    requires a == [] || !p(a[|a| - 1])
    ensures RunBack(a + b, p) == |b|
    decreases |b|
  {
    if b == [] {
      assert a + b == a;
    } else {
      var s := a + b;
      assert s[|s| - 1] == b[|b| - 1];
      assert s[..|s| - 1] == a + b[..|b| - 1];
      RunBackOfSuffix(a, b[..|b| - 1], p);
    }
  }

  /** A needle one of whose characters never occurs in `hay` is not in `hay`. */
  lemma {:induction false} NotContainsMissing(needle: string, hay: string, j: nat)
    requires j < |needle|
    requires forall k | 0 <= k < |hay| :: hay[k] != needle[j]
    ensures !Contains(needle, hay)
    decreases |hay|
  {
    if |needle| <= |hay| {
      assert hay[..|needle|][j] == hay[j];
    }
    if hay != [] {
      NotContainsMissing(needle, hay[1..], j);
    }
  }

  /** An occurrence in `a + b` that is not one in `a` ends inside `b`, which is impossible
      when `b` lacks the needle's last character. */
  lemma {:induction false} NotContainsAppend(needle: string, a: string, b: string)
    requires needle != [] && !Contains(needle, a)
    requires forall k | 0 <= k < |b| :: b[k] != needle[|needle| - 1]
    ensures !Contains(needle, a + b)
    decreases |a|
  {
    if a == [] {
      assert a + b == b;
      NotContainsMissing(needle, b, |needle| - 1);
    } else {
      var s := a + b;
      if |needle| <= |a| {
        assert s[..|needle|] == a[..|needle|];
      } else if |needle| <= |s| {
        assert s[..|needle|][|needle| - 1] == b[|needle| - 1 - |a|];
      }
      assert s[1..] == a[1..] + b;
      NotContainsAppend(needle, a[1..], b);
    }
  }

  lemma {:induction false} TrimStartAppend(a: string, b: string)
    requires a != [] && !IsSpace(a[|a| - 1])
    ensures TrimStart(a + b) == TrimStart(a) + b
  {
    RunAppend(a, b, IsSpace);
    var n := Run(a, IsSpace);
    assert (a + b)[n..] == a[n..] + b;
  }

  lemma {:induction false} TrimStartSpaces(w: string, b: string)
    requires AllSpace(w)
    requires b == [] || !IsSpace(b[0])
    ensures TrimStart(w + b) == b
    decreases |w|
  {
    if w != [] {
      assert (w + b)[0] == w[0];
      assert (w + b)[1..] == w[1..] + b;
      TrimStartSpaces(w[1..], b);
    } else {
      assert w + b == b;
    }
  }

  /** A leading whitespace run becomes exactly one space. */
  lemma {:induction false} CollapseLeadingRun(w: string, b: string)
    requires w != [] && AllSpace(w)
    requires b == [] || !IsSpace(b[0])
    ensures Collapse(w + b) == " " + Collapse(b)
  {
    assert (w + b)[0] == w[0];
    TrimStartSpaces(w, b);
  }

  /** A whitespace run between two non-whitespace neighbours becomes exactly one space,
      and the text on either side is collapsed on its own. */
  lemma {:induction false} CollapseAtRun(a: string, w: string, b: string)
    requires a == [] || !IsSpace(a[|a| - 1])
    requires w != [] && AllSpace(w)
    requires b == [] || !IsSpace(b[0])
    ensures Collapse(a + (w + b)) == Collapse(a) + (" " + Collapse(b))
    decreases |a|
  {
    if a == [] {
      assert a + (w + b) == w + b;
      CollapseLeadingRun(w, b);
    } else if IsSpace(a[0]) {
      var t := TrimStart(a);
      assert t != [] && t[|t| - 1] == a[|a| - 1];
      CollapseAtRun(t, w, b);
      CollapseSpaceHead(a, w + b, " " + Collapse(b));
    } else {
      CollapseAtRun(a[1..], w, b);
      CollapseWordHead(a, w + b, " " + Collapse(b));
    }
  }

  lemma {:induction false} CollapseSpaceHead(a: string, x: string, tail: string)
    requires a != [] && IsSpace(a[0]) && !IsSpace(a[|a| - 1])
    requires Collapse(TrimStart(a) + x) == Collapse(TrimStart(a)) + tail
    ensures Collapse(a + x) == Collapse(a) + tail
  {
    assert (a + x)[0] == a[0];
    TrimStartAppend(a, x);
    var c := Collapse(TrimStart(a));
    assert " " + (c + tail) == (" " + c) + tail;
  }

  lemma {:induction false} CollapseWordHead(a: string, x: string, tail: string)
    requires a != [] && !IsSpace(a[0])
    requires Collapse(a[1..] + x) == Collapse(a[1..]) + tail
    ensures Collapse(a + x) == Collapse(a) + tail
  {
    CollapseCons(a, x);
    var c := Collapse(a[1..]);
    assert [a[0]] + (c + tail) == ([a[0]] + c) + tail;
  }

  lemma {:induction false} CollapseCons(a: string, x: string)
    requires a != [] && !IsSpace(a[0])
    ensures Collapse(a + x) == [a[0]] + Collapse(a[1..] + x)
    ensures Collapse(a) == [a[0]] + Collapse(a[1..])
  {
    assert (a + x)[0] == a[0];
    assert (a + x)[1..] == a[1..] + x;
  }

  /** Text that is already collapsed is left alone. */
  lemma {:induction false} CollapseFixesCollapsed(s: string)
    requires IsCollapsed(s)
    ensures Collapse(s) == s
    decreases |s|
  {
    if s != [] {
      if IsSpace(s[0]) {
        var t := TrimStart(s);
        assert |s| > 1 ==> !IsSpace(s[1]);
        assert t == s[1..];
      }
      assert IsCollapsed(s[1..]) by {
        forall i | 0 <= i < |s[1..]| && IsSpace(s[1..][i])
          ensures s[1..][i] == ' ' && (i + 1 < |s[1..]| ==> !IsSpace(s[1..][i + 1]))
        {
          assert s[1..][i] == s[i + 1];
        }
      }
      CollapseFixesCollapsed(s[1..]);
    }
  }

  lemma {:induction false} CollapseIdempotent(s: string)
    ensures Collapse(Collapse(s)) == Collapse(s)
  {
    CollapseIsCollapsed(s);
    CollapseFixesCollapsed(Collapse(s));
  }

  /** The first of the alternatives that is a prefix of `s`, in the order given. */
  function FirstPrefix(s: string, alts: seq<string>): (r: Option<string>)
    ensures r.Some? ==> r.value in alts && StartsWith(s, r.value)
    ensures r.None? ==> forall k | 0 <= k < |alts| :: !StartsWith(s, alts[k])
  {
    if alts == [] then None
    else if StartsWith(s, alts[0]) then Some(alts[0])
    else FirstPrefix(s, alts[1..])
  }

  /**
   * `re.sub(a1|a2|..., '', s)` where the alternatives are literal, non-empty strings:
   * scanning left to right, the first alternative that starts at the current
   * position is deleted and the scan resumes after it.
   */
  function RemoveAll(s: string, alts: seq<string>): (r: string)
    requires forall k | 0 <= k < |alts| :: alts[k] != ""
    decreases |s|
    ensures |r| <= |s|
    ensures (forall k | 0 <= k < |alts| :: !Contains(alts[k], s)) ==> r == s
  {
    if s == [] then ""
    else match FirstPrefix(s, alts)
      case Some(a) => RemoveAll(s[|a|..], alts)
      case None => [s[0]] + RemoveAll(s[1..], alts)
  }

  /** An alternative that occurs in `s` is removed: the result is strictly shorter. */
  lemma {:induction false} RemoveAllShortens(s: string, alts: seq<string>, k: nat)
    requires forall i | 0 <= i < |alts| :: alts[i] != ""
    requires k < |alts| && Contains(alts[k], s)
    ensures |RemoveAll(s, alts)| < |s|
    decreases |s|
  {
    assert |alts[k]| <= |s| by {
      ContainsFits(alts[k], s);
    }
    match FirstPrefix(s, alts)
    case Some(a) =>
    case None =>
      assert !StartsWith(s, alts[k]);
      RemoveAllShortens(s[1..], alts, k);
  }

  /** A needle that occurs in `hay` fits in it. */
  lemma {:induction false} ContainsFits(needle: string, hay: string)
    requires Contains(needle, hay)
    ensures |needle| <= |hay|
    decreases |hay|
  {
    if !StartsWith(hay, needle) {
      ContainsFits(needle, hay[1..]);
    }
  }

  /** A needle that starts at position `i` of `hay` occurs in `hay`. */
  lemma {:induction false} ContainsAt(needle: string, hay: string, i: nat)
    requires i <= |hay|
    ensures StartsWith(hay[i..], needle) ==> Contains(needle, hay)
    decreases i
  {
    if i > 0 {
      assert hay[1..][i - 1..] == hay[i..];
      ContainsAt(needle, hay[1..], i - 1);
    } else {
      assert hay[0..] == hay;
    }
  }

  /** A needle that starts with a non-space is not found in whitespace put in front of a
      text that lacks it. */
  lemma {:induction false} NotContainsAfterSpace(needle: string, w: string, p: string)
    requires needle != [] && !IsSpace(needle[0])
    requires AllSpace(w) && !Contains(needle, p)
    ensures !Contains(needle, w + p)
    decreases |w|
  {
    if w == [] {
      assert w + p == p;
    } else {
      assert (w + p)[0] == w[0];
      assert !StartsWith(w + p, needle) by {
        if |needle| <= |w + p| {
          assert (w + p)[..|needle|][0] == w[0];
        }
      }
      assert (w + p)[1..] == w[1..] + p;
      NotContainsAfterSpace(needle, w[1..], p);
    }
  }

  /** Where no alternative starts inside `u`, the deletion keeps `u` whole and goes on in
      what follows. */
  lemma {:induction false} RemoveAllKeepsHead(u: string, t: string, alts: seq<string>)
    requires forall k | 0 <= k < |alts| :: alts[k] != ""
    requires forall i | 0 <= i < |u| :: FirstPrefix((u + t)[i..], alts).None?
    ensures RemoveAll(u + t, alts) == u + RemoveAll(t, alts)
    decreases |u|
  {
    if u == [] {
      assert u + t == t;
    } else {
      var s := u + t;
      ConsParts(u, t);
      assert s[0..] == s;
      RemoveAllKeepFirst(s, alts);
      forall i | 0 <= i < |u[1..]| ensures FirstPrefix((u[1..] + t)[i..], alts).None? {
        assert (u[1..] + t)[i..] == s[i + 1..];
      }
      RemoveAllKeepsHead(u[1..], t, alts);
      ConsParts(u, RemoveAll(t, alts));
    }
  }

  /** The first alternative on its own is deleted entirely. */
  lemma {:induction false} RemoveAllAlone(a: string, alts: seq<string>)
    requires forall k | 0 <= k < |alts| :: alts[k] != ""
    requires alts != [] && a == alts[0]
    ensures RemoveAll(a, alts) == []
  {
    assert a[..|a|] == a && a[|a|..] == [];
    assert FirstPrefix(a, alts) == Some(a);
  }

  /** Where no alternative starts, the first character is kept. */
  lemma {:induction false} RemoveAllKeepFirst(s: string, alts: seq<string>)
    requires forall k | 0 <= k < |alts| :: alts[k] != ""
    requires s != [] && FirstPrefix(s, alts).None?
    ensures RemoveAll(s, alts) == [s[0]] + RemoveAll(s[1..], alts)
  {
  }

  /** `u` is its first character followed by the rest, also in front of `t`. */
  lemma {:induction false} ConsParts(u: string, t: string)
    requires u != []
    ensures (u + t)[0] == u[0] && (u + t)[1..] == u[1..] + t
    ensures [u[0]] + (u[1..] + t) == u + t
    ensures u[1..] == [] || u[1..][|u[1..]| - 1] == u[|u| - 1]
  {
    assert (u + t)[1..] == u[1..] + t;
    assert [u[0]] + (u[1..] + t) == u + t;
  }

  /** Whitespace in front of a stripped text is what `strip()` removes. */
  lemma {:induction false} StripLeadingSpace(w: string, p: string)
    requires AllSpace(w) && IsStripped(p)
    ensures Strip(w + p) == p
  {
    var s := w + p;
    RunOfPrefix(w, p, IsSpace);
    assert s[|w|..] == p;
    assert RunBack(p, IsSpace) == 0;
    assert s[|w|..|s|] == p;
  }

  /** Whitespace after a non-empty stripped text is what `strip()` removes. */
  lemma {:induction false} StripTrailingSpace(p: string, w: string)
    requires p != [] && IsStripped(p) && AllSpace(w)
    ensures Strip(p + w) == p
  {
    var s := p + w;
    assert s[0] == p[0];
    assert Run(s, IsSpace) == 0;
    assert s[0..] == s;
    RunBackOfSuffix(p, w, IsSpace);
    assert s[0..|s| - |w|] == p;
  }

  /** `a` is `b` with some entries left out, the others kept in order. */
  predicate IsSubsequence<T(==)>(a: seq<T>, b: seq<T>)
    decreases |b|
  {
    a == [] || (b != [] && ((a[0] == b[0] && IsSubsequence(a[1..], b[1..])) || IsSubsequence(a, b[1..])))
  }

  /** Entries put in front of `b` can all be left out. */
  lemma {:induction false} SubsequencePrepend<T>(a: seq<T>, u: seq<T>, b: seq<T>)
    requires IsSubsequence(a, b)
    ensures IsSubsequence(a, u + b)
    decreases |u|
  {
    if u == [] {
      assert u + b == b;
    } else if a != [] {
      assert (u + b)[1..] == u[1..] + b;
      SubsequencePrepend(a, u[1..], b);
    }
  }

  /** A sequence is a subsequence of itself. */
  lemma {:induction false} SubsequenceRefl<T>(a: seq<T>)
    ensures IsSubsequence(a, a)
    decreases |a|
  {
    if a != [] {
      SubsequenceRefl(a[1..]);
    }
  }

  /** Subsequences of two parts make a subsequence of the two parts joined. */
  lemma {:induction false} SubsequenceAppend<T>(a: seq<T>, b: seq<T>, c: seq<T>, d: seq<T>)
    requires IsSubsequence(a, b) && IsSubsequence(c, d)
    ensures IsSubsequence(a + c, b + d)
    decreases |b|
  {
    if a == [] {
      assert a + c == c;
      SubsequencePrepend(c, b, d);
    } else {
      assert (b + d)[1..] == b[1..] + d;
      if a[0] == b[0] && IsSubsequence(a[1..], b[1..]) {
        SubsequenceAppend(a[1..], b[1..], c, d);
        assert (a + c)[1..] == a[1..] + c;
      } else {
        SubsequenceAppend(a, b[1..], c, d);
      }
    }
  }

  /** Leaving entries out twice is leaving entries out once. */
  lemma {:induction false} SubsequenceTrans<T>(a: seq<T>, b: seq<T>, c: seq<T>)
    requires IsSubsequence(a, b) && IsSubsequence(b, c)
    ensures IsSubsequence(a, c)
    decreases |c|
  {
    if a != [] {
      if IsSubsequence(b, c[1..]) {
        SubsequenceTrans(a, b, c[1..]);
      } else if a[0] == b[0] && IsSubsequence(a[1..], b[1..]) {
        SubsequenceTrans(a[1..], b[1..], c[1..]);
      } else {
        SubsequenceTrans(a, b[1..], c[1..]);
      }
    }
  }

  /** A slice is a subsequence of the whole. */
  lemma {:induction false} SubsequenceSlice<T>(s: seq<T>, i: nat, j: nat)
    requires i <= j <= |s|
    ensures IsSubsequence(s[i..j], s)
  {
    SubsequenceRefl(s[i..j]);
    SubsequenceAppend(s[i..j], s[i..j], [], s[j..]);
    assert s[i..j] + [] == s[i..j];
    SubsequencePrepend(s[i..j], s[..i], s[i..j] + s[j..]);
    assert s[..i] + (s[i..j] + s[j..]) == s;
  }

  /** `strip()` only deletes characters. */
  lemma {:induction false} StripDeletes(s: string)
    ensures IsSubsequence(Strip(s), s)
  {
    var i, j :| 0 <= i <= j <= |s| && Strip(s) == s[i..j];
    SubsequenceSlice(s, i, j);
  }

  /** Deleting literal alternatives only deletes characters. */
  lemma {:induction false} RemoveAllDeletes(s: string, alts: seq<string>)
    requires forall k | 0 <= k < |alts| :: alts[k] != ""
    ensures IsSubsequence(RemoveAll(s, alts), s)
    decreases |s|
  {
    if s != [] {
      match FirstPrefix(s, alts)
      case Some(a) =>
        RemoveAllDeletes(s[|a|..], alts);
        SubsequencePrepend(RemoveAll(s[|a|..], alts), s[..|a|], s[|a|..]);
        assert s[..|a|] + s[|a|..] == s;
      case None =>
        RemoveAllDeletes(s[1..], alts);
        KeepHead(s, RemoveAll(s[1..], alts));
    }
  }

  /** Keeping the first character keeps a subsequence of the rest a subsequence. */
  lemma {:induction false} KeepHead<T>(s: seq<T>, r: seq<T>)
    requires s != [] && IsSubsequence(r, s[1..])
    ensures IsSubsequence([s[0]] + r, s)
  {
    assert ([s[0]] + r)[1..] == r;
  }

  /** A prefix followed by the last entry is a subsequence of the whole. */
  lemma {:induction false} KeepPrefixAndLast<T>(s: seq<T>, m: nat)
    requires m < |s|
    ensures IsSubsequence(s[..m] + [s[|s| - 1]], s)
  {
    var last := [s[|s| - 1]];
    SubsequenceRefl(s[..m]);
    SubsequenceRefl(last);
    SubsequencePrepend(last, s[m..|s| - 1], last);
    assert s[m..|s| - 1] + last == s[m..];
    SubsequenceAppend(s[..m], s[..m], last, s[m..]);
    assert s[..m] + s[m..] == s;
  }
}
